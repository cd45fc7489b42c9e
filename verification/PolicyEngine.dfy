/** What a policy means: expanding selectors into devices and listing the relationships its rules allow. */
module PolicyEngine {
  import opened Common
  import opened Json
  import opened Ordering

  type Policy = map<string, Value>

  datatype Device = Device(id: string, tags: seq<string>, owner: Option<string>, addresses: seq<string>)

  datatype User = User(id: string, login: Option<string>, display: Option<string>)

  /**
   * What the host language does: its text of a list or an object, the characters it counts as digits, and how
   * deeply expansions may be nested before it gives up.
   */
  datatype Runtime = Runtime(text: Value -> string, digit: char -> bool, depth: nat)

  /** The devices and users known, and the host language. */
  datatype Inventory = Inventory(devices: seq<Device>, users: seq<User>, runtime: Runtime)

  /** How an expansion ends; `Raised` and `TooDeep` stand for exceptions, which end the whole evaluation. */
  datatype Status = FullyEvaluated | UnresolvedSelector | UnsupportedConstruct | Raised | TooDeep

  predicate Fails(s: Status) {
    s == Raised || s == TooDeep
  }

  datatype Expansion = Expansion(ids: seq<string>, status: Status)

  // ----- reading a policy

  /** The host language's text of a value. */
  function Text(v: Value, inv: Inventory): string {
    match v
    case Null => "None"
    case Bool(b) => if b then "True" else "False"
    case Number(t) => t
    case Str(s) => s
    case _ => inv.runtime.text(v)
  }

  predicate Truthy(v: Value) {
    match v
    case Null => false
    case Bool(b) => b
    case Number(t) => t != "0" && t != "0.0" && t != "-0.0"
    case Str(s) => s != ""
    case Arr(items) => items != []
    case Obj(fields) => fields != map[]
  }

  /** The fields of a section; asking a section that is no object for a field raises an error. */
  function FieldsOf(policy: Policy, section: string): map<string, Value> {
    if section in policy && policy[section].Obj? then policy[section].fields else map[]
  }

  predicate NoFields(policy: Policy, section: string) {
    section in policy && !policy[section].Obj?
  }

  /** Only lists, texts and objects can be iterated over. */
  predicate Listable(v: Value) {
    v.Arr? || v.Str? || v.Obj?
  }

  function Named(keys: seq<string>): seq<Value> {
    seq(|keys|, i requires 0 <= i < |keys| => Str(keys[i]))
  }

  /** What iterating yields: the entries of a list, the characters of a text, or the keys of an object. */
  function Iterated(v: Value): seq<Value> {
    match v
    case Arr(items) => items
    case Str(s) => seq(|s|, i requires 0 <= i < |s| => Str([s[i]]))
    case Obj(fields) => Named(SortedKeys(fields.Keys))
    case _ => []
  }

  /** A field of a rule; a rule that is no object has none. */
  function FieldOr(rule: Value, name: string, default: Value): Value {
    if rule.Obj? && name in rule.fields then rule.fields[name] else default
  }

  function SourceField(rule: Value): Value {
    FieldOr(rule, "src", FieldOr(rule, "users", Arr([])))
  }

  function DestinationField(rule: Value): Value {
    FieldOr(rule, "dst", FieldOr(rule, "ports", Arr([])))
  }

  // ----- groups

  predicate IsGroup(policy: Policy, selector: string) {
    "group:" <= selector && selector in FieldsOf(policy, "groups") && FieldsOf(policy, "groups")[selector].Arr?
  }

  function Members(policy: Policy, group: string): seq<Value>
    requires IsGroup(policy, group)
  {
    FieldsOf(policy, "groups")[group].items
  }

  // ----- expanding a selector

  /** The ids of the devices that a predicate selects, in inventory order. */
  function IdsWhere(devices: seq<Device>, chosen: Device -> bool): seq<string> {
    if devices == [] then []
    else
      var n := |devices| - 1;
      IdsWhere(devices[..n], chosen) + if chosen(devices[n]) then [devices[n].id] else []
  }

  predicate OwnedBy(d: Device, users: seq<User>, selector: string) {
    exists u :: u in users && (u.login == Some(selector) || u.display == Some(selector)) && d.owner == Some(u.id)
  }

  /** The devices with a host's address; a host that is not a text is the address of no device. */
  function HostDevices(host: Value, inv: Inventory): seq<string> {
    if host.Str? then IdsWhere(inv.devices, (d: Device) => host.str in d.addresses) else []
  }

  /** Expansion of everything but a defined group. */
  function ExpandPlain(selector: string, policy: Policy, inv: Inventory): Expansion {
    if selector == "*" then Expansion(IdsWhere(inv.devices, d => true), FullyEvaluated)
    else if "group:" <= selector then
      Expansion([], if NoFields(policy, "groups") then Raised else UnresolvedSelector)
    else if "tag:" <= selector then Expansion(IdsWhere(inv.devices, (d: Device) => selector in d.tags), FullyEvaluated)
    else if "autogroup:" <= selector then
      if selector == "autogroup:member" || selector == "autogroup:tagged" then
        Expansion(IdsWhere(inv.devices, (d: Device) => selector == "autogroup:member" || d.tags != []), FullyEvaluated)
      else Expansion([], UnsupportedConstruct)
    else
      var owned := IdsWhere(inv.devices, d => OwnedBy(d, inv.users, selector));
      if owned != [] then Expansion(owned, FullyEvaluated)
      else if NoFields(policy, "hosts") then Expansion([], Raised)
      else if selector in FieldsOf(policy, "hosts") && Truthy(FieldsOf(policy, "hosts")[selector]) then
        Expansion(HostDevices(FieldsOf(policy, "hosts")[selector], inv), FullyEvaluated)
      else Expansion([], UnresolvedSelector)
  }

  /** Joins the expansions of a group's members, stopping after the first that is not fully evaluated. */
  function Joined(parts: seq<Expansion>): Expansion {
    if parts == [] then Expansion([], FullyEvaluated)
    else
      var n := |parts| - 1;
      var before := Joined(parts[..n]);
      if before.status != FullyEvaluated then before
      else Expansion(before.ids + parts[n].ids, parts[n].status)
  }

  /** Expansion of a selector with at most `depth` expansions nested, this one included. */
  function ExpandWithin(depth: nat, selector: string, policy: Policy, inv: Inventory): Expansion
    decreases depth, 0
  {
    if depth == 0 then Expansion([], TooDeep)
    else if IsGroup(policy, selector) then
      var all := Joined(MemberExpansions(depth - 1, selector, policy, inv));
      Expansion(SortedUnique(all.ids), all.status)
    else ExpandPlain(selector, policy, inv)
  }

  function MemberExpansions(depth: nat, group: string, policy: Policy, inv: Inventory): (parts: seq<Expansion>)
    requires IsGroup(policy, group)
    ensures |parts| == |Members(policy, group)|
    decreases depth, 1
  {
    seq(|Members(policy, group)|, i requires 0 <= i < |Members(policy, group)| =>
      ExpandWithin(depth, Text(Members(policy, group)[i], inv), policy, inv))
  }

  function Expand(selector: string, policy: Policy, inv: Inventory): Expansion {
    ExpandWithin(inv.runtime.depth, selector, policy, inv)
  }

  /** Parts after the first that is not fully evaluated do not matter. */
  lemma {:induction false} StopsHere(parts: seq<Expansion>, n: nat)
    requires n <= |parts| && Joined(parts[..n]).status != FullyEvaluated
    ensures Joined(parts) == Joined(parts[..n])
    decreases |parts| - n
  {
    if n == |parts| {
      assert parts[..n] == parts;
    } else {
      assert parts[..n + 1][..n] == parts[..n];
      StopsHere(parts, n + 1);
    }
  }

  /** The program's recursion, with its loop over the members of a group. */
  method ExpandSelector(depth: nat, selector: string, policy: Policy, inv: Inventory) returns (expansion: Expansion)
    ensures expansion == ExpandWithin(depth, selector, policy, inv)
    decreases depth
  {
    if depth == 0 {
      return Expansion([], TooDeep);
    }
    if !IsGroup(policy, selector) {
      return ExpandPlain(selector, policy, inv);
    }
    var members := Members(policy, selector);
    ghost var parts := MemberExpansions(depth - 1, selector, policy, inv);
    var ids: seq<string> := [];
    for i := 0 to |members|
      invariant Joined(parts[..i]) == Expansion(ids, FullyEvaluated)
    {
      var expanded := ExpandSelector(depth - 1, Text(members[i], inv), policy, inv);
      assert parts[..i + 1][..i] == parts[..i] && parts[i] == expanded;
      ids := ids + expanded.ids;
      if expanded.status != FullyEvaluated {
        StopsHere(parts, i + 1);
        return Expansion(SortedUnique(ids), expanded.status);
      }
    }
    assert parts[..|members|] == parts;
    expansion := Expansion(SortedUnique(ids), FullyEvaluated);
  }

  // ----- what an expansion contains

  lemma {:induction false} IdsWhereMembers(devices: seq<Device>, chosen: Device -> bool, id: string)
    requires id in IdsWhere(devices, chosen)
    ensures exists d :: d in devices && d.id == id
  {
    var n := |devices| - 1;
    assert devices == devices[..n] + [devices[n]];
    if id in IdsWhere(devices[..n], chosen) {
      IdsWhereMembers(devices[..n], chosen, id);
    } else {
      assert devices[n] in devices;
    }
  }

  /** How many parts are looked at. */
  ghost function Reached(parts: seq<Expansion>): (r: nat)
    ensures r <= |parts| && (parts != [] ==> r > 0)
  {
    if parts == [] then 0
    else if Joined(parts[..|parts| - 1]).status == FullyEvaluated then |parts|
    else Reached(parts[..|parts| - 1])
  }

  lemma {:induction false} JoinedStatus(parts: seq<Expansion>)
    ensures forall i :: 0 <= i < Reached(parts) - 1 ==> parts[i].status == FullyEvaluated
    ensures Reached(parts) < |parts| ==> Joined(parts).status != FullyEvaluated
    ensures Joined(parts).status == if parts == [] then FullyEvaluated else parts[Reached(parts) - 1].status
  {
    if parts != [] {
      JoinedStatus(parts[..|parts| - 1]);
    }
  }

  lemma {:induction false} JoinedIds(parts: seq<Expansion>, id: string)
    ensures id in Joined(parts).ids <==> exists i :: 0 <= i < Reached(parts) && id in parts[i].ids
  {
    if parts != [] {
      var n := |parts| - 1;
      JoinedIds(parts[..n], id);
      JoinedStatus(parts[..n]);
      if Joined(parts[..n]).status == FullyEvaluated {
        assert Reached(parts[..n]) == n;
        assert id in Joined(parts).ids <==> id in Joined(parts[..n]).ids || id in parts[n].ids;
      }
    }
  }

  lemma ExpandGroup(depth: nat, group: string, policy: Policy, inv: Inventory)
    requires IsGroup(policy, group)
    ensures var joined := Joined(MemberExpansions(depth, group, policy, inv));
            ExpandWithin(depth + 1, group, policy, inv) == Expansion(SortedUnique(joined.ids), joined.status)
  {
  }

  /**
   * A group expands to the sorted union, without repetition, of its members up to and including the first that
   * is not fully evaluated; it is fully evaluated iff every member is.
   */
  lemma GroupExpansion(depth: nat, group: string, policy: Policy, inv: Inventory)
    requires IsGroup(policy, group)
    ensures var parts := MemberExpansions(depth, group, policy, inv);
            var reached := Reached(parts);
            var e := ExpandWithin(depth + 1, group, policy, inv);
            && StrictlySorted(e.ids)
            && (forall id :: id in e.ids <==> exists i :: 0 <= i < reached && id in parts[i].ids)
            && (forall i :: 0 <= i < reached - 1 ==> parts[i].status == FullyEvaluated)
            && (reached < |parts| ==> e.status != FullyEvaluated)
            && e.status == (if parts == [] then FullyEvaluated else parts[reached - 1].status)
  {
    hide ExpandWithin, MemberExpansions, Joined, Reached, IsGroup;
    ExpandGroup(depth, group, policy, inv);
    var parts := MemberExpansions(depth, group, policy, inv);
    JoinedStatus(parts);
    forall id ensures id in Joined(parts).ids <==> exists i :: 0 <= i < Reached(parts) && id in parts[i].ids {
      JoinedIds(parts, id);
    }
  }

  lemma PlainIsKnown(selector: string, policy: Policy, inv: Inventory, id: string)
    requires id in ExpandPlain(selector, policy, inv).ids
    ensures exists d :: d in inv.devices && d.id == id
  {
    hide IdsWhere, OwnedBy, Truthy, FieldsOf, NoFields;
    var chosen: Device -> bool :| id in IdsWhere(inv.devices, chosen);
    IdsWhereMembers(inv.devices, chosen, id);
  }

  /** An expansion names only devices of the inventory. */
  lemma {:induction false} ExpandsToKnownDevices(
    depth: nat, selector: string, policy: Policy, inv: Inventory, id: string)
    requires id in ExpandWithin(depth, selector, policy, inv).ids
    ensures exists d :: d in inv.devices && d.id == id
  {
    hide ExpandPlain, Joined, Reached;
    if IsGroup(policy, selector) {
      var parts := MemberExpansions(depth - 1, selector, policy, inv);
      JoinedIds(parts, id);
      var i :| 0 <= i < Reached(parts) && id in parts[i].ids;
      ExpandsToKnownDevices(depth - 1, Text(Members(policy, selector)[i], inv), policy, inv, id);
    } else {
      PlainIsKnown(selector, policy, inv, id);
    }
  }
}
