/** What selectors stand for, and what a listed relationship says, in terms of the inventory and the rules. */
module SelectorMeaning {
  import opened Common
  import opened Json
  import opened Ordering
  import opened Picking
  import opened PolicyEngine
  import opened PolicyEvaluation

  // ----- selectors

  /** The ids of exactly the devices with a property, in inventory order. */
  ghost predicate IdsOf(ids: seq<string>, inv: Inventory, has: Device -> bool) {
    Picked(ids, inv.devices, has, (d: Device) => d.id)
  }

  lemma IdsOfMember(ids: seq<string>, inv: Inventory, has: Device -> bool, id: string)
    requires IdsOf(ids, inv, has)
    ensures id in ids <==> exists d :: d in inv.devices && has(d) && d.id == id
  {
    PickedMember(ids, inv.devices, has, (d: Device) => d.id, id);
    if d :| d in inv.devices && has(d) && d.id == id {
      var k :| 0 <= k < |inv.devices| && inv.devices[k] == d;
    }
  }

  lemma {:induction false} IdsWhereAre(devices: seq<Device>, has: Device -> bool)
    ensures Picked(IdsWhere(devices, has), devices, has, (d: Device) => d.id)
    decreases |devices|
  {
    var id := (d: Device) => d.id;
    hide Picked;
    if devices == [] {
      PickedNone(has, id);
    } else {
      var n := |devices| - 1;
      var front, last := devices[..n], devices[n];
      IdsWhereAre(front, has);
      PickedNext(IdsWhere(front, has), front, last, has, id);
      assert devices == front + [last];
      assert IdsWhere(devices, has) == if has(last) then IdsWhere(front, has) + [last.id] else IdsWhere(front, has);
    }
  }

  lemma IdsWhereHas(inv: Inventory, chosen: Device -> bool, has: Device -> bool)
    requires forall d :: d in inv.devices ==> chosen(d) == has(d)
    ensures IdsOf(IdsWhere(inv.devices, chosen), inv, has)
  {
    var id := (d: Device) => d.id;
    IdsWhereAre(inv.devices, chosen);
    PickedSame(IdsWhere(inv.devices, chosen), inv.devices, chosen, has, id, id);
  }

  /** The device belongs to a user with this login or this display name. */
  predicate BelongsTo(d: Device, name: string, inv: Inventory) {
    exists i :: 0 <= i < |inv.users| && d.owner == Some(inv.users[i].id)
      && (inv.users[i].login == Some(name) || inv.users[i].display == Some(name))
  }

  lemma OwnedIff(d: Device, name: string, inv: Inventory)
    ensures OwnedBy(d, inv.users, name) <==> BelongsTo(d, name, inv)
  {
    if i :| 0 <= i < |inv.users| && d.owner == Some(inv.users[i].id)
              && (inv.users[i].login == Some(name) || inv.users[i].display == Some(name))
    {
      assert inv.users[i] in inv.users;
    }
  }

  /** The text is one of the selectors that are looked up under their own name. */
  predicate IsName(s: string) {
    s != "*" && !("group:" <= s) && !("tag:" <= s) && !("autogroup:" <= s)
  }

  lemma BeyondDepth(s: string, policy: Policy, inv: Inventory)
    requires !IsGroup(policy, s)
    ensures Expand(s, policy, inv)
            == if inv.runtime.depth == 0 then Expansion([], TooDeep) else ExpandPlain(s, policy, inv)
  {
  }

  /** `*` stands for every device. */
  lemma StarMeans(policy: Policy, inv: Inventory)
    requires inv.runtime.depth > 0
    ensures var e := Expand("*", policy, inv); e.status == FullyEvaluated && IdsOf(e.ids, inv, d => true)
  {
    BeyondDepth("*", policy, inv);
    IdsWhereHas(inv, d => true, d => true);
  }

  /** A tag stands for the devices that carry it. */
  lemma TagMeans(s: string, policy: Policy, inv: Inventory)
    requires inv.runtime.depth > 0 && "tag:" <= s
    ensures var e := Expand(s, policy, inv);
            e.status == FullyEvaluated && IdsOf(e.ids, inv, (d: Device) => s in d.tags)
  {
    assert s[0] == 't';
    BeyondDepth(s, policy, inv);
    IdsWhereHas(inv, (d: Device) => s in d.tags, (d: Device) => s in d.tags);
  }

  /** The members are all devices, the tagged ones those with any tag; no other automatic group is understood. */
  lemma AutogroupMeans(s: string, policy: Policy, inv: Inventory)
    requires inv.runtime.depth > 0 && "autogroup:" <= s
    ensures var e := Expand(s, policy, inv);
            && (s == "autogroup:member" ==> e.status == FullyEvaluated && IdsOf(e.ids, inv, d => true))
            && (s == "autogroup:tagged" ==>
                  e.status == FullyEvaluated && IdsOf(e.ids, inv, (d: Device) => d.tags != []))
            && (s != "autogroup:member" && s != "autogroup:tagged" ==> e == Expansion([], UnsupportedConstruct))
  {
    assert s[0] == 'a';
    BeyondDepth(s, policy, inv);
    var chosen := (d: Device) => s == "autogroup:member" || d.tags != [];
    if s == "autogroup:member" {
      IdsWhereHas(inv, chosen, d => true);
    } else if s == "autogroup:tagged" {
      IdsWhereHas(inv, chosen, (d: Device) => d.tags != []);
    }
  }

  /** The text by which the host language shows a value. */
  predicate Reads(v: Value, s: string, inv: Inventory) {
    && (v == Null ==> s == "None") && (v == Bool(true) ==> s == "True") && (v == Bool(false) ==> s == "False")
    && (v.Number? ==> s == v.text) && (v.Str? ==> s == v.str)
    && (v.Arr? || v.Obj? ==> s == inv.runtime.text(v))
  }

  lemma ReadsIff(v: Value, s: string, inv: Inventory)
    ensures Reads(v, s, inv) <==> Text(v, inv) == s
  {
  }

  /** The selector is a group that the policy defines as a list. */
  predicate DefinesGroup(policy: Policy, s: string) {
    && "group:" <= s && "groups" in policy && policy["groups"].Obj?
    && s in policy["groups"].fields && policy["groups"].fields[s].Arr?
  }

  ghost predicate MemberIs(part: Expansion, member: Value, depth: nat, policy: Policy, inv: Inventory) {
    exists t :: Reads(member, t, inv) && part == ExpandWithin(depth, t, policy, inv)
  }

  /** What the members of a group stand for, which are expanded one level further down. */
  ghost predicate MembersAre(parts: seq<Expansion>, members: seq<Value>, depth: nat, policy: Policy, inv: Inventory) {
    |parts| == |members| && forall i :: 0 <= i < |parts| ==> MemberIs(parts[i], members[i], depth, policy, inv)
  }

  /** No earlier part keeps part `i` from being looked at. */
  predicate LookedAt(parts: seq<Expansion>, i: int) {
    0 <= i < |parts| && forall j :: 0 <= j < i ==> parts[j].status == FullyEvaluated
  }

  lemma {:induction false} ReachedAre(parts: seq<Expansion>)
    ensures forall i :: 0 <= i < Reached(parts) <==> LookedAt(parts, i)
    decreases |parts|
  {
    if parts != [] {
      var n := |parts| - 1;
      ReachedAre(parts[..n]);
      JoinedStatus(parts);
      JoinedStatus(parts[..n]);
      forall i ensures 0 <= i < Reached(parts) <==> LookedAt(parts, i) {
        assert i < n ==> (LookedAt(parts, i) <==> LookedAt(parts[..n], i));
      }
    }
  }

  /** The parts up to the first that is not fully evaluated, put together. */
  ghost predicate PutTogether(e: Expansion, parts: seq<Expansion>) {
    && StrictlySorted(e.ids)
    && (forall id :: id in e.ids <==> exists i :: LookedAt(parts, i) && id in parts[i].ids)
    && (e.status == FullyEvaluated <==> forall i :: 0 <= i < |parts| ==> parts[i].status == FullyEvaluated)
    && (forall i :: LookedAt(parts, i) && parts[i].status != FullyEvaluated ==> e.status == parts[i].status)
  }

  lemma ReachedStatus(e: Expansion, parts: seq<Expansion>)
    requires forall i :: 0 <= i < Reached(parts) - 1 ==> parts[i].status == FullyEvaluated
    requires Reached(parts) < |parts| ==> e.status != FullyEvaluated
    requires e.status == (if parts == [] then FullyEvaluated else parts[Reached(parts) - 1].status)
    ensures e.status == FullyEvaluated <==> forall i :: 0 <= i < |parts| ==> parts[i].status == FullyEvaluated
    ensures forall i :: LookedAt(parts, i) && parts[i].status != FullyEvaluated ==> e.status == parts[i].status
  {
    ReachedAre(parts);
    hide Reached;
    var r := Reached(parts);
    if parts != [] {
      assert LookedAt(parts, r - 1);
    }
  }

  lemma MembersExpanded(s: string, depth: nat, policy: Policy, inv: Inventory)
    requires IsGroup(policy, s)
    ensures MembersAre(MemberExpansions(depth, s, policy, inv), Members(policy, s), depth, policy, inv)
  {
    var parts, members := MemberExpansions(depth, s, policy, inv), Members(policy, s);
    hide Reads, Text, Members, IsGroup;
    forall i | 0 <= i < |parts| ensures MemberIs(parts[i], members[i], depth, policy, inv) {
      ReadsIff(members[i], Text(members[i], inv), inv);
    }
  }

  lemma GroupIsJoined(s: string, depth: nat, policy: Policy, inv: Inventory)
    requires IsGroup(policy, s)
    ensures PutTogether(ExpandWithin(depth + 1, s, policy, inv), MemberExpansions(depth, s, policy, inv))
  {
    hide ExpandWithin, Reached, MemberExpansions, LookedAt, IsGroup, StrictlySorted;
    var parts := MemberExpansions(depth, s, policy, inv);
    GroupExpansion(depth, s, policy, inv);
    ReachedAre(parts);
    ReachedStatus(ExpandWithin(depth + 1, s, policy, inv), parts);
  }

  /**
   * A group stands for the devices of its members up to the first that is not fully evaluated, sorted and without
   * repetition; it has that member's status, or is fully evaluated if there is none.
   */
  lemma GroupMeans(s: string, depth: nat, policy: Policy, inv: Inventory) returns (parts: seq<Expansion>)
    requires DefinesGroup(policy, s)
    ensures MembersAre(parts, policy["groups"].fields[s].items, depth, policy, inv)
    ensures PutTogether(ExpandWithin(depth + 1, s, policy, inv), parts)
  {
    hide PutTogether, MembersAre, ExpandWithin;
    parts := MemberExpansions(depth, s, policy, inv);
    assert IsGroup(policy, s) && Members(policy, s) == policy["groups"].fields[s].items;
    GroupIsJoined(s, depth, policy, inv);
    MembersExpanded(s, depth, policy, inv);
  }

  /** A group that the policy does not define as a list is unresolved, or raises an error if no groups can be read. */
  lemma UndefinedGroupMeans(s: string, policy: Policy, inv: Inventory)
    requires inv.runtime.depth > 0 && "group:" <= s
    requires !DefinesGroup(policy, s)
    ensures Expand(s, policy, inv)
            == Expansion([], if "groups" in policy && !policy["groups"].Obj? then Raised else UnresolvedSelector)
  {
    assert s[0] == 'g';
    BeyondDepth(s, policy, inv);
  }

  /** A name stands for the devices of the users who are called so, if there are any. */
  lemma UserMeans(s: string, policy: Policy, inv: Inventory)
    requires inv.runtime.depth > 0 && IsName(s) && exists d :: d in inv.devices && BelongsTo(d, s, inv)
    ensures var e := Expand(s, policy, inv);
            e.status == FullyEvaluated && IdsOf(e.ids, inv, d => BelongsTo(d, s, inv))
  {
    BeyondDepth(s, policy, inv);
    var owned := d => OwnedBy(d, inv.users, s);
    forall d ensures owned(d) == BelongsTo(d, s, inv) { OwnedIff(d, s, inv); }
    IdsWhereHas(inv, owned, d => BelongsTo(d, s, inv));
    var d :| d in inv.devices && BelongsTo(d, s, inv);
    hide OwnedBy, BelongsTo, IdsWhere;
    IdsOfMember(IdsWhere(inv.devices, owned), inv, d => BelongsTo(d, s, inv), d.id);
  }

  lemma NoIds(ids: seq<string>, inv: Inventory, has: Device -> bool)
    requires IdsOf(ids, inv, has) && forall d :: d in inv.devices ==> !has(d)
    ensures ids == []
  {
    if ids != [] {
      assert ids[0] in ids;
      IdsOfMember(ids, inv, has, ids[0]);
    }
  }

  lemma HostIds(host: Value, inv: Inventory)
    ensures IdsOf(HostDevices(host, inv), inv, (d: Device) => host.Str? && host.str in d.addresses)
  {
    var has := (d: Device) => host.Str? && host.str in d.addresses;
    if host.Str? {
      IdsWhereHas(inv, (d: Device) => host.str in d.addresses, has);
    } else {
      IdsWhereHas(inv, d => false, has);
      NoIds(IdsWhere(inv.devices, d => false), inv, has);
    }
  }

  /** What the host language counts as not given. */
  predicate Falsy(v: Value) {
    v in {Null, Bool(false), Str(""), Arr([]), Obj(map[])} || (v.Number? && v.text in {"0", "0.0", "-0.0"})
  }

  lemma TruthyIff(v: Value)
    ensures Truthy(v) <==> !Falsy(v)
  {
  }

  /** Otherwise for the devices with the address of the host of that name; and otherwise for nothing. */
  lemma HostMeans(s: string, policy: Policy, inv: Inventory)
    requires inv.runtime.depth > 0 && IsName(s) && forall d :: d in inv.devices ==> !BelongsTo(d, s, inv)
    ensures var e := Expand(s, policy, inv);
            if "hosts" in policy && !policy["hosts"].Obj? then e == Expansion([], Raised)
            else if "hosts" in policy && s in policy["hosts"].fields && !Falsy(policy["hosts"].fields[s]) then
              var host := policy["hosts"].fields[s];
              && e.status == FullyEvaluated
              && IdsOf(e.ids, inv, (d: Device) => host.Str? && host.str in d.addresses)
            else e == Expansion([], UnresolvedSelector)
  {
    BeyondDepth(s, policy, inv);
    var owned := d => OwnedBy(d, inv.users, s);
    forall d ensures owned(d) == BelongsTo(d, s, inv) { OwnedIff(d, s, inv); }
    IdsWhereHas(inv, owned, d => BelongsTo(d, s, inv));
    hide OwnedBy, BelongsTo, IdsWhere, Truthy, Falsy;
    NoIds(IdsWhere(inv.devices, owned), inv, d => BelongsTo(d, s, inv));
    if "hosts" in policy && policy["hosts"].Obj? && s in policy["hosts"].fields {
      TruthyIff(policy["hosts"].fields[s]);
      HostIds(policy["hosts"].fields[s], inv);
    }
  }

  // ----- relationships

  /** The field of a rule under the first of two keys that it has. */
  function FirstOf(rule: Value, key: string, other: string): Value
    requires rule.Obj?
  {
    if key in rule.fields then rule.fields[key] else if other in rule.fields then rule.fields[other] else Arr([])
  }

  /** A list names the texts of its entries, a text its characters, and an object its keys. */
  predicate Names(field: Value, s: string, inv: Inventory) {
    || (field.Arr? && exists i :: 0 <= i < |field.items| && Reads(field.items[i], s, inv))
    || (field.Str? && |s| == 1 && s[0] in field.str)
    || (field.Obj? && s in field.fields)
  }

  lemma TextNames(t: string, s: string, inv: Inventory)
    ensures |s| == 1 && s[0] in t
            <==> exists i :: 0 <= i < |Iterated(Str(t))| && Text(Iterated(Str(t))[i], inv) == s
  {
    var chars := Iterated(Str(t));
    assert forall i :: 0 <= i < |t| ==> chars[i] == Str([t[i]]) && Text(chars[i], inv) == [t[i]];
    hide Iterated, Text;
    if |s| == 1 && s[0] in t {
      var i :| 0 <= i < |t| && t[i] == s[0];
      assert [t[i]] == s && Text(chars[i], inv) == s;
    }
  }

  lemma ObjectNames(fields: map<string, Value>, s: string, inv: Inventory)
    ensures s in fields
            <==> exists i :: 0 <= i < |Iterated(Obj(fields))| && Text(Iterated(Obj(fields))[i], inv) == s
  {
    var names, keys := Iterated(Obj(fields)), SortedKeys(fields.Keys);
    assert forall i :: 0 <= i < |keys| ==> names[i] == Str(keys[i]) && Text(names[i], inv) == keys[i];
    hide Iterated, Text;
    if s in fields {
      var i :| 0 <= i < |keys| && keys[i] == s;
      assert Text(names[i], inv) == s;
    }
    if i :| 0 <= i < |names| && Text(names[i], inv) == s {
      assert keys[i] in keys;
    }
  }

  lemma NamesIff(field: Value, s: string, inv: Inventory)
    ensures Names(field, s, inv) <==> exists i :: 0 <= i < |Iterated(field)| && Text(Iterated(field)[i], inv) == s
  {
    hide Text, Reads;
    match field
    case Arr(items) =>
      assert Iterated(field) == items;
      forall i | 0 <= i < |items| ensures Reads(items[i], s, inv) <==> Text(items[i], inv) == s {
        ReadsIff(items[i], s, inv);
      }
    case Str(t) =>
      TextNames(t, s, inv);
    case Obj(fields) => ObjectNames(fields, s, inv);
    case _ =>
  }

  /** The relationship of two selectors of a rule: who, where to, and under which of the rule's conditions. */
  ghost predicate Says(r: Relationship, rule: Value, s: string, t: string, policy: Policy, inv: Inventory)
    requires rule.Obj?
  {
    var (name, port) := SplitPort(t, inv.runtime.digit);
    var from, to := Expand(s, policy, inv), Expand(name, policy, inv);
    && r.source in from.ids && r.destination in to.ids
    && r.status == (if from.status != FullyEvaluated then from.status else to.status)
    && r.ports == (if "ip" in rule.fields then rule.fields["ip"] else Arr([Str(port)]))
    && r.protocol == (if "proto" in rule.fields then rule.fields["proto"] else Str("any"))
    && r.posture == (if "srcPosture" in rule.fields then rule.fields["srcPosture"] else Arr([]))
  }

  /** Some source and some destination of the rule say so. */
  ghost predicate SaysRule(r: Relationship, rule: Value, policy: Policy, inv: Inventory) {
    && rule.Obj?
    && exists s, t :: Names(FirstOf(rule, "src", "users"), s, inv) && Names(FirstOf(rule, "dst", "ports"), t, inv)
         && Says(r, rule, s, t, policy, inv)
  }

  lemma InLinkRow(
    r: Relationship, rule: Value, index: nat, source: string, to: seq<string>, port: string, status: Status)
    ensures r in LinkRow(rule, index, source, to, port, status)
            <==> r.destination in to && r == Link(rule, index, source, r.destination, port, status)
  {
    if r.destination in to && r == Link(rule, index, source, r.destination, port, status) {
      var j :| 0 <= j < |to| && to[j] == r.destination;
      assert LinkRow(rule, index, source, to, port, status)[j] == r;
    }
  }

  lemma {:induction false} InPairRows(
    r: Relationship, rule: Value, index: nat, from: seq<string>, to: seq<string>, port: string, status: Status)
    ensures r in PairRows(rule, index, from, to, port, status)
            <==> r.source in from && r.destination in to
                 && r == Link(rule, index, r.source, r.destination, port, status)
    decreases |from|
  {
    if from != [] {
      var n := |from| - 1;
      assert from == from[..n] + [from[n]];
      InPairRows(r, rule, index, from[..n], to, port, status);
      InLinkRow(r, rule, index, from[n], to, port, status);
      assert forall x :: x in from <==> x in from[..n] || x == from[n];
    }
  }

  lemma InSelectorRows(
    r: Relationship, rule: Value, index: nat, s: string, t: string, policy: Policy, inv: Inventory)
    requires rule.Obj?
    ensures r in SelectorRows(rule, index, Expand(s, policy, inv), t, policy, inv)
            <==> r.ruleIndex == index && Says(r, rule, s, t, policy, inv)
  {
    var (name, port) := SplitPort(t, inv.runtime.digit);
    var from, to := Expand(s, policy, inv), Expand(name, policy, inv);
    hide Expand, SplitPort;
    InPairRows(r, rule, index, from.ids, to.ids, port, Combined(from.status, to.status));
  }

  lemma {:induction false} InSourceRows(
    r: Relationship, rule: Value, index: nat, s: string, destinations: seq<Value>, policy: Policy, inv: Inventory)
    requires rule.Obj?
    ensures r in SourceRows(rule, index, Expand(s, policy, inv), destinations, policy, inv)
            <==> r.ruleIndex == index
                 && exists j :: 0 <= j < |destinations| && Says(r, rule, s, Text(destinations[j], inv), policy, inv)
    decreases |destinations|
  {
    hide Expand, Says, SelectorRows, Text;
    if destinations != [] {
      var n := |destinations| - 1;
      InSourceRows(r, rule, index, s, destinations[..n], policy, inv);
      InSelectorRows(r, rule, index, s, Text(destinations[n], inv), policy, inv);
      assert forall j :: 0 <= j < n ==> destinations[..n][j] == destinations[j];
    }
  }

  /** Some source of the first ones and some destination say so. */
  ghost predicate SaysSome(
    r: Relationship, rule: Value, sources: seq<Value>, destinations: seq<Value>, policy: Policy, inv: Inventory)
    requires rule.Obj?
  {
    exists i, j :: 0 <= i < |sources| && 0 <= j < |destinations|
      && Says(r, rule, Text(sources[i], inv), Text(destinations[j], inv), policy, inv)
  }

  lemma {:induction false} InRuleRows(
    r: Relationship, rule: Value, index: nat, sources: seq<Value>, destinations: seq<Value>, policy: Policy,
    inv: Inventory)
    requires rule.Obj?
    ensures r in RuleRows(rule, index, sources, destinations, policy, inv)
            <==> r.ruleIndex == index && SaysSome(r, rule, sources, destinations, policy, inv)
    decreases |sources|
  {
    hide Expand, Says, SourceRows, Text;
    if sources != [] {
      var n := |sources| - 1;
      InRuleRows(r, rule, index, sources[..n], destinations, policy, inv);
      InSourceRows(r, rule, index, Text(sources[n], inv), destinations, policy, inv);
      assert forall i :: 0 <= i < n ==> sources[..n][i] == sources[i];
    }
  }

  lemma FieldsAre(rule: Value)
    requires rule.Obj?
    ensures SourceField(rule) == FirstOf(rule, "src", "users")
    ensures DestinationField(rule) == FirstOf(rule, "dst", "ports")
  {
  }

  lemma SaysRuleIff(r: Relationship, rule: Value, policy: Policy, inv: Inventory)
    requires rule.Obj?
    ensures SaysSome(r, rule, Iterated(SourceField(rule)), Iterated(DestinationField(rule)), policy, inv)
            <==> SaysRule(r, rule, policy, inv)
  {
    FieldsAre(rule);
    var from, to := FirstOf(rule, "src", "users"), FirstOf(rule, "dst", "ports");
    hide Says, Text, Iterated, SourceField, DestinationField, FirstOf, Names;
    forall s: string
      ensures Names(from, s, inv) <==> exists i :: 0 <= i < |Iterated(from)| && Text(Iterated(from)[i], inv) == s
      ensures Names(to, s, inv) <==> exists i :: 0 <= i < |Iterated(to)| && Text(Iterated(to)[i], inv) == s
    {
      NamesIff(from, s, inv);
      NamesIff(to, s, inv);
    }
  }

  lemma {:induction false} InPolicyRows(r: Relationship, rules: seq<Value>, policy: Policy, inv: Inventory)
    requires forall i :: 0 <= i < |rules| ==> rules[i].Obj?
    ensures r in PolicyRows(rules, policy, inv)
            <==> r.ruleIndex < |rules| && SaysRule(r, rules[r.ruleIndex], policy, inv)
    decreases |rules|
  {
    hide SaysRule, RuleRows, SourceField, DestinationField, Iterated;
    if rules != [] {
      var n := |rules| - 1;
      InPolicyRows(r, rules[..n], policy, inv);
      InRuleRows(r, rules[n], n, Iterated(SourceField(rules[n])), Iterated(DestinationField(rules[n])), policy, inv);
      hide SaysSome;
      SaysRuleIff(r, rules[n], policy, inv);
    }
  }

  /** The rules of a section that is a list. */
  function RulesIn(policy: Policy, section: string): seq<Value> {
    if section in policy && policy[section].Arr? then policy[section].items else []
  }

  /** Rules are numbered through, the grants first. */
  predicate Numbered(rule: Value, i: nat, policy: Policy) {
    var grants, acls := RulesIn(policy, "grants"), RulesIn(policy, "acls");
    if i < |grants| then rule == grants[i] else i - |grants| < |acls| && rule == acls[i - |grants|]
  }

  lemma EntriesAreTexts(v: Value)
    requires v.Str? || v.Obj?
    ensures forall entry :: entry in Iterated(v) ==> entry.Str?
    ensures Iterated(v) == [] <==> v == Str("") || v == Obj(map[])
    ensures (forall entry :: entry in Iterated(v) ==> entry.Obj?) ==> Iterated(v) == []
  {
    if Iterated(v) != [] {
      assert Iterated(v)[0] in Iterated(v) && Iterated(v)[0].Str?;
    }
    if v.Obj? {
      var keys := SortedKeys(v.fields.Keys);
      if k :| k in v.fields {
        assert k in keys;
      }
      if keys != [] {
        assert keys[0] in keys;
      }
    }
  }

  lemma SectionIs(policy: Policy, section: string)
    requires forall rule :: rule in Section(policy, section) ==> rule.Obj?
    ensures Section(policy, section) == RulesIn(policy, section)
  {
    if section in policy && (policy[section].Str? || policy[section].Obj?) {
      EntriesAreTexts(policy[section]);
    }
  }

  lemma RulesAre(policy: Policy, inv: Inventory)
    requires forall rule :: rule in Rules(policy) ==> rule.Obj?
    ensures Rules(policy) == RulesIn(policy, "grants") + RulesIn(policy, "acls")
  {
    hide Section, RulesIn;
    forall rule | rule in Section(policy, "grants") || rule in Section(policy, "acls") ensures rule.Obj? {
      assert rule in Rules(policy);
    }
    SectionIs(policy, "grants");
    SectionIs(policy, "acls");
  }

  /**
   * The listed relationships are exactly those that some source and some destination of the rule with their number
   * say: between devices that these two stand for, with the status of the first that is not fully evaluated, and the
   * rule's ports, protocol and posture.
   */
  lemma RelationshipsAre(r: Relationship, policy: Policy, inv: Inventory)
    requires Evaluate(policy, inv).Some?
    ensures r in Evaluate(policy, inv).value
            <==> exists rule :: Numbered(rule, r.ruleIndex, policy) && SaysRule(r, rule, policy, inv)
  {
    hide SaysRule, PolicyRows, Iterated, SourceField, DestinationField, Listable, Selectors;
    var rules := Rules(policy);
    assert forall rule :: rule in rules ==> rule.Obj? by {
      assert forall rule :: rule in rules ==> !RuleRaises(rule, policy, inv);
    }
    InPolicyRows(r, rules, policy, inv);
    RulesAre(policy, inv);
    hide RulesIn;
    if r.ruleIndex < |rules| {
      assert Numbered(rules[r.ruleIndex], r.ruleIndex, policy);
    }
  }

  // ----- errors

  predicate Iterable(v: Value) {
    v.Arr? || v.Str? || v.Obj?
  }

  ghost predicate EndsInError(s: string, policy: Policy, inv: Inventory) {
    Expand(s, policy, inv).status in {Raised, TooDeep}
  }

  /** Evaluating one rule ends in an error; its destinations are looked at only if it names a source. */
  ghost predicate ErrorIn(rule: Value, policy: Policy, inv: Inventory) {
    || !rule.Obj?
    || !Iterable(FirstOf(rule, "src", "users"))
    || exists s :: Names(FirstOf(rule, "src", "users"), s, inv) &&
         (|| EndsInError(s, policy, inv)
          || !Iterable(FirstOf(rule, "dst", "ports"))
          || exists t :: Names(FirstOf(rule, "dst", "ports"), t, inv)
               && EndsInError(SplitPort(t, inv.runtime.digit).0, policy, inv))
  }

  lemma SelectorsAre(field: Value, s: string, inv: Inventory)
    ensures Names(field, s, inv) <==> s in Selectors(field, inv)
  {
    NamesIff(field, s, inv);
    hide Iterated, Text, Names;
    if s in Selectors(field, inv) {
      var v :| v in Iterated(field) && Text(v, inv) == s;
      var i :| 0 <= i < |Iterated(field)| && Iterated(field)[i] == v;
    }
  }

  lemma ErrorInIff(rule: Value, policy: Policy, inv: Inventory)
    ensures RuleRaises(rule, policy, inv) <==> ErrorIn(rule, policy, inv)
  {
    hide Expand, SplitPort, Iterated, Text, Names, Selectors;
    forall field, s: string { SelectorsAre(field, s, inv); }
    if rule.Obj? {
      FieldsAre(rule);
      hide SourceField, DestinationField, FirstOf;
    }
  }

  /** The section can hold no rules: it cannot be iterated over, or only over texts, of which it has some. */
  predicate HoldsNoRules(policy: Policy, section: string) {
    section in policy
    && match policy[section]
       case Arr(_) => false
       case Str(t) => t != ""
       case Obj(fields) => fields != map[]
       case _ => true
  }

  lemma NoRulesRaise(policy: Policy, section: string, inv: Inventory)
    ensures HoldsNoRules(policy, section) ==>
              SectionRaises(policy, section) || exists rule :: rule in Section(policy, section) && !rule.Obj?
    ensures !HoldsNoRules(policy, section) ==>
              !SectionRaises(policy, section) && Section(policy, section) == RulesIn(policy, section)
  {
    if section in policy && (policy[section].Str? || policy[section].Obj?) {
      EntriesAreTexts(policy[section]);
      hide Iterated;
      if Iterated(policy[section]) != [] {
        assert Section(policy, section)[0] in Section(policy, section);
      }
    }
  }

  lemma NoObjectRaises(rule: Value, policy: Policy, inv: Inventory)
    requires !rule.Obj?
    ensures RuleRaises(rule, policy, inv)
  {
  }

  /** The evaluation ends in an error iff a section holds something else than rules, or evaluating some rule does. */
  lemma ErrorIff(policy: Policy, inv: Inventory)
    ensures Evaluate(policy, inv).None?
            <==> || HoldsNoRules(policy, "grants") || HoldsNoRules(policy, "acls")
                 || exists rule :: rule in RulesIn(policy, "grants") + RulesIn(policy, "acls")
                                   && ErrorIn(rule, policy, inv)
  {
    NoRulesRaise(policy, "grants", inv);
    NoRulesRaise(policy, "acls", inv);
    hide ErrorIn, RuleRaises, Section, SectionRaises, HoldsNoRules, RulesIn, PolicyRows;
    forall rule ensures RuleRaises(rule, policy, inv) <==> ErrorIn(rule, policy, inv) {
      ErrorInIff(rule, policy, inv);
    }
    forall rule | rule in Section(policy, "grants") || rule in Section(policy, "acls") ensures rule in Rules(policy) {
    }
    forall rule: Value | !rule.Obj? ensures RuleRaises(rule, policy, inv) {
      NoObjectRaises(rule, policy, inv);
    }
  }
}
