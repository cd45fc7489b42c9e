/** The relationships that the rules of a policy allow. */
module PolicyEvaluation {
  import opened Common
  import opened Json
  import opened PolicyEngine

  datatype Relationship = Relationship(
    source: string, destination: string, ports: Value, protocol: Value, status: Status, posture: Value, ruleIndex: nat)

  // ----- destinations with a port

  /** Digits, possibly with dashes between them. */
  predicate PortText(s: string, digit: char -> bool) {
    (exists i :: 0 <= i < |s| && digit(s[i]) && s[i] != '-') && forall i :: 0 <= i < |s| ==> digit(s[i]) || s[i] == '-'
  }

  function LastColon(s: string): (r: Option<nat>)
    ensures r.Some? ==> r.value < |s| && s[r.value] == ':' && forall i :: r.value < i < |s| ==> s[i] != ':'
    ensures r.None? ==> forall i :: 0 <= i < |s| ==> s[i] != ':'
  {
    if s == "" then None
    else if s[|s| - 1] == ':' then Some(|s| - 1)
    else LastColon(s[..|s| - 1])
  }

  /** Splits off a trailing port; without one the whole text is the selector and the port is a wildcard. */
  function SplitPort(selector: string, digit: char -> bool): (string, string) {
    var colon := LastColon(selector);
    if colon.Some? && colon.value > 0 && PortText(selector[colon.value + 1..], digit)
    then (selector[..colon.value], selector[colon.value + 1..])
    else (selector, "*")
  }

  function WithoutDashes(s: string): string {
    if s == "" then "" else WithoutDashes(s[..|s| - 1]) + if s[|s| - 1] == '-' then "" else [s[|s| - 1]]
  }

  lemma {:induction false} DashesAside(s: string, c: char)
    ensures c in WithoutDashes(s) <==> c in s && c != '-'
    decreases |s|
  {
    if s != "" {
      DashesAside(s[..|s| - 1], c);
      assert s == s[..|s| - 1] + [s[|s| - 1]];
    }
  }

  /** A colon before which something stands, and after which only digits are left once dashes are taken out. */
  predicate EndsInPort(s: string, colon: nat, digit: char -> bool) {
    && 0 < colon < |s| && s[colon] == ':'
    && WithoutDashes(s[colon + 1..]) != "" && forall c :: c in WithoutDashes(s[colon + 1..]) ==> digit(c)
  }

  lemma PortIff(s: string, digit: char -> bool)
    ensures PortText(s, digit) <==> WithoutDashes(s) != "" && forall c :: c in WithoutDashes(s) ==> digit(c)
  {
    forall c ensures c in WithoutDashes(s) <==> c in s && c != '-' {
      DashesAside(s, c);
    }
    if WithoutDashes(s) != "" {
      assert WithoutDashes(s)[0] in WithoutDashes(s);
    }
  }

  /** A destination is split iff it ends in a port, and then it is split there; otherwise it is one selector. */
  lemma SplitPortIff(s: string, digit: char -> bool)
    requires !digit(':')
    ensures forall i: nat :: EndsInPort(s, i, digit) ==> SplitPort(s, digit) == (s[..i], s[i + 1..])
    ensures (forall i: nat :: !EndsInPort(s, i, digit)) ==> SplitPort(s, digit) == (s, "*")
  {
    forall i: nat | i < |s| && s[i] == ':'
      ensures EndsInPort(s, i, digit) <==> 0 < i && PortText(s[i + 1..], digit)
    {
      PortIff(s[i + 1..], digit);
    }
    hide EndsInPort;
    forall i: nat | EndsInPort(s, i, digit) ensures SplitPort(s, digit) == (s[..i], s[i + 1..]) {
      assert forall j :: i < j < |s| ==> s[i + 1..][j - i - 1] == s[j];
    }
    var colon := LastColon(s);
    assert colon.Some? ==> EndsInPort(s, colon.value, digit)
                           || !(colon.value > 0 && PortText(s[colon.value + 1..], digit));
  }

  /** A wildcard after the last colon is no port: the whole text is the selector. */
  lemma StarIsNoPort(s: string, digit: char -> bool)
    requires !digit('*')
    ensures SplitPort(s + ":*", digit) == (s + ":*", "*")
  {
    var t := s + ":*";
    assert t[|s|] == ':' && t[|s| + 1] == '*';
    assert LastColon(t) == Some(|s|);
    assert t[|s| + 1..][0] == '*';
  }

  /** So a destination that asks for all ports of all devices reaches nothing, unless a user or a host is called so. */
  lemma StarsAreUnresolved(policy: Policy, inv: Inventory)
    requires !inv.runtime.digit('*') && inv.runtime.depth > 0
    requires !NoFields(policy, "hosts") && "*:*" !in FieldsOf(policy, "hosts")
    requires IdsWhere(inv.devices, d => OwnedBy(d, inv.users, "*:*")) == []
    ensures SplitPort("*:*", inv.runtime.digit) == ("*:*", "*")
    ensures Expand("*:*", policy, inv) == Expansion([], UnresolvedSelector)
  {
    StarIsNoPort("*", inv.runtime.digit);
    assert "*" + ":*" == "*:*";
  }

  // ----- relationships

  function Section(policy: Policy, section: string): seq<Value> {
    if section in policy then Iterated(policy[section]) else []
  }

  function Rules(policy: Policy): seq<Value> {
    Section(policy, "grants") + Section(policy, "acls")
  }

  function Combined(source: Status, destination: Status): Status {
    if source != FullyEvaluated then source else destination
  }

  function Link(
    rule: Value, index: nat, source: string, destination: string, port: string, status: Status): Relationship
  {
    Relationship(source, destination, FieldOr(rule, "ip", Arr([Str(port)])), FieldOr(rule, "proto", Str("any")),
                 status, FieldOr(rule, "srcPosture", Arr([])), index)
  }

  function LinkRow(
    rule: Value, index: nat, source: string, to: seq<string>, port: string, status: Status): seq<Relationship>
  {
    seq(|to|, j requires 0 <= j < |to| => Link(rule, index, source, to[j], port, status))
  }

  /** All pairs of one source selector's and one destination selector's devices. */
  function PairRows(
    rule: Value, index: nat, from: seq<string>, to: seq<string>, port: string, status: Status): seq<Relationship>
  {
    if from == [] then []
    else
      var n := |from| - 1;
      PairRows(rule, index, from[..n], to, port, status) + LinkRow(rule, index, from[n], to, port, status)
  }

  function SelectorRows(
    rule: Value, index: nat, from: Expansion, destination: string, policy: Policy, inv: Inventory): seq<Relationship>
  {
    var (name, port) := SplitPort(destination, inv.runtime.digit);
    var to := Expand(name, policy, inv);
    PairRows(rule, index, from.ids, to.ids, port, Combined(from.status, to.status))
  }

  function SourceRows(
    rule: Value, index: nat, from: Expansion, destinations: seq<Value>, policy: Policy, inv: Inventory)
    : seq<Relationship>
  {
    if destinations == [] then []
    else
      var n := |destinations| - 1;
      SourceRows(rule, index, from, destinations[..n], policy, inv)
      + SelectorRows(rule, index, from, Text(destinations[n], inv), policy, inv)
  }

  function RuleRows(
    rule: Value, index: nat, sources: seq<Value>, destinations: seq<Value>, policy: Policy, inv: Inventory)
    : seq<Relationship>
  {
    if sources == [] then []
    else
      var n := |sources| - 1;
      RuleRows(rule, index, sources[..n], destinations, policy, inv)
      + SourceRows(rule, index, Expand(Text(sources[n], inv), policy, inv), destinations, policy, inv)
  }

  function PolicyRows(rules: seq<Value>, policy: Policy, inv: Inventory): seq<Relationship>
  {
    if rules == [] then []
    else
      var n := |rules| - 1;
      PolicyRows(rules[..n], policy, inv)
      + RuleRows(rules[n], n, Iterated(SourceField(rules[n])), Iterated(DestinationField(rules[n])), policy, inv)
  }

  // ----- when the evaluation ends in an error

  /** The texts of the selectors of a field. */
  function Selectors(field: Value, inv: Inventory): set<string> {
    set v | v in Iterated(field) :: Text(v, inv)
  }

  predicate DestinationRaises(destination: string, policy: Policy, inv: Inventory)
  {
    Fails(Expand(SplitPort(destination, inv.runtime.digit).0, policy, inv).status)
  }

  predicate DestinationsRaise(field: Value, policy: Policy, inv: Inventory)
  {
    !Listable(field) || exists d :: d in Selectors(field, inv) && DestinationRaises(d, policy, inv)
  }

  /** Destinations are looked at only when there is a source. */
  predicate SourceRaises(source: string, destinations: Value, policy: Policy, inv: Inventory)
  {
    Fails(Expand(source, policy, inv).status) || DestinationsRaise(destinations, policy, inv)
  }

  predicate RuleRaises(rule: Value, policy: Policy, inv: Inventory)
  {
    || !rule.Obj? || !Listable(SourceField(rule))
    || exists s :: s in Selectors(SourceField(rule), inv) && SourceRaises(s, DestinationField(rule), policy, inv)
  }

  predicate SectionRaises(policy: Policy, section: string) {
    section in policy && !Listable(policy[section])
  }

  predicate Raises(policy: Policy, inv: Inventory)
  {
    || SectionRaises(policy, "grants") || SectionRaises(policy, "acls")
    || exists rule :: rule in Rules(policy) && RuleRaises(rule, policy, inv)
  }

  /** The relationships of a policy; `None` when the evaluation ends in an error. */
  function Evaluate(policy: Policy, inv: Inventory): Option<seq<Relationship>>
  {
    if Raises(policy, inv) then None else Some(PolicyRows(Rules(policy), policy, inv))
  }

  // ----- the program's nested loops, from the pairs outwards

  lemma LinkRowNext(rule: Value, index: nat, source: string, to: seq<string>, j: nat, port: string, status: Status)
    requires j < |to|
    ensures LinkRow(rule, index, source, to[..j + 1], port, status)
            == LinkRow(rule, index, source, to[..j], port, status) + [Link(rule, index, source, to[j], port, status)]
  {
  }

  method PairDevices(rule: Value, index: nat, from: Expansion, to: Expansion, port: string)
    returns (rows: seq<Relationship>)
    ensures rows == PairRows(rule, index, from.ids, to.ids, port, Combined(from.status, to.status))
  {
    var status :=
      if from.status == FullyEvaluated && to.status == FullyEvaluated then FullyEvaluated
      else if from.status != FullyEvaluated then from.status
      else to.status;
    hide Link;
    rows := [];
    for i := 0 to |from.ids|
      invariant rows == PairRows(rule, index, from.ids[..i], to.ids, port, status)
    {
      ghost var before := rows;
      assert from.ids[..i + 1][..i] == from.ids[..i];
      for j := 0 to |to.ids|
        invariant rows == before + LinkRow(rule, index, from.ids[i], to.ids[..j], port, status)
      {
        LinkRowNext(rule, index, from.ids[i], to.ids, j, port, status);
        rows := rows + [Link(rule, index, from.ids[i], to.ids[j], port, status)];
      }
      assert to.ids[..|to.ids|] == to.ids;
    }
    assert from.ids[..|from.ids|] == from.ids;
  }

  lemma TextOf(field: Value, i: nat, inv: Inventory)
    requires i < |Iterated(field)|
    ensures Text(Iterated(field)[i], inv) in Selectors(field, inv)
  {
  }

  lemma SourceRowsNext(
    rule: Value, index: nat, from: Expansion, destinations: seq<Value>, d: nat, policy: Policy, inv: Inventory)
    requires d < |destinations|
    ensures SourceRows(rule, index, from, destinations[..d + 1], policy, inv)
            == SourceRows(rule, index, from, destinations[..d], policy, inv)
               + SelectorRows(rule, index, from, Text(destinations[d], inv), policy, inv)
  {
    assert destinations[..d + 1][..d] == destinations[..d];
  }

  lemma SourceRowsOfNone(rule: Value, index: nat, from: Expansion, policy: Policy, inv: Inventory)
    ensures SourceRows(rule, index, from, [], policy, inv) == []
  {
  }

  lemma TextAt(field: Value, t: string, inv: Inventory) returns (i: nat)
    requires t in Selectors(field, inv)
    ensures i < |Iterated(field)| && Text(Iterated(field)[i], inv) == t
  {
    var v :| v in Iterated(field) && Text(v, inv) == t;
    i :| i < |Iterated(field)| && Iterated(field)[i] == v;
  }

  method EvaluateSource(rule: Value, index: nat, from: Expansion, field: Value, policy: Policy, inv: Inventory)
    returns (rows: Option<seq<Relationship>>)
    ensures rows == if DestinationsRaise(field, policy, inv) then None
                    else Some(SourceRows(rule, index, from, Iterated(field), policy, inv))
  {
    hide ExpandWithin, Iterated, Selectors, SourceRows;
    if !Listable(field) {
      return None;
    }
    var destinations, found := Iterated(field), [];
    SourceRowsOfNone(rule, index, from, policy, inv);
    assert destinations[..0] == [];
    for d := 0 to |destinations|
      invariant found == SourceRows(rule, index, from, destinations[..d], policy, inv)
      invariant forall i :: 0 <= i < d ==> !DestinationRaises(Text(destinations[i], inv), policy, inv)
    {
      SourceRowsNext(rule, index, from, destinations, d, policy, inv);
      TextOf(field, d, inv);
      var (name, port) := SplitPort(Text(destinations[d], inv), inv.runtime.digit);
      var to := ExpandSelector(inv.runtime.depth, name, policy, inv);
      if Fails(to.status) {
        return None;
      }
      var more := PairDevices(rule, index, from, to, port);
      found := found + more;
    }
    assert destinations[..|destinations|] == destinations;
    forall t | t in Selectors(field, inv) ensures !DestinationRaises(t, policy, inv) {
      var i := TextAt(field, t, inv);
    }
    rows := Some(found);
  }

  lemma RuleRowsOfNone(rule: Value, index: nat, destinations: seq<Value>, policy: Policy, inv: Inventory)
    ensures RuleRows(rule, index, [], destinations, policy, inv) == []
  {
  }

  lemma RuleRowsNext(
    rule: Value, index: nat, sources: seq<Value>, s: nat, destinations: seq<Value>, policy: Policy, inv: Inventory)
    requires s < |sources|
    ensures RuleRows(rule, index, sources[..s + 1], destinations, policy, inv)
            == RuleRows(rule, index, sources[..s], destinations, policy, inv)
               + SourceRows(rule, index, Expand(Text(sources[s], inv), policy, inv), destinations, policy, inv)
  {
    hide ExpandWithin, SourceRows;
    assert sources[..s + 1][..s] == sources[..s];
  }

  method EvaluateRule(rule: Value, index: nat, policy: Policy, inv: Inventory) returns (rows: Option<seq<Relationship>>)
    ensures rows == if RuleRaises(rule, policy, inv) then None
                    else Some(RuleRows(rule, index, Iterated(SourceField(rule)), Iterated(DestinationField(rule)),
                                       policy, inv))
  {
    hide ExpandWithin, Iterated, Selectors, SourceRows, RuleRows, DestinationRaises;
    if !rule.Obj? || !Listable(SourceField(rule)) {
      return None;
    }
    var source, destination := SourceField(rule), DestinationField(rule);
    hide SourceField, DestinationField;
    var sources, found := Iterated(source), [];
    RuleRowsOfNone(rule, index, Iterated(destination), policy, inv);
    assert sources[..0] == [];
    for s := 0 to |sources|
      invariant found == RuleRows(rule, index, sources[..s], Iterated(destination), policy, inv)
      invariant forall i :: 0 <= i < s ==> !SourceRaises(Text(sources[i], inv), destination, policy, inv)
    {
      RuleRowsNext(rule, index, sources, s, Iterated(destination), policy, inv);
      TextOf(source, s, inv);
      var from := ExpandSelector(inv.runtime.depth, Text(sources[s], inv), policy, inv);
      if Fails(from.status) {
        return None;
      }
      var more := EvaluateSource(rule, index, from, destination, policy, inv);
      if more.None? {
        return None;
      }
      found := found + more.value;
    }
    assert sources[..|sources|] == sources;
    forall t | t in Selectors(source, inv) ensures !SourceRaises(t, destination, policy, inv) {
      var i := TextAt(source, t, inv);
    }
    rows := Some(found);
  }

  lemma PolicyRowsNext(rules: seq<Value>, i: nat, policy: Policy, inv: Inventory)
    requires i < |rules|
    ensures PolicyRows(rules[..i + 1], policy, inv)
            == PolicyRows(rules[..i], policy, inv)
               + RuleRows(rules[i], i, Iterated(SourceField(rules[i])), Iterated(DestinationField(rules[i])),
                          policy, inv)
  {
    hide RuleRows, Iterated, SourceField, DestinationField;
    assert rules[..i + 1][..i] == rules[..i];
  }

  lemma PolicyRowsOfNone(policy: Policy, inv: Inventory)
    ensures PolicyRows([], policy, inv) == []
  {
  }

  lemma SectionsRaise(policy: Policy, inv: Inventory)
    requires SectionRaises(policy, "grants") || SectionRaises(policy, "acls")
    ensures Evaluate(policy, inv) == None
  {
  }

  lemma RulesDecide(policy: Policy, inv: Inventory)
    requires !SectionRaises(policy, "grants") && !SectionRaises(policy, "acls")
    ensures forall i :: 0 <= i < |Rules(policy)| && RuleRaises(Rules(policy)[i], policy, inv)
              ==> Evaluate(policy, inv) == None
    ensures (forall i :: 0 <= i < |Rules(policy)| ==> !RuleRaises(Rules(policy)[i], policy, inv))
            ==> Evaluate(policy, inv) == Some(PolicyRows(Rules(policy), policy, inv))
  {
    hide SectionRaises, Rules, RuleRaises, PolicyRows;
    forall i | 0 <= i < |Rules(policy)| && RuleRaises(Rules(policy)[i], policy, inv)
      ensures Evaluate(policy, inv) == None
    {
      assert Rules(policy)[i] in Rules(policy);
    }
  }

  method EvaluatePolicy(policy: Policy, inv: Inventory) returns (relationships: Option<seq<Relationship>>)
    ensures relationships == Evaluate(policy, inv)
  {
    hide SectionRaises, Rules, RuleRows, RuleRaises, PolicyRows, Evaluate;
    if SectionRaises(policy, "grants") || SectionRaises(policy, "acls") {
      SectionsRaise(policy, inv);
      return None;
    }
    var rules, found := Rules(policy), [];
    RulesDecide(policy, inv);
    PolicyRowsOfNone(policy, inv);
    assert rules[..0] == [];
    for index := 0 to |rules|
      invariant found == PolicyRows(rules[..index], policy, inv)
      invariant forall i :: 0 <= i < index ==> !RuleRaises(rules[i], policy, inv)
    {
      PolicyRowsNext(rules, index, policy, inv);
      var rows := EvaluateRule(rules[index], index, policy, inv);
      if rows.None? {
        return None;
      }
      found := found + rows.value;
    }
    assert rules[..|rules|] == rules;
    relationships := Some(found);
  }
}
