/** The proposed policy means the same as the original. */
module PolicyMeaning {
  import opened Json
  import opened Ordering
  import opened PolicyReview
  import opened PolicyEngine
  import opened PolicyEvaluation

  // ----- selectors whose text survives cleaning

  /** Cleaning an entry does not change the selector that it stands for; scalars are never changed. */
  predicate KeepsTexts(items: seq<Value>, inv: Inventory) {
    forall v :: v in items ==> Text(Clean(v), inv) == Text(v, inv)
  }

  /** No selector of the policy is a list or an object whose text changes when repeated entries are removed from it. */
  ghost predicate SelectorsKeepTexts(policy: Policy, inv: Inventory) {
    && (forall g :: IsGroup(policy, g) ==> KeepsTexts(Members(policy, g), inv))
    && (forall rule :: rule in Rules(policy) ==>
          KeepsTexts(Iterated(SourceField(rule)), inv) && KeepsTexts(Iterated(DestinationField(rule)), inv))
  }

  predicate Scalar(v: Value) {
    !v.Arr? && !v.Obj?
  }

  /** Lists of scalars keep their texts, whatever the host language makes of other values. */
  lemma ScalarsKeepTexts(items: seq<Value>, inv: Inventory)
    requires forall v :: v in items ==> Scalar(v)
    ensures KeepsTexts(items, inv)
  {
  }

  /** Iterating over a cleaned value yields the cleaned entries. */
  lemma IteratedClean(field: Value, v: Value)
    ensures Listable(Clean(field)) == Listable(field)
    ensures v in Iterated(Clean(field)) <==> exists i :: 0 <= i < |Iterated(field)| && v == Clean(Iterated(field)[i])
  {
    var items := Iterated(field);
    if field.Arr? {
      CleanItemsMembers(field.items);
      assert Iterated(Clean(field)) == CleanItems(field.items);
    } else {
      assert field.Obj? ==> Clean(field).fields.Keys == field.fields.Keys;
      assert Iterated(Clean(field)) == items;
      assert forall i :: 0 <= i < |items| ==> Clean(items[i]) == items[i];
    }
  }

  lemma SelectorsClean(field: Value, inv: Inventory)
    requires KeepsTexts(Iterated(field), inv)
    ensures Selectors(Clean(field), inv) == Selectors(field, inv)
  {
    hide Iterated, Clean, Text;
    forall t ensures t in Selectors(Clean(field), inv) <==> t in Selectors(field, inv) {
      if t in Selectors(Clean(field), inv) {
        var v :| v in Iterated(Clean(field)) && Text(v, inv) == t;
        IteratedClean(field, v);
        var i :| 0 <= i < |Iterated(field)| && v == Clean(Iterated(field)[i]);
        assert Iterated(field)[i] in Iterated(field);
      }
      if t in Selectors(field, inv) {
        var i := TextAt(field, t, inv);
        assert Iterated(field)[i] in Iterated(field);
        IteratedClean(field, Clean(Iterated(field)[i]));
      }
    }
  }

  // ----- groups

  function Looked(e: Value -> Expansion, items: seq<Value>): seq<Expansion> {
    seq(|items|, i requires 0 <= i < |items| => e(items[i]))
  }

  /** When every part is fully evaluated the join holds each part's ids. */
  lemma FullJoin(parts: seq<Expansion>, i: nat)
    requires Joined(parts).status == FullyEvaluated && i < |parts|
    ensures parts[i].status == FullyEvaluated
    ensures forall id :: id in parts[i].ids ==> id in Joined(parts).ids
  {
    hide Joined, Reached;
    JoinedStatus(parts);
    assert Reached(parts) == |parts|;
    forall id | id in parts[i].ids ensures id in Joined(parts).ids {
      JoinedIds(parts, id);
    }
  }

  lemma JoinedNext(parts: seq<Expansion>, last: Expansion)
    ensures Joined(parts + [last]) == if Joined(parts).status != FullyEvaluated then Joined(parts)
            else Expansion(Joined(parts).ids + last.ids, last.status)
  {
    assert (parts + [last])[..|parts|] == parts;
  }

  ghost predicate Alike(a: Expansion, b: Expansion) {
    a.status == b.status && forall id :: id in a.ids <==> id in b.ids
  }

  lemma LookedNext(e: Value -> Expansion, items: seq<Value>, v: Value)
    ensures Looked(e, items + [v]) == Looked(e, items) + [e(v)]
  {
  }

  lemma CleanNext(items: seq<Value>, v: Value)
    ensures CleanItems(items + [v])
            == if Clean(v) in CleanItems(items) then CleanItems(items) else CleanItems(items) + [Clean(v)]
  {
    assert (items + [v])[..|items|] == items;
  }

  /** Joining a member again that is already there adds nothing. */
  lemma RepeatJoins(e: Value -> Expansion, items: seq<Value>, c: Value)
    requires c in CleanItems(items) && Alike(Joined(Looked(e, items)), Joined(Looked(e, CleanItems(items))))
    ensures Joined(Looked(e, items)).status == FullyEvaluated ==>
              e(c).status == FullyEvaluated && forall id :: id in e(c).ids ==> id in Joined(Looked(e, items)).ids
  {
    hide Joined;
    if Joined(Looked(e, items)).status == FullyEvaluated {
      var i :| 0 <= i < |CleanItems(items)| && CleanItems(items)[i] == c;
      FullJoin(Looked(e, CleanItems(items)), i);
    }
  }

  /** Removing repeated members changes neither the status nor the set of ids, early exit included. */
  lemma {:induction false} JoinedClean(e: Value -> Expansion, items: seq<Value>)
    requires forall v :: v in items ==> e(Clean(v)) == e(v)
    ensures Alike(Joined(Looked(e, items)), Joined(Looked(e, CleanItems(items))))
    decreases |items|
  {
    if items == [] {
      assert CleanItems(items) == [];
    } else {
      var v, before := items[|items| - 1], items[..|items| - 1];
      assert items == before + [v] && v in items;
      JoinedClean(e, before);
      hide Joined, CleanItems, Looked, Clean;
      CleanNext(before, v);
      LookedNext(e, before, v);
      JoinedNext(Looked(e, before), e(v));
      if Clean(v) in CleanItems(before) {
        RepeatJoins(e, before, Clean(v));
      } else {
        LookedNext(e, CleanItems(before), Clean(v));
        JoinedNext(Looked(e, CleanItems(before)), e(Clean(v)));
      }
    }
  }

  // ----- the sections of the proposed policy

  lemma CandidateSection(policy: Policy, section: string)
    requires section in SUPPORTED
    ensures section in Candidate(policy) <==> section in policy
    ensures section in policy ==> Candidate(policy)[section] == Clean(policy[section])
  {
  }

  lemma CandidateFields(policy: Policy, section: string)
    requires section in SUPPORTED
    ensures NoFields(Candidate(policy), section) <==> NoFields(policy, section)
    ensures var before, after := FieldsOf(policy, section), FieldsOf(Candidate(policy), section);
            after.Keys == before.Keys && forall k :: k in before ==> after[k] == Clean(before[k])
  {
    CandidateSection(policy, section);
  }

  lemma CandidateGroups(policy: Policy, g: string)
    ensures IsGroup(Candidate(policy), g) <==> IsGroup(policy, g)
    ensures IsGroup(policy, g) ==> Members(Candidate(policy), g) == CleanItems(Members(policy, g))
  {
    CandidateFields(policy, "groups");
    if g in FieldsOf(policy, "groups") {
      var v := FieldsOf(policy, "groups")[g];
      assert Clean(v).Arr? <==> v.Arr?;
    }
  }

  lemma CleanMember(items: seq<Value>, inv: Inventory, i: nat) returns (j: nat)
    requires i < |CleanItems(items)| && KeepsTexts(items, inv)
    ensures j < |items| && CleanItems(items)[i] == Clean(items[j])
    ensures Text(CleanItems(items)[i], inv) == Text(items[j], inv)
  {
    CleanItemsMembers(items);
    assert CleanItems(items)[i] in CleanItems(items);
    j :| j < |items| && Clean(items[j]) == CleanItems(items)[i];
    assert items[j] in items;
  }

  // ----- expanding under the proposed policy

  lemma TruthySame(v: Value)
    ensures Truthy(Clean(v)) == Truthy(v)
  {
    match v
    case Arr(items) =>
      if items != [] {
        CleanItemsMembers(items);
        assert Clean(items[0]) in CleanItems(items);
      }
    case Obj(fields) =>
      if fields != map[] {
        var k :| k in fields;
        assert k in Clean(v).fields;
      }
    case _ =>
  }

  lemma PlainSame(selector: string, policy: Policy, inv: Inventory)
    ensures ExpandPlain(selector, Candidate(policy), inv) == ExpandPlain(selector, policy, inv)
  {
    var hosts, cleaned := FieldsOf(policy, "hosts"), FieldsOf(Candidate(policy), "hosts");
    CandidateFields(policy, "hosts");
    CandidateFields(policy, "groups");
    if selector in hosts {
      TruthySame(hosts[selector]);
      assert HostDevices(Clean(hosts[selector]), inv) == HostDevices(hosts[selector], inv);
    }
    hide Candidate;
  }

  /** The expansion of an entry of a list. */
  function ExpandEntry(depth: nat, v: Value, policy: Policy, inv: Inventory): Expansion {
    ExpandWithin(depth, Text(v, inv), policy, inv)
  }

  lemma GroupIsJoin(depth: nat, group: string, policy: Policy, inv: Inventory)
    requires IsGroup(policy, group)
    ensures var all := Joined(Looked(v => ExpandEntry(depth, v, policy, inv), Members(policy, group)));
            ExpandWithin(depth + 1, group, policy, inv) == Expansion(SortedUnique(all.ids), all.status)
  {
    ExpandGroup(depth, group, policy, inv);
    assert MemberExpansions(depth, group, policy, inv)
        == Looked(v => ExpandEntry(depth, v, policy, inv), Members(policy, group));
    hide ExpandWithin, MemberExpansions, Joined;
  }

  /** Groups whose members expand alike expand to the same. */
  lemma GroupSame(depth: nat, group: string, policy: Policy, inv: Inventory)
    requires IsGroup(policy, group) && KeepsTexts(Members(policy, group), inv)
    requires forall v :: v in Members(policy, group) ==>
               ExpandEntry(depth, v, Candidate(policy), inv) == ExpandEntry(depth, v, policy, inv)
    ensures ExpandWithin(depth + 1, group, Candidate(policy), inv) == ExpandWithin(depth + 1, group, policy, inv)
  {
    var c, items := Candidate(policy), Members(policy, group);
    CandidateGroups(policy, group);
    hide ExpandWithin, Joined, CleanItems, Clean, Candidate, Text, IsGroup, Members;
    GroupIsJoin(depth, group, policy, inv);
    GroupIsJoin(depth, group, c, inv);
    var e, e' := v => ExpandEntry(depth, v, policy, inv), v => ExpandEntry(depth, v, c, inv);
    JoinedClean(e, items);
    forall i | 0 <= i < |CleanItems(items)| ensures e'(CleanItems(items)[i]) == e(CleanItems(items)[i]) {
      var j := CleanMember(items, inv, i);
      assert items[j] in items;
    }
    assert Looked(e', CleanItems(items)) == Looked(e, CleanItems(items));
    SortedIsUnique(ExpandWithin(depth + 1, group, policy, inv).ids, ExpandWithin(depth + 1, group, c, inv).ids);
  }

  /** To any depth, every selector expands to the same devices, in the same order, with the same status. */
  lemma {:induction false} ExpandSame(depth: nat, selector: string, policy: Policy, inv: Inventory)
    requires SelectorsKeepTexts(policy, inv)
    ensures ExpandWithin(depth, selector, Candidate(policy), inv) == ExpandWithin(depth, selector, policy, inv)
  {
    if depth > 0 {
      CandidateGroups(policy, selector);
      if !IsGroup(policy, selector) {
        PlainSame(selector, policy, inv);
      } else {
        assert KeepsTexts(Members(policy, selector), inv);
        hide ExpandWithin, Candidate, Text, SelectorsKeepTexts, KeepsTexts;
        forall v | v in Members(policy, selector)
          ensures ExpandEntry(depth - 1, v, Candidate(policy), inv) == ExpandEntry(depth - 1, v, policy, inv)
        {
          ExpandSame(depth - 1, Text(v, inv), policy, inv);
        }
        GroupSame(depth - 1, selector, policy, inv);
      }
    }
  }

  // ----- relationships, up to rule numbers and repeated list entries

  function Essence(r: Relationship): Relationship {
    r.(ports := Clean(r.ports), protocol := Clean(r.protocol), posture := Clean(r.posture), ruleIndex := 0)
  }

  ghost function Meaning(rows: seq<Relationship>): set<Relationship> {
    set r | r in rows :: Essence(r)
  }

  lemma MeaningAppend(a: seq<Relationship>, b: seq<Relationship>)
    ensures Meaning(a + b) == Meaning(a) + Meaning(b)
  {
    assert forall r :: r in a + b <==> r in a || r in b;
  }

  lemma MeaningOfNone()
    ensures Meaning([]) == {}
  {
  }

  predicate IsLink(m: Relationship, rule: Value, port: string, status: Status) {
    m == Essence(Link(rule, 0, m.source, m.destination, port, status))
  }

  /** A relationship of a pair of selectors of a rule. */
  ghost predicate Arises(
    m: Relationship, rule: Value, source: string, destination: string, policy: Policy, inv: Inventory)
  {
    var from := Expand(source, policy, inv);
    var (name, port) := SplitPort(destination, inv.runtime.digit);
    var to := Expand(name, policy, inv);
    && m.source in from.ids && m.destination in to.ids
    && IsLink(m, rule, port, Combined(from.status, to.status))
  }

  /** A relationship of a rule. */
  ghost predicate Grants(m: Relationship, rule: Value, policy: Policy, inv: Inventory)
  {
    exists s, d :: s in Selectors(SourceField(rule), inv) && d in Selectors(DestinationField(rule), inv)
      && Arises(m, rule, s, d, policy, inv)
  }

  lemma RowMeaning(
    m: Relationship, rule: Value, index: nat, source: string, to: seq<string>, port: string, status: Status)
    ensures m in Meaning(LinkRow(rule, index, source, to, port, status)) <==>
            m.source == source && m.destination in to && IsLink(m, rule, port, status)
  {
    var row := LinkRow(rule, index, source, to, port, status);
    hide Clean, FieldOr;
    if m.source == source && m.destination in to && IsLink(m, rule, port, status) {
      var j :| 0 <= j < |to| && to[j] == m.destination;
      assert row[j] in row && Essence(row[j]) == m;
    }
  }

  lemma {:induction false} PairMeaning(
    m: Relationship, rule: Value, index: nat, from: seq<string>, to: seq<string>, port: string, status: Status)
    ensures m in Meaning(PairRows(rule, index, from, to, port, status)) <==>
            m.source in from && m.destination in to && IsLink(m, rule, port, status)
    decreases |from|
  {
    hide Meaning, IsLink, Link;
    if from == [] {
      MeaningOfNone();
    } else {
      var n := |from| - 1;
      assert from == from[..n] + [from[n]];
      PairMeaning(m, rule, index, from[..n], to, port, status);
      RowMeaning(m, rule, index, from[n], to, port, status);
      MeaningAppend(PairRows(rule, index, from[..n], to, port, status),
                    LinkRow(rule, index, from[n], to, port, status));
    }
  }

  lemma SelectorMeaning(
    m: Relationship, rule: Value, index: nat, source: string, destination: string, policy: Policy, inv: Inventory)
    ensures m in Meaning(SelectorRows(rule, index, Expand(source, policy, inv), destination, policy, inv)) <==>
            Arises(m, rule, source, destination, policy, inv)
  {
    var from := Expand(source, policy, inv);
    var (name, port) := SplitPort(destination, inv.runtime.digit);
    var to := Expand(name, policy, inv);
    PairMeaning(m, rule, index, from.ids, to.ids, port, Combined(from.status, to.status));
  }

  /** The texts of some selectors. */
  function TextsOf(items: seq<Value>, inv: Inventory): set<string> {
    set v | v in items :: Text(v, inv)
  }

  lemma TextsOfNext(front: seq<Value>, last: Value, inv: Inventory)
    ensures TextsOf(front + [last], inv) == TextsOf(front, inv) + {Text(last, inv)}
  {
    hide Text;
    assert forall v :: v in front + [last] <==> v in front || v == last;
  }

  lemma {:induction false} SourceMeaning(
    m: Relationship, rule: Value, index: nat, source: string, destinations: seq<Value>, policy: Policy, inv: Inventory)
    ensures m in Meaning(SourceRows(rule, index, Expand(source, policy, inv), destinations, policy, inv)) <==>
            exists d :: d in TextsOf(destinations, inv) && Arises(m, rule, source, d, policy, inv)
    decreases |destinations|
  {
    hide Arises, ExpandWithin, Meaning, SelectorRows, Text;
    if destinations == [] {
      MeaningOfNone();
    } else {
      var n := |destinations| - 1;
      var front, last := destinations[..n], destinations[n];
      assert destinations == front + [last];
      SourceMeaning(m, rule, index, source, front, policy, inv);
      SelectorMeaning(m, rule, index, source, Text(last, inv), policy, inv);
      MeaningAppend(SourceRows(rule, index, Expand(source, policy, inv), front, policy, inv),
                    SelectorRows(rule, index, Expand(source, policy, inv), Text(last, inv), policy, inv));
      hide TextsOf;
      TextsOfNext(front, last, inv);
    }
  }

  lemma {:induction false} RuleMeaning(
    m: Relationship, rule: Value, index: nat, sources: seq<Value>, destinations: seq<Value>, policy: Policy,
    inv: Inventory)
    ensures m in Meaning(RuleRows(rule, index, sources, destinations, policy, inv)) <==>
            exists s, d :: s in TextsOf(sources, inv) && d in TextsOf(destinations, inv)
              && Arises(m, rule, s, d, policy, inv)
    decreases |sources|
  {
    hide Arises, ExpandWithin, Meaning, SourceRows, Text;
    if sources == [] {
      MeaningOfNone();
    } else {
      var n := |sources| - 1;
      var front, last := sources[..n], sources[n];
      assert sources == front + [last];
      RuleMeaning(m, rule, index, front, destinations, policy, inv);
      SourceMeaning(m, rule, index, Text(last, inv), destinations, policy, inv);
      MeaningAppend(RuleRows(rule, index, front, destinations, policy, inv),
                    SourceRows(rule, index, Expand(Text(last, inv), policy, inv), destinations, policy, inv));
      hide TextsOf;
      TextsOfNext(front, last, inv);
    }
  }

  ghost function RowsOf(rule: Value, index: nat, policy: Policy, inv: Inventory): seq<Relationship>
  {
    RuleRows(rule, index, Iterated(SourceField(rule)), Iterated(DestinationField(rule)), policy, inv)
  }

  lemma RowsOfMeaning(m: Relationship, rule: Value, index: nat, policy: Policy, inv: Inventory)
    ensures m in Meaning(RowsOf(rule, index, policy, inv)) <==> Grants(m, rule, policy, inv)
  {
    hide Arises, Meaning, RuleRows, Iterated, SourceField, DestinationField;
    RuleMeaning(m, rule, index, Iterated(SourceField(rule)), Iterated(DestinationField(rule)), policy, inv);
  }

  lemma LastRule(front: seq<Value>, last: Value, policy: Policy, inv: Inventory)
    ensures PolicyRows(front + [last], policy, inv)
            == PolicyRows(front, policy, inv) + RowsOf(last, |front|, policy, inv)
  {
    hide RuleRows, Iterated, SourceField, DestinationField;
    assert (front + [last])[..|front|] == front;
  }

  /** A relationship is listed iff some rule grants it. */
  lemma {:induction false} PolicyRowsMeaning(m: Relationship, rules: seq<Value>, policy: Policy, inv: Inventory)
    ensures m in Meaning(PolicyRows(rules, policy, inv))
            <==> exists rule :: rule in rules && Grants(m, rule, policy, inv)
    decreases |rules|
  {
    if rules == [] {
      MeaningOfNone();
    } else {
      var front, last := rules[..|rules| - 1], rules[|rules| - 1];
      assert rules == front + [last];
      hide Grants, Meaning, PolicyRows, RowsOf;
      PolicyRowsMeaning(m, front, policy, inv);
      LastRule(front, last, policy, inv);
      RowsOfMeaning(m, last, |front|, policy, inv);
      MeaningAppend(PolicyRows(front, policy, inv), RowsOf(last, |front|, policy, inv));
      assert forall rule :: rule in rules <==> rule in front || rule == last;
    }
  }

  // ----- cleaned rules

  lemma CleanFields(rule: Value, name: string, default: Value)
    requires Clean(default) == default
    ensures FieldOr(Clean(rule), name, default) == Clean(FieldOr(rule, name, default))
    ensures Clean(rule).Obj? == rule.Obj?
  {
  }

  lemma CleanRule(rule: Value)
    ensures SourceField(Clean(rule)) == Clean(SourceField(rule))
    ensures DestinationField(Clean(rule)) == Clean(DestinationField(rule))
    ensures Clean(rule).Obj? == rule.Obj?
  {
  }

  lemma LinkClean(rule: Value, source: string, destination: string, port: string, status: Status)
    ensures Essence(Link(Clean(rule), 0, source, destination, port, status))
            == Essence(Link(rule, 0, source, destination, port, status))
  {
    CleanFixesDuplicateFree(Arr([Str(port)]));
    CleanFixesDuplicateFree(Arr([]));
    hide Clean;
    CleanFields(rule, "ip", Arr([Str(port)]));
    CleanFixesDuplicateFree(Str("any"));
    CleanFields(rule, "proto", Str("any"));
    CleanFields(rule, "srcPosture", Arr([]));
    CleanIdempotent(FieldOr(rule, "ip", Arr([Str(port)])));
    CleanIdempotent(FieldOr(rule, "proto", Str("any")));
    CleanIdempotent(FieldOr(rule, "srcPosture", Arr([])));
  }

  /** Both fields of a rule keep the selectors they name. */
  predicate RuleKeepsTexts(rule: Value, inv: Inventory) {
    KeepsTexts(Iterated(SourceField(rule)), inv) && KeepsTexts(Iterated(DestinationField(rule)), inv)
  }

  lemma SelectorsOfCleanRule(rule: Value, inv: Inventory)
    requires RuleKeepsTexts(rule, inv)
    ensures Selectors(SourceField(Clean(rule)), inv) == Selectors(SourceField(rule), inv)
    ensures Selectors(DestinationField(Clean(rule)), inv) == Selectors(DestinationField(rule), inv)
    ensures Listable(SourceField(Clean(rule))) == Listable(SourceField(rule))
    ensures Listable(DestinationField(Clean(rule))) == Listable(DestinationField(rule))
    ensures Clean(rule).Obj? == rule.Obj?
  {
    hide Clean, SourceField, DestinationField, Iterated, KeepsTexts;
    CleanRule(rule);
    SelectorsClean(SourceField(rule), inv);
    SelectorsClean(DestinationField(rule), inv);
    IteratedClean(SourceField(rule), Null);
    IteratedClean(DestinationField(rule), Null);
  }

  /** Cleaning a rule and evaluating it under the proposed policy gives the relationships it had before. */
  lemma GrantsClean(m: Relationship, rule: Value, policy: Policy, inv: Inventory)
    requires SelectorsKeepTexts(policy, inv)
    requires RuleKeepsTexts(rule, inv)
    ensures Grants(m, Clean(rule), Candidate(policy), inv) <==> Grants(m, rule, policy, inv)
  {
    hide ExpandWithin, Clean, Candidate, SelectorsKeepTexts, RuleKeepsTexts, Selectors, Link;
    SelectorsOfCleanRule(rule, inv);
    forall s: string, d: string
      ensures Arises(m, Clean(rule), s, d, Candidate(policy), inv) <==> Arises(m, rule, s, d, policy, inv)
    {
      var (name, port) := SplitPort(d, inv.runtime.digit);
      ExpandSame(inv.runtime.depth, s, policy, inv);
      ExpandSame(inv.runtime.depth, name, policy, inv);
      LinkClean(rule, m.source, m.destination, port,
                Combined(Expand(s, policy, inv).status, Expand(name, policy, inv).status));
    }
    hide Arises, SourceField, DestinationField;
  }

  /** A cleaned rule raises an error under the proposed policy iff the rule did before. */
  lemma RaisesClean(rule: Value, policy: Policy, inv: Inventory)
    requires SelectorsKeepTexts(policy, inv)
    requires RuleKeepsTexts(rule, inv)
    ensures RuleRaises(Clean(rule), Candidate(policy), inv) <==> RuleRaises(rule, policy, inv)
  {
    hide ExpandWithin, Clean, Candidate, SelectorsKeepTexts, RuleKeepsTexts, Selectors, Listable;
    SelectorsOfCleanRule(rule, inv);
    forall s: string ensures Expand(s, Candidate(policy), inv) == Expand(s, policy, inv) {
      ExpandSame(inv.runtime.depth, s, policy, inv);
    }
    assert forall d :: DestinationRaises(d, Candidate(policy), inv) == DestinationRaises(d, policy, inv);
    hide DestinationRaises, SourceField, DestinationField;
    assert forall s :: SourceRaises(s, DestinationField(Clean(rule)), Candidate(policy), inv)
                       == SourceRaises(s, DestinationField(rule), policy, inv);
    hide SourceRaises;
  }

  lemma SectionClean(policy: Policy, section: string, r: Value)
    requires section in SUPPORTED
    ensures r in Section(Candidate(policy), section) <==>
            exists i :: 0 <= i < |Section(policy, section)| && r == Clean(Section(policy, section)[i])
    ensures SectionRaises(Candidate(policy), section) == SectionRaises(policy, section)
  {
    CandidateSection(policy, section);
    hide Candidate, Clean, Iterated;
    if section in policy {
      assert Section(Candidate(policy), section) == Iterated(Clean(policy[section]));
      assert Section(policy, section) == Iterated(policy[section]);
      IteratedClean(policy[section], r);
    } else {
      assert Section(Candidate(policy), section) == [] == Section(policy, section);
    }
  }

  /** Every rule of the proposed policy is a cleaned rule of the original, and every cleaned rule is there. */
  lemma CandidateRuleSet(policy: Policy, r: Value)
    ensures r in Rules(Candidate(policy)) <==> exists rule :: rule in Rules(policy) && r == Clean(rule)
  {
    SectionClean(policy, "grants", r);
    SectionClean(policy, "acls", r);
    hide Section, Candidate, Clean;
    var grants, acls := Section(policy, "grants"), Section(policy, "acls");
    assert forall i :: 0 <= i < |grants| ==> grants[i] in Rules(policy);
    assert forall i :: 0 <= i < |acls| ==> acls[i] in Rules(policy);
    if rule :| rule in Rules(policy) && r == Clean(rule) {
      assert rule in grants || rule in acls;
    }
  }

  lemma RaisesSame(policy: Policy, inv: Inventory)
    requires SelectorsKeepTexts(policy, inv)
    ensures Raises(Candidate(policy), inv) <==> Raises(policy, inv)
  {
    SectionClean(policy, "grants", Null);
    SectionClean(policy, "acls", Null);
    assert forall rule :: rule in Rules(policy) ==> RuleKeepsTexts(rule, inv);
    hide Rules, Clean, Candidate, RuleRaises, SectionRaises, SelectorsKeepTexts, RuleKeepsTexts;
    var c := Candidate(policy);
    if rule :| rule in Rules(c) && RuleRaises(rule, c, inv) {
      CandidateRuleSet(policy, rule);
      var original :| original in Rules(policy) && rule == Clean(original);
      RaisesClean(original, policy, inv);
    }
    if rule :| rule in Rules(policy) && RuleRaises(rule, policy, inv) {
      CandidateRuleSet(policy, Clean(rule));
      RaisesClean(rule, policy, inv);
    }
  }

  lemma GrantedSame(m: Relationship, policy: Policy, inv: Inventory)
    requires SelectorsKeepTexts(policy, inv)
    ensures (exists rule :: rule in Rules(Candidate(policy)) && Grants(m, rule, Candidate(policy), inv))
            <==> exists rule :: rule in Rules(policy) && Grants(m, rule, policy, inv)
  {
    assert forall rule :: rule in Rules(policy) ==> RuleKeepsTexts(rule, inv);
    hide Rules, Clean, Candidate, Grants, SelectorsKeepTexts, RuleKeepsTexts;
    var c := Candidate(policy);
    if rule :| rule in Rules(c) && Grants(m, rule, c, inv) {
      CandidateRuleSet(policy, rule);
      var original :| original in Rules(policy) && rule == Clean(original);
      GrantsClean(m, original, policy, inv);
    }
    if rule :| rule in Rules(policy) && Grants(m, rule, policy, inv) {
      CandidateRuleSet(policy, Clean(rule));
      GrantsClean(m, rule, policy, inv);
    }
  }

  /** Under an inventory both policies are evaluated without an error, or neither is, and they allow the same. */
  ghost predicate SameMeaning(a: Policy, b: Policy, inv: Inventory) {
    && (Evaluate(a, inv).Some? <==> Evaluate(b, inv).Some?)
    && (Evaluate(a, inv).Some? ==> Meaning(Evaluate(a, inv).value) == Meaning(Evaluate(b, inv).value))
  }

  /**
   * For every policy and every inventory, the proposed policy is evaluated without an error iff the original is,
   * however deeply expansions may be nested, and allows exactly the same relationships, up to rule numbers and
   * repeated list entries, provided that no list used as a selector changes its text when it is cleaned.
   */
  lemma CandidateMeansTheSame(policy: Policy, inv: Inventory)
    requires SelectorsKeepTexts(policy, inv)
    ensures SameMeaning(Candidate(policy), policy, inv)
  {
    var c := Candidate(policy);
    hide Grants, Rules, PolicyRows, Candidate, Meaning, Raises, SelectorsKeepTexts;
    RaisesSame(policy, inv);
    forall m
      ensures m in Meaning(PolicyRows(Rules(c), c, inv)) <==> m in Meaning(PolicyRows(Rules(policy), policy, inv))
    {
      PolicyRowsMeaning(m, Rules(policy), policy, inv);
      PolicyRowsMeaning(m, Rules(c), c, inv);
      GrantedSame(m, policy, inv);
    }
  }
}
