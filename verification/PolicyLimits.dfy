/** Exactly when cleaning a list or an object that is used as a selector changes what a rule allows. */
module PolicyLimits {
  import opened Common
  import opened Json
  import opened PolicyReview
  import opened PolicyEngine
  import opened PolicyEvaluation
  import opened PolicyMeaning

  const EVERYTHING := Arr([Str("*")])

  function RuleFor(selector: Value): Value {
    Obj(map["src" := Arr([selector]), "dst" := EVERYTHING])
  }

  /** One rule, whose only source is the given selector. */
  function PolicyFor(selector: Value): Policy {
    map["grants" := Arr([RuleFor(selector)])]
  }

  /** One device, whose owner has the given name, under a host language with the given texts. */
  function OwnedByOne(name: string, text: Value -> string): Inventory {
    Inventory([Device("d", [], Some("u"), [])], [User("u", Some(name), None)], Runtime(text, c => false, 1))
  }

  predicate InBrackets(s: string) {
    s != "" && (s[0] == '[' || s[0] == '{')
  }

  /** The texts of lists and objects start with a bracket. */
  ghost predicate Bracketed(text: Value -> string) {
    forall v :: !Scalar(v) ==> InBrackets(text(v))
  }

  // ----- the proposed policy

  lemma CleanOne(v: Value)
    ensures Clean(Arr([v])) == Arr([Clean(v)])
  {
    assert [v][..0] == [] && CleanItems([]) == [];
    assert CleanItems([v]) == [Clean(v)];
  }

  lemma CleanRuleFor(v: Value)
    ensures Clean(RuleFor(v)) == RuleFor(Clean(v))
  {
    CleanOne(v);
    CleanOne(Str("*"));
    hide CleanItems;
    assert Clean(RuleFor(v)).fields == RuleFor(Clean(v)).fields;
  }

  lemma CandidateFor(v: Value)
    ensures Candidate(PolicyFor(v)) == PolicyFor(Clean(v))
  {
    CleanRuleFor(v);
    CleanOne(RuleFor(v));
    hide Clean, RuleFor;
    CandidateSection(PolicyFor(v), "grants");
    assert Candidate(PolicyFor(v)).Keys == {"grants"};
  }

  lemma OneRule(v: Value, inv: Inventory)
    ensures Rules(PolicyFor(v)) == [RuleFor(v)]
    ensures Iterated(SourceField(RuleFor(v))) == [v] && Iterated(DestinationField(RuleFor(v))) == [Str("*")]
    ensures Selectors(SourceField(RuleFor(v)), inv) == {Text(v, inv)}
    ensures Selectors(DestinationField(RuleFor(v)), inv) == {"*"}
    ensures forall g :: !IsGroup(PolicyFor(v), g)
  {
    var rule := RuleFor(v);
    assert SourceField(rule) == Arr([v]) && DestinationField(rule) == EVERYTHING;
    assert v in [v] && Str("*") in EVERYTHING.items;
  }

  // ----- a text that is kept

  lemma KeptTextsMeanTheSame(v: Value, inv: Inventory)
    requires Text(Clean(v), inv) == Text(v, inv)
    ensures SameMeaning(Candidate(PolicyFor(v)), PolicyFor(v), inv)
  {
    OneRule(v, inv);
    hide SameMeaning, Candidate;
    CandidateMeansTheSame(PolicyFor(v), inv);
  }

  // ----- a text that is changed

  lemma OneDevice(d: Device, chosen: Device -> bool)
    ensures IdsWhere([d], chosen) == if chosen(d) then [d.id] else []
  {
    assert [d][..0] == [];
  }

  lemma OwnerOnly(s: string, name: string, text: Value -> string)
    ensures var inv := OwnedByOne(name, text); OwnedBy(inv.devices[0], inv.users, s) <==> s == name
  {
    var inv := OwnedByOne(name, text);
    assert inv.users[0] in inv.users;
  }

  /** A text in brackets is looked up among users, and then among hosts. */
  lemma PlainName(s: string, policy: Policy, inv: Inventory)
    requires InBrackets(s) && !NoFields(policy, "hosts") && s !in FieldsOf(policy, "hosts")
    ensures var owned := IdsWhere(inv.devices, d => OwnedBy(d, inv.users, s));
            ExpandPlain(s, policy, inv)
            == if owned != [] then Expansion(owned, FullyEvaluated) else Expansion([], UnresolvedSelector)
  {
  }

  lemma ExpandsTo(s: string, v: Value, name: string, text: Value -> string)
    requires s == "*" || InBrackets(s)
    ensures Expand(s, PolicyFor(v), OwnedByOne(name, text))
            == if s == "*" || s == name then Expansion(["d"], FullyEvaluated) else Expansion([], UnresolvedSelector)
  {
    var policy, inv := PolicyFor(v), OwnedByOne(name, text);
    assert Expand(s, policy, inv) == ExpandPlain(s, policy, inv);
    var d := inv.devices[0];
    if s == "*" {
      OneDevice(d, x => true);
    } else {
      hide ExpandPlain, ExpandWithin;
      assert FieldsOf(policy, "hosts") == map[] && !NoFields(policy, "hosts");
      PlainName(s, policy, inv);
      OneDevice(d, x => OwnedBy(x, inv.users, s));
      OwnerOnly(s, name, text);
    }
  }

  /** The policy is evaluated without an error. */
  lemma Evaluates(v: Value, name: string, text: Value -> string)
    requires InBrackets(Text(v, OwnedByOne(name, text)))
    ensures !Raises(PolicyFor(v), OwnedByOne(name, text))
  {
    var policy, inv, rule := PolicyFor(v), OwnedByOne(name, text), RuleFor(v);
    ExpandsTo(Text(v, inv), v, name, text);
    ExpandsTo("*", v, name, text);
    OneRule(v, inv);
    assert SplitPort("*", inv.runtime.digit).0 == "*";
    hide Expand, ExpandWithin, Selectors, Rules, Text;
    assert !DestinationRaises("*", policy, inv);
    assert !SourceRaises(Text(v, inv), DestinationField(rule), policy, inv);
    assert !RuleRaises(rule, policy, inv);
  }

  /** If the selector is the owner's name, the rule allows the device to reach itself. */
  lemma OwnNameGrants(v: Value, text: Value -> string)
    requires !Scalar(v) && InBrackets(text(v))
    ensures var policy, inv := PolicyFor(v), OwnedByOne(text(v), text);
            Meaning(PolicyRows(Rules(policy), policy, inv)) != {}
  {
    var policy, inv, rule := PolicyFor(v), OwnedByOne(text(v), text), RuleFor(v);
    ExpandsTo(text(v), v, text(v), text);
    ExpandsTo("*", v, text(v), text);
    OneRule(v, inv);
    assert SplitPort("*", inv.runtime.digit) == ("*", "*") && Text(v, inv) == text(v);
    hide Expand, ExpandWithin, Selectors, Rules, PolicyRows, Meaning, Clean, SplitPort, Text;
    var m := Essence(Link(rule, 0, "d", "d", "*", FullyEvaluated));
    assert Arises(m, rule, text(v), "*", policy, inv);
    hide Arises, Essence, Link;
    assert Grants(m, rule, policy, inv);
    PolicyRowsMeaning(m, Rules(policy), policy, inv);
  }

  /** If the selector is not the owner's name, the rule allows nothing. */
  lemma OtherNameGrantsNothing(m: Relationship, v: Value, name: string, text: Value -> string)
    requires !Scalar(v) && InBrackets(text(v)) && text(v) != name
    ensures var policy, inv := PolicyFor(v), OwnedByOne(name, text);
            m !in Meaning(PolicyRows(Rules(policy), policy, inv))
  {
    var policy, inv := PolicyFor(v), OwnedByOne(name, text);
    ExpandsTo(text(v), v, name, text);
    OneRule(v, inv);
    assert Text(v, inv) == text(v);
    hide Expand, ExpandWithin, Selectors, Rules, PolicyRows, Meaning, Text;
    PolicyRowsMeaning(m, Rules(policy), policy, inv);
  }

  lemma ChangedTextLosesGrants(v: Value, text: Value -> string)
    requires !Scalar(v) && Bracketed(text) && text(Clean(v)) != text(v)
    ensures var policy, inv := PolicyFor(v), OwnedByOne(text(v), text);
            && !SameMeaning(Candidate(policy), policy, inv)
            && Evaluate(policy, inv).Some? && Meaning(Evaluate(policy, inv).value) != {}
            && Evaluate(Candidate(policy), inv).Some? && Meaning(Evaluate(Candidate(policy), inv).value) == {}
  {
    var c, inv := Clean(v), OwnedByOne(text(v), text);
    assert !Scalar(c);
    assert Text(v, inv) == text(v) && Text(c, inv) == text(c);
    CandidateFor(v);
    hide Clean, Candidate, Meaning, PolicyRows, Raises, Rules, Text;
    Evaluates(v, text(v), text);
    Evaluates(c, text(v), text);
    OwnNameGrants(v, text);
    forall m ensures m !in Meaning(PolicyRows(Rules(PolicyFor(c)), PolicyFor(c), inv)) {
      OtherNameGrantsNothing(m, c, text(v), text);
    }
  }

  /**
   * A rule whose source is a list or an object means the same under every inventory, once it is cleaned, iff cleaning
   * keeps the host language's text of that source. Otherwise the policy grants something to the user who is called
   * like that text, and the proposed policy does not.
   */
  lemma MeansTheSameIff(v: Value, text: Value -> string)
    requires !Scalar(v) && Bracketed(text)
    ensures (forall inv: Inventory :: inv.runtime.text == text ==>
               SameMeaning(Candidate(PolicyFor(v)), PolicyFor(v), inv))
            <==> text(Clean(v)) == text(v)
  {
    assert !Scalar(Clean(v));
    hide SameMeaning, Candidate, Clean;
    if text(Clean(v)) == text(v) {
      forall inv: Inventory | inv.runtime.text == text ensures SameMeaning(Candidate(PolicyFor(v)), PolicyFor(v), inv) {
        KeptTextsMeanTheSame(v, inv);
      }
    } else {
      ChangedTextLosesGrants(v, text);
      assert OwnedByOne(text(v), text).runtime.text == text;
    }
  }

  // ----- an instance

  /** A list that is used as a selector, and what cleaning makes of it. */
  const TWICE := Arr([Str("a"), Str("a")])
  const ONCE := Arr([Str("a")])

  lemma CleanTwice()
    ensures Clean(TWICE) == ONCE
  {
    var items := [Str("a"), Str("a")];
    assert items[..1] == [Str("a")] && [Str("a")][..0] == [];
    assert CleanItems([Str("a")]) == [Str("a")];
  }

  /** With a host language that writes lists as usual, the list with a repeated entry loses its meaning. */
  lemma ListsAsSelectorsCanLoseGrants(text: Value -> string)
    requires Bracketed(text) && text(TWICE) == "['a', 'a']" && text(ONCE) == "['a']"
    ensures var policy, inv := PolicyFor(TWICE), OwnedByOne("['a', 'a']", text);
            && Evaluate(policy, inv).Some? && Meaning(Evaluate(policy, inv).value) != {}
            && Evaluate(Candidate(policy), inv).Some? && Meaning(Evaluate(Candidate(policy), inv).value) == {}
  {
    hide Evaluate, Meaning, Candidate;
    CleanTwice();
    ChangedTextLosesGrants(TWICE, text);
  }
}
