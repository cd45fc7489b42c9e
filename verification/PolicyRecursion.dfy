/** When the expansion of a selector ends, for groups that may be members of themselves. */
module PolicyRecursion {
  import opened Common
  import opened PolicyReview
  import opened PolicyEngine
  import opened PolicyMeaning

  // ----- a greater depth changes nothing

  /** Joins that agree on what is looked at are equal. */
  lemma {:induction false} JoinedAgree(a: seq<Expansion>, b: seq<Expansion>)
    requires |a| == |b| && forall i :: 0 <= i < Reached(a) ==> a[i] == b[i]
    ensures Joined(a) == Joined(b) && Reached(a) == Reached(b)
    decreases |a|
  {
    if a != [] {
      var n := |a| - 1;
      JoinedAgree(a[..n], b[..n]);
    }
  }

  lemma LookedAtEnds(parts: seq<Expansion>)
    requires Joined(parts).status != TooDeep
    ensures forall i :: 0 <= i < Reached(parts) ==> parts[i].status != TooDeep
  {
    hide Joined, Reached;
    JoinedStatus(parts);
  }

  lemma MemberExpansionAt(depth: nat, group: string, i: nat, policy: Policy, inv: Inventory)
    requires IsGroup(policy, group) && i < |Members(policy, group)|
    ensures MemberExpansions(depth, group, policy, inv)[i]
            == ExpandWithin(depth, Text(Members(policy, group)[i], inv), policy, inv)
  {
  }

  lemma NotAtOnce(n: nat, m: nat, s: string, policy: Policy, inv: Inventory)
    requires n <= m && ExpandWithin(n, s, policy, inv).status != TooDeep
    ensures n > 0
    ensures !IsGroup(policy, s) ==> ExpandWithin(m, s, policy, inv) == ExpandWithin(n, s, policy, inv)
  {
    hide ExpandPlain, MemberExpansions, Joined;
  }

  /** An expansion that ends within some depth is the same within any greater one. */
  lemma {:induction false} Deeper(n: nat, m: nat, s: string, policy: Policy, inv: Inventory)
    requires n <= m && ExpandWithin(n, s, policy, inv).status != TooDeep
    ensures ExpandWithin(m, s, policy, inv) == ExpandWithin(n, s, policy, inv)
    decreases n
  {
    hide ExpandWithin, ExpandPlain, MemberExpansions, Joined, Reached, IsGroup, Members, Text;
    NotAtOnce(n, m, s, policy, inv);
    if IsGroup(policy, s) {
      var parts, more := MemberExpansions(n - 1, s, policy, inv), MemberExpansions(m - 1, s, policy, inv);
      ExpandGroup(n - 1, s, policy, inv);
      ExpandGroup(m - 1, s, policy, inv);
      LookedAtEnds(parts);
      forall i | 0 <= i < Reached(parts) ensures parts[i] == more[i] {
        MemberExpansionAt(n - 1, s, i, policy, inv);
        MemberExpansionAt(m - 1, s, i, policy, inv);
        Deeper(n - 1, m - 1, Text(Members(policy, s)[i], inv), policy, inv);
      }
      JoinedAgree(parts, more);
    }
  }

  // ----- which expansions call which

  ghost predicate Full(s: string, policy: Policy, inv: Inventory) {
    exists n: nat :: ExpandWithin(n, s, policy, inv).status == FullyEvaluated
  }

  /** The members of a group before the given one are fully evaluated. */
  ghost predicate GetsTo(group: string, i: nat, policy: Policy, inv: Inventory)
    requires IsGroup(policy, group)
  {
    forall j :: 0 <= j < i < |Members(policy, group)| ==> Full(Text(Members(policy, group)[j], inv), policy, inv)
  }

  /** The expansion of `s` gets to that of its member `t`. */
  ghost predicate Calls(s: string, t: string, policy: Policy, inv: Inventory) {
    && IsGroup(policy, s)
    && exists i: nat :: i < |Members(policy, s)| && Text(Members(policy, s)[i], inv) == t && GetsTo(s, i, policy, inv)
  }

  ghost predicate Chain(path: seq<string>, policy: Policy, inv: Inventory) {
    forall k :: 0 <= k < |path| - 1 ==> Calls(path[k], path[k + 1], policy, inv)
  }

  /** Some chain of calls that starts at `s` gets to a selector twice. */
  ghost predicate Loops(s: string, policy: Policy, inv: Inventory) {
    exists path, a: nat, b: nat ::
      Chain(path, policy, inv) && a < b < |path| && path[0] == s && path[a] == path[b]
  }

  ghost predicate Ends(s: string, policy: Policy, inv: Inventory) {
    exists n: nat :: ExpandWithin(n, s, policy, inv).status != TooDeep
  }

  // ----- an expansion that does not end calls another one

  lemma DeepMember(depth: nat, s: string, policy: Policy, inv: Inventory) returns (t: string)
    requires ExpandWithin(depth + 1, s, policy, inv).status == TooDeep
    ensures Calls(s, t, policy, inv) && ExpandWithin(depth, t, policy, inv).status == TooDeep
  {
    assert IsGroup(policy, s);
    var parts := MemberExpansions(depth, s, policy, inv);
    ExpandGroup(depth, s, policy, inv);
    hide ExpandWithin, MemberExpansions, Joined, Reached;
    JoinedStatus(parts);
    var i := Reached(parts) - 1;
    t := Text(Members(policy, s)[i], inv);
    MemberExpansionAt(depth, s, i, policy, inv);
    forall j | 0 <= j < i ensures Full(Text(Members(policy, s)[j], inv), policy, inv) {
      MemberExpansionAt(depth, s, j, policy, inv);
    }
    assert GetsTo(s, i, policy, inv);
  }

  lemma {:induction false} DeepChain(depth: nat, s: string, policy: Policy, inv: Inventory) returns (path: seq<string>)
    requires ExpandWithin(depth, s, policy, inv).status == TooDeep
    ensures |path| == depth + 1 && path[0] == s && Chain(path, policy, inv)
    decreases depth
  {
    if depth == 0 {
      path := [s];
    } else {
      hide ExpandWithin, Calls;
      var t := DeepMember(depth - 1, s, policy, inv);
      var rest := DeepChain(depth - 1, t, policy, inv);
      path := [s] + rest;
      assert forall k :: 1 <= k < |path| - 1 ==> path[k] == rest[k - 1] && path[k + 1] == rest[k];
    }
  }

  lemma {:induction false} DistinctFit(s: seq<string>, all: set<string>)
    requires Distinct(s) && forall i :: 0 <= i < |s| ==> s[i] in all
    ensures |s| <= |all|
    decreases |s|
  {
    if s != [] {
      var n := |s| - 1;
      DistinctFit(s[..n], all - {s[n]});
    }
  }

  /** Deeper than there are groups, a chain of calls gets somewhere twice. */
  lemma TooDeepLoops(depth: nat, s: string, policy: Policy, inv: Inventory)
    requires |FieldsOf(policy, "groups")| < depth && ExpandWithin(depth, s, policy, inv).status == TooDeep
    ensures Loops(s, policy, inv)
  {
    var path := DeepChain(depth, s, policy, inv);
    var called := path[..depth];
    forall k | 0 <= k < |called| ensures called[k] in FieldsOf(policy, "groups").Keys {
      assert Calls(path[k], path[k + 1], policy, inv);
    }
    hide Chain, ExpandWithin, FieldsOf;
    if Distinct(called) {
      DistinctFit(called, FieldsOf(policy, "groups").Keys);
      assert false;
    }
    var a: nat, b: nat :| a < b < |called| && called[a] == called[b];
    assert path[a] == path[b];
  }

  // ----- a chain that gets somewhere twice does not end

  /** A join with a part that is too deep, before which parts are fully evaluated or too deep, is too deep. */
  lemma DeepJoin(parts: seq<Expansion>, i: nat)
    requires i < |parts| && parts[i].status == TooDeep
    requires forall j :: 0 <= j < i ==> parts[j].status == FullyEvaluated || parts[j].status == TooDeep
    ensures Joined(parts).status == TooDeep
  {
    hide Joined, Reached;
    JoinedStatus(parts);
  }

  lemma CallerIsDeep(depth: nat, s: string, t: string, policy: Policy, inv: Inventory)
    requires Calls(s, t, policy, inv) && ExpandWithin(depth, t, policy, inv).status == TooDeep
    ensures ExpandWithin(depth + 1, s, policy, inv).status == TooDeep
  {
    var parts := MemberExpansions(depth, s, policy, inv);
    var i: nat :|
      i < |Members(policy, s)| && Text(Members(policy, s)[i], inv) == t && GetsTo(s, i, policy, inv);
    ExpandGroup(depth, s, policy, inv);
    forall j | 0 <= j < i ensures parts[j].status == FullyEvaluated || parts[j].status == TooDeep {
      var u := Text(Members(policy, s)[j], inv);
      MemberExpansionAt(depth, s, j, policy, inv);
      assert Full(u, policy, inv);
      hide ExpandWithin, Joined;
      var n: nat :| ExpandWithin(n, u, policy, inv).status == FullyEvaluated;
      if n <= depth {
        Deeper(n, depth, u, policy, inv);
      } else if parts[j].status != TooDeep {
        Deeper(depth, n, u, policy, inv);
      }
    }
    MemberExpansionAt(depth, s, i, policy, inv);
    hide ExpandWithin, Joined;
    DeepJoin(parts, i);
  }

  lemma {:induction false} LoopIsDeep(
    depth: nat, path: seq<string>, a: nat, b: nat, k: nat, policy: Policy, inv: Inventory)
    requires Chain(path, policy, inv) && a < b < |path| && path[a] == path[b] && k <= b
    ensures ExpandWithin(depth, path[k], policy, inv).status == TooDeep
    decreases depth
  {
    if depth > 0 {
      var at := if k == b then a else k;
      LoopIsDeep(depth - 1, path, a, b, at + 1, policy, inv);
      hide ExpandWithin, Calls;
      CallerIsDeep(depth - 1, path[at], path[at + 1], policy, inv);
    }
  }

  /**
   * The expansion of a selector ends, within some depth, iff no chain of calls gets to a selector twice; then one
   * more nested expansion than there are groups is deep enough. A group that is a member of itself does no harm when
   * an earlier member is not fully evaluated.
   */
  lemma EndsIff(s: string, policy: Policy, inv: Inventory)
    ensures Ends(s, policy, inv) <==> !Loops(s, policy, inv)
    ensures Ends(s, policy, inv) ==>
              ExpandWithin(|FieldsOf(policy, "groups")| + 1, s, policy, inv).status != TooDeep
  {
    hide ExpandWithin, Chain, FieldsOf;
    var enough := |FieldsOf(policy, "groups")| + 1;
    if Loops(s, policy, inv) {
      var path, a: nat, b: nat :| Chain(path, policy, inv) && a < b < |path| && path[0] == s && path[a] == path[b];
      forall n: nat ensures ExpandWithin(n, s, policy, inv).status == TooDeep {
        LoopIsDeep(n, path, a, b, 0, policy, inv);
      }
    } else if ExpandWithin(enough, s, policy, inv).status == TooDeep {
      TooDeepLoops(enough, s, policy, inv);
    }
  }

  /** Under the proposed policy the same expansions end. */
  lemma CandidateEndsToo(s: string, policy: Policy, inv: Inventory)
    requires SelectorsKeepTexts(policy, inv)
    ensures Ends(s, Candidate(policy), inv) <==> Ends(s, policy, inv)
  {
    hide ExpandWithin, Candidate, SelectorsKeepTexts;
    forall n: nat ensures ExpandWithin(n, s, Candidate(policy), inv) == ExpandWithin(n, s, policy, inv) {
      ExpandSame(n, s, policy, inv);
    }
  }
}
