/** What reconciliation promises about one evaluation. */
module FindingLaws {
  import opened Common
  import opened Findings

  function Fingerprints(candidates: seq<Candidate>): set<string> {
    set c | c in candidates :: c.fingerprint
  }

  /** A fingerprint belongs to one source only, among the candidates and among what is stored. */
  ghost predicate OneSourceEach(s: Store, candidates: seq<Candidate>) {
    && (forall c :: c in candidates && c.fingerprint in s.findings ==> s.findings[c.fingerprint].source == c.source)
    && (forall c, d :: c in candidates && d in candidates && c.fingerprint == d.fingerprint ==> c.source == d.source)
  }

  // ----- the candidates

  lemma FingerprintsNext(candidates: seq<Candidate>, c: Candidate)
    ensures Fingerprints(candidates + [c]) == Fingerprints(candidates) + {c.fingerprint}
  {
    assert forall x :: x in candidates + [c] <==> x in candidates || x == c;
  }

  lemma ObservedNext(s: Store, candidates: seq<Candidate>, c: Candidate, now: int, endpoints: seq<Endpoint>)
    ensures var before, t := AllObserved(s, candidates, now, endpoints), ObservedTally(s, candidates, now, endpoints);
            && AllObserved(s, candidates + [c], now, endpoints) == Observed(before, c, now, endpoints)
            && ObservedTally(s, candidates + [c], now, endpoints) ==
               if c.fingerprint !in before.findings then t.(created := t.created + 1)
               else if c.fingerprint !in Unresolved(before) then t.(reopened := t.reopened + 1)
               else t
  {
    assert (candidates + [c])[..|candidates|] == candidates;
  }

  lemma ObserveOne(s: Store, c: Candidate, now: int, endpoints: seq<Endpoint>)
    ensures var r := Observed(s, c, now, endpoints);
            && r.findings.Keys == s.findings.Keys + {c.fingerprint}
            && Unresolved(r) == Unresolved(s) + {c.fingerprint}
            && (forall id :: id in s.findings && id != c.fingerprint ==> r.findings[id] == s.findings[id])
            && r.findings[c.fingerprint].source
               == (if c.fingerprint in s.findings then s.findings[c.fingerprint].source else c.source)
            && r.findings[c.fingerprint] ==
               (if c.fingerprint in s.findings then Matched(c, s.findings[c.fingerprint], now).finding
                else Fresh(c, now))
  {
    var r := Observed(s, c, now, endpoints);
    assert r.findings[c.fingerprint].status != Resolved;
    assert Unresolved(r) == Unresolved(s) + {c.fingerprint};
  }

  lemma CountWith(a: set<string>, x: string)
    ensures |a + {x}| == |a| + if x in a then 0 else 1
  {
    if x in a {
      assert a + {x} == a;
    }
  }

  lemma NoneObserved(s: Store, now: int, endpoints: seq<Endpoint>)
    ensures AllObserved(s, [], now, endpoints) == s && Fingerprints([]) == {}
  {
  }

  /** After the candidates, exactly what was unresolved or has a candidate is unresolved. */
  lemma {:induction false} ObservedUnresolved(s: Store, candidates: seq<Candidate>, now: int, endpoints: seq<Endpoint>)
    ensures AllObserved(s, candidates, now, endpoints).findings.Keys == s.findings.Keys + Fingerprints(candidates)
    ensures Unresolved(AllObserved(s, candidates, now, endpoints)) == Unresolved(s) + Fingerprints(candidates)
    decreases |candidates|
  {
    hide Observed, AllObserved, ObservedTally, Unresolved, Fingerprints, Matched, Fresh;
    if candidates == [] {
      NoneObserved(s, now, endpoints);
      assert Unresolved(s) + {} == Unresolved(s) && s.findings.Keys + {} == s.findings.Keys;
    } else {
      var c, front := candidates[|candidates| - 1], candidates[..|candidates| - 1];
      assert candidates == front + [c];
      ObservedUnresolved(s, front, now, endpoints);
      ObservedNext(s, front, c, now, endpoints);
      ObserveOne(AllObserved(s, front, now, endpoints), c, now, endpoints);
      FingerprintsNext(front, c);
    }
  }

  /** The tally of the candidates counts by how much the number of unresolved findings grew. */
  lemma {:induction false} ObservedCount(s: Store, candidates: seq<Candidate>, now: int, endpoints: seq<Endpoint>)
    ensures var t := ObservedTally(s, candidates, now, endpoints);
            |Unresolved(AllObserved(s, candidates, now, endpoints))| == |Unresolved(s)| + t.created + t.reopened
    decreases |candidates|
  {
    if candidates != [] {
      var c, front := candidates[|candidates| - 1], candidates[..|candidates| - 1];
      assert candidates == front + [c];
      ObservedCount(s, front, now, endpoints);
      var before := AllObserved(s, front, now, endpoints);
      assert c.fingerprint !in before.findings ==> c.fingerprint !in Unresolved(before);
      hide Observed, AllObserved, ObservedTally, Unresolved;
      ObservedNext(s, front, c, now, endpoints);
      ObserveOne(before, c, now, endpoints);
      CountWith(Unresolved(before), c.fingerprint);
    }
  }

  /** A stored finding keeps its source. */
  lemma {:induction false} ObservedKeepsSource(
    s: Store, candidates: seq<Candidate>, now: int, endpoints: seq<Endpoint>, id: string)
    requires id in s.findings
    ensures id in AllObserved(s, candidates, now, endpoints).findings
    ensures AllObserved(s, candidates, now, endpoints).findings[id].source == s.findings[id].source
    decreases |candidates|
  {
    if candidates != [] {
      var c, front := candidates[|candidates| - 1], candidates[..|candidates| - 1];
      assert candidates == front + [c];
      ObservedKeepsSource(s, front, now, endpoints, id);
      hide Observed, AllObserved, Matched, Fresh;
      ObservedNext(s, front, c, now, endpoints);
      ObserveOne(AllObserved(s, front, now, endpoints), c, now, endpoints);
    }
  }

  lemma FewerCandidates(s: Store, front: seq<Candidate>, last: Candidate)
    requires OneSourceEach(s, front + [last])
    ensures OneSourceEach(s, front)
    ensures forall d :: d in front && d.fingerprint == last.fingerprint ==> d.source == last.source
  {
    assert forall d :: d in front ==> d in front + [last];
    assert (front + [last])[|front|] == last;
  }

  /** A candidate's finding has the candidate's source. */
  lemma {:induction false} ObservedSource(
    s: Store, candidates: seq<Candidate>, now: int, endpoints: seq<Endpoint>, c: Candidate)
    requires OneSourceEach(s, candidates) && c in candidates
    ensures c.fingerprint in AllObserved(s, candidates, now, endpoints).findings
    ensures AllObserved(s, candidates, now, endpoints).findings[c.fingerprint].source == c.source
    decreases |candidates|
  {
    var last, front := candidates[|candidates| - 1], candidates[..|candidates| - 1];
    assert candidates == front + [last];
    FewerCandidates(s, front, last);
    if c in front {
      ObservedSource(s, front, now, endpoints, c);
    } else if d :| d in front && d.fingerprint == c.fingerprint {
      ObservedSource(s, front, now, endpoints, d);
    } else if c.fingerprint in s.findings {
      ObservedKeepsSource(s, front, now, endpoints, c.fingerprint);
    } else {
      ObservedUnresolved(s, front, now, endpoints);
      assert c.fingerprint !in Fingerprints(front);
    }
    hide Observed, AllObserved, Matched, Fresh, OneSourceEach;
    ObservedNext(s, front, last, now, endpoints);
    ObserveOne(AllObserved(s, front, now, endpoints), last, now, endpoints);
  }

  // ----- the sweep

  lemma SweptNext(
    s: Store, order: seq<string>, id: string, candidates: seq<Candidate>, complete: set<string>, now: int,
    endpoints: seq<Endpoint>)
    requires (forall x :: x in order ==> x in s.findings) && id in s.findings && id !in order
    ensures var before := AllSwept(s, order, candidates, complete, now, endpoints);
            var r := AllSwept(s, order + [id], candidates, complete, now, endpoints);
            && before.findings.Keys == s.findings.Keys && before.findings[id] == s.findings[id]
            && r == Swept(before, id, complete, SeenFor(candidates, s.findings[id].source), now, endpoints)
            && SweptTally(s, order + [id], candidates, complete)
               == SweptTally(s, order, candidates, complete) + if Absent(s, id, candidates, complete) then 1 else 0
  {
    assert (order + [id])[..|order|] == order;
    SweepLeavesOthers(s, order, candidates, complete, now, endpoints, id);
  }

  lemma SweepOne(
    s: Store, id: string, candidates: seq<Candidate>, complete: set<string>, now: int, endpoints: seq<Endpoint>)
    requires id in Unresolved(s)
    ensures Unresolved(Swept(s, id, complete, SeenFor(candidates, s.findings[id].source), now, endpoints))
            == Unresolved(s) - if Absent(s, id, candidates, complete) then {id} else {}
  {
  }

  ghost function AbsentAmong(
    s: Store, order: seq<string>, candidates: seq<Candidate>, complete: set<string>): set<string>
    requires forall id :: id in order ==> id in s.findings
  {
    set id | id in order && Absent(s, id, candidates, complete)
  }

  lemma AbsentNext(s: Store, order: seq<string>, id: string, candidates: seq<Candidate>, complete: set<string>)
    requires (forall x :: x in order ==> x in s.findings) && id in s.findings && id !in order
    ensures AbsentAmong(s, order + [id], candidates, complete)
            == AbsentAmong(s, order, candidates, complete) + if Absent(s, id, candidates, complete) then {id} else {}
    ensures id !in AbsentAmong(s, order, candidates, complete)
  {
    assert forall x :: x in order + [id] <==> x in order || x == id;
  }

  /** The sweep resolves exactly the visited findings that a complete source no longer reports. */
  lemma {:induction false} SweptUnresolved(
    s: Store, order: seq<string>, candidates: seq<Candidate>, complete: set<string>, now: int, endpoints: seq<Endpoint>)
    requires Distinct(order) && (forall id :: id in order ==> id in s.findings)
    requires forall id :: id in order ==> id in Unresolved(s)
    ensures Unresolved(AllSwept(s, order, candidates, complete, now, endpoints))
            == Unresolved(s) - AbsentAmong(s, order, candidates, complete)
    decreases |order|
  {
    if order == [] {
      assert Unresolved(s) - AbsentAmong(s, order, candidates, complete) == Unresolved(s);
    } else {
      var id, front := order[|order| - 1], order[..|order| - 1];
      assert order == front + [id];
      assert id !in front && id in order;
      assert forall x :: x in front ==> x in order;
      SweptUnresolved(s, front, candidates, complete, now, endpoints);
      AbsentNext(s, front, id, candidates, complete);
      hide Swept, AllSwept, Unresolved, AbsentAmong, SeenFor, Absent;
      SweptNext(s, front, id, candidates, complete, now, endpoints);
      SweepOne(AllSwept(s, front, candidates, complete, now, endpoints), id, candidates, complete, now, endpoints);
    }
  }

  /** The sweep's tally is the number of findings it visits and resolves. */
  lemma {:induction false} SweptCount(s: Store, order: seq<string>, candidates: seq<Candidate>, complete: set<string>)
    requires Distinct(order) && forall id :: id in order ==> id in s.findings
    ensures SweptTally(s, order, candidates, complete) == |AbsentAmong(s, order, candidates, complete)|
    decreases |order|
  {
    if order != [] {
      var id, front := order[|order| - 1], order[..|order| - 1];
      assert order == front + [id];
      assert id !in front && id in order;
      assert forall x :: x in front ==> x in order;
      SweptCount(s, front, candidates, complete);
      AbsentNext(s, front, id, candidates, complete);
      CountWith(AbsentAmong(s, front, candidates, complete), id);
    }
  }

  lemma CountDifference(a: set<string>, b: set<string>)
    requires b <= a
    ensures |a| == |a - b| + |b|
  {
    assert a == (a - b) + b;
  }

  /** What the sweep leaves in a visited row. */
  lemma {:induction false} SweptRow(
    s: Store, order: seq<string>, candidates: seq<Candidate>, complete: set<string>, now: int,
    endpoints: seq<Endpoint>, id: string)
    requires Distinct(order) && (forall x :: x in order ==> x in s.findings) && id in order
    ensures var f, g := s.findings[id], AllSwept(s, order, candidates, complete, now, endpoints).findings[id];
            g == if f.source !in complete then f.(stale := true)
                 else if id in SeenFor(candidates, f.source) then f.(lastEvaluated := now)
                 else f.(lastEvaluated := now, status := Resolved, resolvedAt := Some(now), stale := false)
    decreases |order|
  {
    var n := |order| - 1;
    var front := order[..n];
    assert order == front + [order[n]];
    assert order[n] !in front;
    SweepLeavesOthers(s, front, candidates, complete, now, endpoints, id);
    SweepLeavesOthers(s, front, candidates, complete, now, endpoints, order[n]);
    if id in front {
      SweptRow(s, front, candidates, complete, now, endpoints, id);
    }
  }

  // ----- one evaluation

  ghost function UnresolvedOf(s: Store, source: string): set<string> {
    set id | id in Unresolved(s) && s.findings[id].source == source
  }

  lemma SourceReconciled(
    m: Store, r: Store, order: seq<string>, candidates: seq<Candidate>, complete: set<string>, source: string)
    requires VisitsUnresolved(order, m) && r.findings.Keys == m.findings.Keys && source in complete
    requires forall id :: id in m.findings ==> r.findings[id].source == m.findings[id].source
    requires Unresolved(r) == Unresolved(m) - AbsentAmong(m, order, candidates, complete)
    requires Fingerprints(candidates) <= Unresolved(m)
    requires forall c :: c in candidates ==> c.fingerprint in m.findings && m.findings[c.fingerprint].source == c.source
    ensures UnresolvedOf(r, source) == SeenFor(candidates, source)
  {
    forall id ensures id in Unresolved(r) && r.findings[id].source == source <==> id in SeenFor(candidates, source) {
      if id in SeenFor(candidates, source) {
        var c :| c in candidates && c.source == source && c.fingerprint == id;
        assert id in Fingerprints(candidates);
      }
    }
  }

  /**
   * After an evaluation a complete source's unresolved findings are exactly its candidates; nothing of an
   * incomplete source is resolved, and its unresolved findings are marked stale; and the numbers returned
   * account for every change in the number of unresolved findings, even with repeated candidates.
   */
  lemma EvaluationReconciles(
    s: Store, candidates: seq<Candidate>, complete: set<string>, order: seq<string>, now: int, endpoints: seq<Endpoint>)
    requires VisitsUnresolved(order, AllObserved(s, candidates, now, endpoints))
    requires OneSourceEach(s, candidates)
    ensures var r := Evaluated(s, candidates, complete, order, now, endpoints);
            && (forall source :: source in complete ==>
                  UnresolvedOf(r, source) == SeenFor(candidates, source))
            && (forall id :: id in r.findings && r.findings[id].source !in complete ==>
                  && (id in Unresolved(r) ==> r.findings[id].stale)
                  && (id in Unresolved(s) || id in Fingerprints(candidates) ==> id in Unresolved(r)))
    ensures var r := Evaluated(s, candidates, complete, order, now, endpoints);
            var t := ObservedTally(s, candidates, now, endpoints);
            |Unresolved(r)| + SweptTally(AllObserved(s, candidates, now, endpoints), order, candidates, complete)
            == |Unresolved(s)| + t.created + t.reopened
  {
    var m := AllObserved(s, candidates, now, endpoints);
    var r := Evaluated(s, candidates, complete, order, now, endpoints);
    ObservedUnresolved(s, candidates, now, endpoints);
    ObservedCount(s, candidates, now, endpoints);
    forall c | c in candidates ensures c.fingerprint in m.findings && m.findings[c.fingerprint].source == c.source {
      ObservedSource(s, candidates, now, endpoints, c);
    }
    SweptUnresolved(m, order, candidates, complete, now, endpoints);
    SweptCount(m, order, candidates, complete);
    assert AbsentAmong(m, order, candidates, complete) <= Unresolved(m);
    CountDifference(Unresolved(m), AbsentAmong(m, order, candidates, complete));
    hide AllObserved, AllSwept, ObservedTally, SweptTally;
    forall id | id in m.findings
      ensures r.findings[id].source == m.findings[id].source
      ensures id in Unresolved(r) && r.findings[id].source !in complete ==> r.findings[id].stale
    {
      SweepLeavesOthers(m, order, candidates, complete, now, endpoints, id);
      if id in order {
        SweptRow(m, order, candidates, complete, now, endpoints, id);
      }
    }
    forall source | source in complete
      ensures UnresolvedOf(r, source) == SeenFor(candidates, source)
    {
      SourceReconciled(m, r, order, candidates, complete, source);
    }
  }
}
