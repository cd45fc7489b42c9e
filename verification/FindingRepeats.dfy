/** What evaluating the same candidates a second time at the same instant does. */
module FindingRepeats {
  import opened Common
  import opened Findings
  import opened FindingLaws

  // ----- what the first evaluation leaves

  /** A finding whose severity and evidence are the candidate's, and that was evaluated at `now`. */
  predicate Agrees(f: Finding, c: Candidate, now: int) {
    && f.status != Resolved
    && f.severity == c.severity && f.evidence == c.evidence
    && f.lastSeen == now && f.lastEvaluated == now
    && !(f.status == Suppressed && f.suppressedUntil.Some? && f.suppressedUntil.value <= now)
  }

  /** A finding that already says everything its candidate says. */
  predicate Settled(f: Finding, c: Candidate, now: int) {
    Agrees(f, c, now) && f.content == c.content
  }

  lemma MatchingSettles(c: Candidate, f: Finding, now: int)
    ensures Settled(Matched(c, f, now).finding, c, now) && !Matched(c, f, now).finding.stale
    ensures Settled(Fresh(c, now), c, now) && !Fresh(c, now).stale
    ensures Agrees(f, c, now) ==>
              Matched(c, f, now) == Update(f.(stale := false, content := c.content), [], None, false)
  {
  }

  /** The last candidate with a fingerprint. */
  function LastFor(candidates: seq<Candidate>, id: string): (c: Candidate)
    requires id in Fingerprints(candidates)
    ensures c in candidates && c.fingerprint == id
  {
    var n := |candidates| - 1;
    assert candidates == candidates[..n] + [candidates[n]];
    if candidates[n].fingerprint == id then candidates[n] else LastFor(candidates[..n], id)
  }

  lemma LastForNext(front: seq<Candidate>, last: Candidate, id: string)
    requires id == last.fingerprint || id in Fingerprints(front)
    ensures id in Fingerprints(front + [last])
    ensures LastFor(front + [last], id) == if id == last.fingerprint then last else LastFor(front, id)
  {
    FingerprintsNext(front, last);
    assert (front + [last])[..|front|] == front;
  }

  /** After the candidates a finding says what the last of its candidates says. */
  lemma {:induction false} ObservingSettles(
    s: Store, candidates: seq<Candidate>, now: int, endpoints: seq<Endpoint>, id: string)
    requires id in Fingerprints(candidates)
    ensures var r := AllObserved(s, candidates, now, endpoints).findings;
            id in r && Settled(r[id], LastFor(candidates, id), now) && !r[id].stale
    decreases |candidates|
  {
    assert candidates != [];
    hide Observed, AllObserved, Settled, Matched, Fresh, LastFor, Fingerprints, Unresolved;
    var last, front := candidates[|candidates| - 1], candidates[..|candidates| - 1];
    assert candidates == front + [last];
    FingerprintsNext(front, last);
    LastForNext(front, last, id);
    var before := AllObserved(s, front, now, endpoints);
    if id != last.fingerprint {
      ObservingSettles(s, front, now, endpoints, id);
    } else if id in before.findings {
      MatchingSettles(last, before.findings[id], now);
    } else {
      MatchingSettles(last, Fresh(last, now), now);
    }
    ObservedNext(s, front, last, now, endpoints);
    ObserveOne(before, last, now, endpoints);
  }

  predicate EvaluatedRow(f: Finding, id: string, candidates: seq<Candidate>, complete: set<string>, now: int) {
    if f.source in complete then id in SeenFor(candidates, f.source) && !f.stale && f.lastEvaluated == now else f.stale
  }

  /** A store that an evaluation of the candidates at `now` has left. */
  ghost predicate Stable(s: Store, candidates: seq<Candidate>, complete: set<string>, now: int) {
    && (forall id :: id in Fingerprints(candidates) ==>
          id in s.findings && Settled(s.findings[id], LastFor(candidates, id), now))
    && (forall id :: id in Unresolved(s) ==> EvaluatedRow(s.findings[id], id, candidates, complete, now))
  }

  lemma CandidateStaysSettled(
    s: Store, candidates: seq<Candidate>, complete: set<string>, order: seq<string>, now: int, endpoints: seq<Endpoint>,
    id: string)
    requires VisitsUnresolved(order, AllObserved(s, candidates, now, endpoints))
    requires OneSourceEach(s, candidates) && id in Fingerprints(candidates)
    ensures var r := Evaluated(s, candidates, complete, order, now, endpoints).findings;
            && id in r && Settled(r[id], LastFor(candidates, id), now)
            && (r[id].source in complete ==> !r[id].stale)
  {
    var m, c := AllObserved(s, candidates, now, endpoints), LastFor(candidates, id);
    ObservedUnresolved(s, candidates, now, endpoints);
    ObservedSource(s, candidates, now, endpoints, c);
    ObservingSettles(s, candidates, now, endpoints, id);
    assert id in SeenFor(candidates, c.source);
    hide AllObserved, AllSwept, Fingerprints, SeenFor, OneSourceEach, LastFor;
    SweptRow(m, order, candidates, complete, now, endpoints, id);
  }

  lemma CompleteSourceIsFresh(
    s: Store, candidates: seq<Candidate>, complete: set<string>, order: seq<string>, now: int, endpoints: seq<Endpoint>,
    id: string)
    requires VisitsUnresolved(order, AllObserved(s, candidates, now, endpoints)) && OneSourceEach(s, candidates)
    requires var r := Evaluated(s, candidates, complete, order, now, endpoints);
             id in Unresolved(r) && r.findings[id].source in complete
    ensures var f := Evaluated(s, candidates, complete, order, now, endpoints).findings[id];
            id in SeenFor(candidates, f.source) && !f.stale && f.lastEvaluated == now
  {
    var r := Evaluated(s, candidates, complete, order, now, endpoints);
    var source := r.findings[id].source;
    assert UnresolvedOf(r, source) == SeenFor(candidates, source) by {
      EvaluationReconciles(s, candidates, complete, order, now, endpoints);
    }
    assert id in UnresolvedOf(r, source);
    hide Evaluated;
    var c :| c in candidates && c.source == source && c.fingerprint == id;
    CandidateStaysSettled(s, candidates, complete, order, now, endpoints, id);
  }

  lemma EvaluationIsStable(
    s: Store, candidates: seq<Candidate>, complete: set<string>, order: seq<string>, now: int, endpoints: seq<Endpoint>)
    requires VisitsUnresolved(order, AllObserved(s, candidates, now, endpoints)) && OneSourceEach(s, candidates)
    ensures Stable(Evaluated(s, candidates, complete, order, now, endpoints), candidates, complete, now)
  {
    var r := Evaluated(s, candidates, complete, order, now, endpoints);
    EvaluationReconciles(s, candidates, complete, order, now, endpoints);
    hide Evaluated, OneSourceEach, Settled, SeenFor, VisitsUnresolved, Fingerprints, LastFor;
    forall id | id in Fingerprints(candidates)
      ensures id in r.findings && Settled(r.findings[id], LastFor(candidates, id), now)
    {
      CandidateStaysSettled(s, candidates, complete, order, now, endpoints, id);
    }
    forall id | id in Unresolved(r) ensures EvaluatedRow(r.findings[id], id, candidates, complete, now) {
      if r.findings[id].source in complete {
        CompleteSourceIsFresh(s, candidates, complete, order, now, endpoints, id);
      }
    }
  }

  // ----- reading agreeing candidates again

  /** Candidates of one fingerprint have the same severity and the same evidence. */
  ghost predicate Agreeing(candidates: seq<Candidate>) {
    forall c, d :: c in candidates && d in candidates && c.fingerprint == d.fingerprint
      ==> c.severity == d.severity && c.evidence == d.evidence
  }

  /** Findings after settled candidates have been read again. */
  function Reread(findings: map<string, Finding>, candidates: seq<Candidate>): map<string, Finding> {
    map id | id in findings ::
      if id in Fingerprints(candidates) then findings[id].(stale := false, content := LastFor(candidates, id).content)
      else findings[id]
  }

  lemma RereadNext(findings: map<string, Finding>, front: seq<Candidate>, last: Candidate)
    requires last.fingerprint in findings
    ensures var id := last.fingerprint;
            Reread(findings, front + [last])
            == Reread(findings, front)[id := findings[id].(stale := false, content := last.content)]
  {
    hide LastFor, Fingerprints;
    FingerprintsNext(front, last);
    forall id | id in findings && id in Fingerprints(front + [last])
      ensures LastFor(front + [last], id) == if id == last.fingerprint then last else LastFor(front, id)
    {
      LastForNext(front, last, id);
    }
  }

  lemma RereadOne(s: Store, front: seq<Candidate>, last: Candidate, now: int, endpoints: seq<Endpoint>)
    requires last.fingerprint in s.findings && Agrees(s.findings[last.fingerprint], last, now)
    ensures Observed(s.(findings := Reread(s.findings, front)), last, now, endpoints)
            == s.(findings := Reread(s.findings, front + [last]))
    ensures last.fingerprint in Unresolved(s.(findings := Reread(s.findings, front)))
  {
    var t, id := s.(findings := Reread(s.findings, front)), last.fingerprint;
    var f := t.findings[id];
    RereadNext(s.findings, front, last);
    MatchingSettles(last, f, now);
    hide Matched, Reread;
    assert f.(stale := false, content := last.content) == s.findings[id].(stale := false, content := last.content);
    assert t.transitions + [] == t.transitions && t.occurrences + [] == t.occurrences && t.outbox + [] == t.outbox;
  }

  /** Reading candidates that agree with their findings writes nothing and changes texts and stale marks only. */
  lemma {:induction false} ReadingAgain(s: Store, candidates: seq<Candidate>, now: int, endpoints: seq<Endpoint>)
    requires forall c :: c in candidates ==>
               c.fingerprint in s.findings && Agrees(s.findings[c.fingerprint], c, now)
    ensures AllObserved(s, candidates, now, endpoints) == s.(findings := Reread(s.findings, candidates))
    decreases |candidates|
  {
    if candidates == [] {
      assert Reread(s.findings, []) == s.findings;
    } else {
      var last, front := candidates[|candidates| - 1], candidates[..|candidates| - 1];
      assert candidates == front + [last];
      ReadingAgain(s, front, now, endpoints);
      hide Observed, AllObserved, Reread, Agrees;
      ObservedNext(s, front, last, now, endpoints);
      RereadOne(s, front, last, now, endpoints);
    }
  }

  // ----- sweeping again

  function Restaled(findings: map<string, Finding>, ids: set<string>, complete: set<string>): map<string, Finding> {
    map id | id in findings ::
      if id in ids && findings[id].source !in complete then findings[id].(stale := true) else findings[id]
  }

  lemma SweepQuietly(
    s: Store, ids: set<string>, id: string, candidates: seq<Candidate>, complete: set<string>, now: int,
    endpoints: seq<Endpoint>)
    requires id in s.findings && id !in ids
    requires s.findings[id].source in complete ==>
               id in SeenFor(candidates, s.findings[id].source) && s.findings[id].lastEvaluated == now
    ensures Swept(s.(findings := Restaled(s.findings, ids, complete)), id, complete,
                  SeenFor(candidates, s.findings[id].source), now, endpoints)
            == s.(findings := Restaled(s.findings, ids + {id}, complete))
  {
    var before := Restaled(s.findings, ids, complete);
    var f := s.findings[id];
    assert before[id] == f;
    if f.source in complete {
      assert f.(lastEvaluated := now) == f;
      assert before[id := f] == Restaled(s.findings, ids + {id}, complete);
    } else {
      assert before[id := f.(stale := true)] == Restaled(s.findings, ids + {id}, complete);
    }
  }

  function Elements(order: seq<string>): set<string> {
    set id | id in order
  }

  /** Sweeping when nothing is absent only sets stale marks. */
  lemma {:induction false} SweepingAgain(
    s: Store, order: seq<string>, candidates: seq<Candidate>, complete: set<string>, now: int, endpoints: seq<Endpoint>)
    requires Distinct(order) && forall id :: id in order ==> id in s.findings
    requires forall id :: id in order && s.findings[id].source in complete ==>
               id in SeenFor(candidates, s.findings[id].source) && s.findings[id].lastEvaluated == now
    ensures AllSwept(s, order, candidates, complete, now, endpoints)
            == s.(findings := Restaled(s.findings, Elements(order), complete))
    decreases |order|
  {
    if order == [] {
      assert Restaled(s.findings, Elements(order), complete) == s.findings;
    } else {
      var id, front := order[|order| - 1], order[..|order| - 1];
      assert order == front + [id] && id in order && id !in front;
      assert forall x :: x in front ==> x in order;
      SweepingAgain(s, front, candidates, complete, now, endpoints);
      assert Elements(order) == Elements(front) + {id} && id !in Elements(front);
      hide Swept, Restaled, SeenFor, AllSwept, Elements;
      SweptNext(s, front, id, candidates, complete, now, endpoints);
      SweepQuietly(s, Elements(front), id, candidates, complete, now, endpoints);
    }
  }

  lemma StaleMarksReturn(
    r: Store, candidates: seq<Candidate>, complete: set<string>, ids: set<string>, now: int)
    requires Stable(r, candidates, complete, now) && ids == Unresolved(r)
    ensures Restaled(Reread(r.findings, candidates), ids, complete) == r.findings
  {
    hide SeenFor, Fingerprints, LastFor;
    var fs := Restaled(Reread(r.findings, candidates), ids, complete);
    forall id | id in r.findings ensures fs[id] == r.findings[id] {
      if id in Unresolved(r) {
        assert EvaluatedRow(r.findings[id], id, candidates, complete, now);
      } else {
        assert id !in Fingerprints(candidates);
      }
    }
  }

  lemma AgreeingRowsAgree(r: Store, candidates: seq<Candidate>, complete: set<string>, now: int)
    requires Stable(r, candidates, complete, now) && Agreeing(candidates)
    ensures forall c :: c in candidates ==> c.fingerprint in r.findings && Agrees(r.findings[c.fingerprint], c, now)
  {
    hide SeenFor;
    forall c | c in candidates ensures c.fingerprint in r.findings && Agrees(r.findings[c.fingerprint], c, now) {
      assert c.fingerprint in Fingerprints(candidates);
      var d := LastFor(candidates, c.fingerprint);
      assert d.severity == c.severity && d.evidence == c.evidence;
    }
  }

  lemma StableIsFixed(
    r: Store, candidates: seq<Candidate>, complete: set<string>, again: seq<string>, now: int, endpoints: seq<Endpoint>)
    requires Stable(r, candidates, complete, now) && Agreeing(candidates)
    requires VisitsUnresolved(again, AllObserved(r, candidates, now, endpoints))
    ensures Evaluated(r, candidates, complete, again, now, endpoints) == r
  {
    AgreeingRowsAgree(r, candidates, complete, now);
    ReadingAgain(r, candidates, now, endpoints);
    var m := AllObserved(r, candidates, now, endpoints);
    hide AllObserved, AllSwept, Agrees, Agreeing, Fingerprints, LastFor, SeenFor;
    assert Unresolved(m) == Unresolved(r);
    forall id | id in again && m.findings[id].source in complete
      ensures id in SeenFor(candidates, m.findings[id].source) && m.findings[id].lastEvaluated == now
    {
      assert EvaluatedRow(r.findings[id], id, candidates, complete, now);
    }
    SweepingAgain(m, again, candidates, complete, now, endpoints);
    StaleMarksReturn(r, candidates, complete, Elements(again), now);
  }

  // ----- candidates that do not agree

  lemma QuietOne(s: Store, c: Candidate, now: int, endpoints: seq<Endpoint>)
    requires c.fingerprint in s.findings
    ensures var r, f := Observed(s, c, now, endpoints), s.findings[c.fingerprint];
            && |s.occurrences| <= |r.occurrences|
            && (|r.occurrences| == |s.occurrences| ==>
                  c.evidence == f.evidence && f.severity.Order() <= c.severity.Order())
            && r.findings[c.fingerprint].severity == c.severity && r.findings[c.fingerprint].evidence == c.evidence
  {
  }

  /** Severities between a finding's severity before some candidates and after them. */
  predicate Between(before: Finding, c: Candidate, after: Finding) {
    && c.evidence == before.evidence
    && before.severity.Order() <= c.severity.Order() <= after.severity.Order()
  }

  /** When candidates write no occurrence, evidence stays and severities only fall. */
  lemma {:induction false} QuietCandidates(
    s: Store, candidates: seq<Candidate>, now: int, endpoints: seq<Endpoint>, id: string)
    requires id in s.findings && forall c :: c in candidates ==> c.fingerprint in s.findings
    ensures var r := AllObserved(s, candidates, now, endpoints);
            && |s.occurrences| <= |r.occurrences| && s.findings.Keys <= r.findings.Keys
            && (|r.occurrences| == |s.occurrences| ==>
                  && r.findings[id].evidence == s.findings[id].evidence
                  && s.findings[id].severity.Order() <= r.findings[id].severity.Order()
                  && forall c :: c in candidates && c.fingerprint == id ==> Between(s.findings[id], c, r.findings[id]))
    decreases |candidates|
  {
    if candidates != [] {
      var last, front := candidates[|candidates| - 1], candidates[..|candidates| - 1];
      assert candidates == front + [last] && last in candidates;
      assert forall c :: c in front ==> c in candidates;
      QuietCandidates(s, front, now, endpoints, id);
      var before := AllObserved(s, front, now, endpoints);
      hide Observed, AllObserved, Matched, Fresh, Unresolved;
      ObservedNext(s, front, last, now, endpoints);
      ObserveOne(before, last, now, endpoints);
      QuietOne(before, last, now, endpoints);
    }
  }

  lemma OrderIsInjective(a: Severity, b: Severity)
    requires a.Order() == b.Order()
    ensures a == b
  {
  }

  lemma SaysItsRow(
    r: Store, candidates: seq<Candidate>, complete: set<string>, now: int, endpoints: seq<Endpoint>, c: Candidate)
    requires Stable(r, candidates, complete, now) && c in candidates
    requires |AllObserved(r, candidates, now, endpoints).occurrences| == |r.occurrences|
    ensures c.fingerprint in r.findings
    ensures c.severity == r.findings[c.fingerprint].severity && c.evidence == r.findings[c.fingerprint].evidence
  {
    var id := c.fingerprint;
    assert forall d :: d in candidates ==> d.fingerprint in Fingerprints(candidates);
    QuietCandidates(r, candidates, now, endpoints, id);
    ObservingSettles(r, candidates, now, endpoints, id);
    hide AllObserved, LastFor;
    assert Settled(r.findings[id], LastFor(candidates, id), now);
    OrderIsInjective(c.severity, r.findings[id].severity);
  }

  /** On a stable store only agreeing candidates write no occurrence. */
  lemma QuietIsAgreeing(
    r: Store, candidates: seq<Candidate>, complete: set<string>, now: int, endpoints: seq<Endpoint>)
    requires Stable(r, candidates, complete, now)
    ensures |r.occurrences| <= |AllObserved(r, candidates, now, endpoints).occurrences|
    ensures |AllObserved(r, candidates, now, endpoints).occurrences| == |r.occurrences| ==> Agreeing(candidates)
  {
    var m := AllObserved(r, candidates, now, endpoints);
    assert forall c :: c in candidates ==> c.fingerprint in Fingerprints(candidates);
    if candidates == [] {
      assert m == r;
    } else {
      QuietCandidates(r, candidates, now, endpoints, candidates[0].fingerprint);
    }
    hide AllObserved, Settled, LastFor, Stable;
    if |m.occurrences| == |r.occurrences| {
      forall c | c in candidates
        ensures c.fingerprint in r.findings
        ensures c.severity == r.findings[c.fingerprint].severity && c.evidence == r.findings[c.fingerprint].evidence
      {
        SaysItsRow(r, candidates, complete, now, endpoints, c);
      }
    }
  }

  lemma {:induction false} SweepWritesNoOccurrence(
    s: Store, order: seq<string>, candidates: seq<Candidate>, complete: set<string>, now: int, endpoints: seq<Endpoint>)
    requires forall id :: id in order ==> id in s.findings
    ensures AllSwept(s, order, candidates, complete, now, endpoints).occurrences == s.occurrences
    decreases |order|
  {
    if order != [] {
      assert forall id :: id in order[..|order| - 1] ==> id in order;
      SweepWritesNoOccurrence(s, order[..|order| - 1], candidates, complete, now, endpoints);
    }
  }

  // ----- main results

  /**
   * Evaluating the same candidates again at the same instant changes nothing at all iff candidates of one
   * fingerprint agree on severity and evidence; otherwise it writes an occurrence.
   */
  lemma SecondEvaluationIsSilentIff(
    s: Store, candidates: seq<Candidate>, complete: set<string>, order: seq<string>, again: seq<string>, now: int,
    endpoints: seq<Endpoint>)
    requires VisitsUnresolved(order, AllObserved(s, candidates, now, endpoints)) && OneSourceEach(s, candidates)
    requires var r := Evaluated(s, candidates, complete, order, now, endpoints);
             VisitsUnresolved(again, AllObserved(r, candidates, now, endpoints))
    ensures var r := Evaluated(s, candidates, complete, order, now, endpoints);
            && (Evaluated(r, candidates, complete, again, now, endpoints) == r <==> Agreeing(candidates))
            && (|Evaluated(r, candidates, complete, again, now, endpoints).occurrences| > |r.occurrences|
                <==> !Agreeing(candidates))
  {
    var r := Evaluated(s, candidates, complete, order, now, endpoints);
    EvaluationIsStable(s, candidates, complete, order, now, endpoints);
    SweepWritesNoOccurrence(AllObserved(r, candidates, now, endpoints), again, candidates, complete, now, endpoints);
    QuietIsAgreeing(r, candidates, complete, now, endpoints);
    if Agreeing(candidates) {
      StableIsFixed(r, candidates, complete, again, now, endpoints);
    }
  }

  lemma FingerprintsAreUnresolved(r: Store, candidates: seq<Candidate>, complete: set<string>, now: int)
    requires Stable(r, candidates, complete, now)
    ensures Fingerprints(candidates) <= Unresolved(r)
  {
    hide LastFor, Fingerprints;
  }

  lemma {:induction false} NothingSwept(
    s: Store, order: seq<string>, candidates: seq<Candidate>, complete: set<string>)
    requires forall id :: id in order ==> id in s.findings && !Absent(s, id, candidates, complete)
    ensures SweptTally(s, order, candidates, complete) == 0
    decreases |order|
  {
    if order != [] {
      assert forall id :: id in order[..|order| - 1] ==> id in order;
      assert order[|order| - 1] in order;
      NothingSwept(s, order[..|order| - 1], candidates, complete);
    }
  }

  lemma NotAbsent(
    r: Store, candidates: seq<Candidate>, complete: set<string>, now: int, endpoints: seq<Endpoint>, id: string)
    requires Stable(r, candidates, complete, now) && id in Unresolved(r)
    ensures var m := AllObserved(r, candidates, now, endpoints);
            id in m.findings && !Absent(m, id, candidates, complete)
  {
    assert EvaluatedRow(r.findings[id], id, candidates, complete, now);
    ObservedKeepsSource(r, candidates, now, endpoints, id);
  }

  lemma {:induction false} ObservedTallyResolvesNone(
    s: Store, candidates: seq<Candidate>, now: int, endpoints: seq<Endpoint>)
    ensures ObservedTally(s, candidates, now, endpoints).resolved == 0
    decreases |candidates|
  {
    if candidates != [] {
      ObservedTallyResolvesNone(s, candidates[..|candidates| - 1], now, endpoints);
    }
  }

  lemma StableReturnsZeros(
    r: Store, candidates: seq<Candidate>, complete: set<string>, again: seq<string>, now: int, endpoints: seq<Endpoint>)
    requires Stable(r, candidates, complete, now)
    requires VisitsUnresolved(again, AllObserved(r, candidates, now, endpoints))
    ensures ObservedTally(r, candidates, now, endpoints) == Tally(0, 0, 0)
    ensures SweptTally(AllObserved(r, candidates, now, endpoints), again, candidates, complete) == 0
  {
    hide AllObserved, Stable, Fingerprints, ObservedTally, SweptTally, Absent, Unresolved;
    FingerprintsAreUnresolved(r, candidates, complete, now);
    var m := AllObserved(r, candidates, now, endpoints);
    ObservedUnresolved(r, candidates, now, endpoints);
    assert Unresolved(m) == Unresolved(r);
    ObservedCount(r, candidates, now, endpoints);
    ObservedTallyResolvesNone(r, candidates, now, endpoints);
    forall id | id in again ensures id in m.findings && !Absent(m, id, candidates, complete) {
      NotAbsent(r, candidates, complete, now, endpoints, id);
    }
    NothingSwept(m, again, candidates, complete);
  }

  /** Whatever the candidates, a second evaluation at the same instant creates, reopens and resolves nothing. */
  lemma SecondEvaluationReturnsZeros(
    s: Store, candidates: seq<Candidate>, complete: set<string>, order: seq<string>, again: seq<string>, now: int,
    endpoints: seq<Endpoint>)
    requires VisitsUnresolved(order, AllObserved(s, candidates, now, endpoints)) && OneSourceEach(s, candidates)
    requires var r := Evaluated(s, candidates, complete, order, now, endpoints);
             VisitsUnresolved(again, AllObserved(r, candidates, now, endpoints))
    ensures var r := Evaluated(s, candidates, complete, order, now, endpoints);
            && ObservedTally(r, candidates, now, endpoints) == Tally(0, 0, 0)
            && SweptTally(AllObserved(r, candidates, now, endpoints), again, candidates, complete) == 0
  {
    EvaluationIsStable(s, candidates, complete, order, now, endpoints);
    StableReturnsZeros(
      Evaluated(s, candidates, complete, order, now, endpoints), candidates, complete, again, now, endpoints);
  }
}
