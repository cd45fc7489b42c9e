/** Whole histories of findings: evaluations, administrators and retention in any order. */
module FindingHistory {
  import opened Common
  import opened Findings
  import opened FindingLaws

  /** The rows of the log that belong to one finding. */
  function LogOf(transitions: seq<Transition>, id: string): seq<Transition> {
    if transitions == [] then []
    else
      var n := |transitions| - 1;
      LogOf(transitions[..n], id) + if transitions[n].finding == id then [transitions[n]] else []
  }

  /** How often a finding came back by itself. */
  function Recurrences(log: seq<Transition>): nat {
    if log == [] then 0 else Recurrences(log[..|log| - 1]) + if log[|log| - 1].reason.Recurred? then 1 else 0
  }

  /** A resolved finding is left only by being opened, apart from an assignment, which stays where it is. */
  predicate Allowed(t: Transition) {
    && (t.from == Some(Resolved) ==> t.to == Open || (t.to == Resolved && t.reason.Assignment?))
    && (t.reason.Recurred? ==> t.from == Some(Resolved) && t.to == Open)
    && (t.reason.Assignment? ==> t.from == Some(t.to))
  }

  /** An unbroken chain from creation as open to the given status. */
  predicate Chained(log: seq<Transition>, status: Status)
    decreases |log|
  {
    if log == [] then false
    else
      var n := |log| - 1;
      && log[n].to == status && Allowed(log[n])
      && if n == 0 then log[0].from == None && status == Open
         else log[n].from.Some? && Chained(log[..n], log[n].from.value)
  }

  predicate TracedRow(f: Finding, log: seq<Transition>) {
    && Chained(log, f.status)
    && (f.resolvedAt.Some? <==> f.status == Resolved)
    && f.occurrenceCount == 1 + Recurrences(log)
  }

  ghost predicate Traced(s: Store) {
    forall id ::
      if id in s.findings then TracedRow(s.findings[id], LogOf(s.transitions, id)) else LogOf(s.transitions, id) == []
  }

  /** A chain reads as it should: it starts with the creation and each entry starts where the one before ended. */
  lemma {:induction false} ChainedMeans(log: seq<Transition>, status: Status)
    requires Chained(log, status)
    ensures log != [] && log[0].from == None && log[0].to == Open && log[|log| - 1].to == status
    ensures forall i :: 0 < i < |log| ==> log[i].from == Some(log[i - 1].to)
    ensures forall i :: 0 <= i < |log| ==> Allowed(log[i])
    decreases |log|
  {
    var n := |log| - 1;
    if n > 0 {
      ChainedMeans(log[..n], log[n].from.value);
      assert forall i :: 0 <= i < n ==> log[..n][i] == log[i];
    }
  }

  lemma LogOfAppend(transitions: seq<Transition>, t: Transition, id: string)
    ensures LogOf(transitions + [t], id) == LogOf(transitions, id) + if t.finding == id then [t] else []
  {
    assert (transitions + [t])[..|transitions|] == transitions;
  }

  lemma ChainNext(log: seq<Transition>, status: Status, t: Transition)
    requires Chained(log, status) && t.from == Some(status) && Allowed(t)
    ensures Chained(log + [t], t.to)
    ensures Recurrences(log + [t]) == Recurrences(log) + if t.reason.Recurred? then 1 else 0
  {
    assert (log + [t])[..|log|] == log;
  }

  lemma ChainStart(t: Transition)
    requires t.from == None && t.to == Open && t.reason.Created?
    ensures Chained([t], Open) && Recurrences([t]) == 0
  {
    assert [t][..0] == [];
  }

  /** Changing one finding, with at most one new log row that fits, keeps every trace. */
  lemma OneRowKeepsTraces(s: Store, r: Store, id: string, f: Finding, more: seq<Transition>)
    requires Traced(s) && id in s.findings
    requires r.findings == s.findings[id := f] && r.transitions == s.transitions + more
    requires more == [] ==> f.status == s.findings[id].status && f.occurrenceCount == s.findings[id].occurrenceCount
    requires more != [] ==>
      && |more| == 1 && more[0].finding == id && more[0].from == Some(s.findings[id].status) && more[0].to == f.status
      && Allowed(more[0])
      && f.occurrenceCount == s.findings[id].occurrenceCount + if more[0].reason.Recurred? then 1 else 0
    requires f.resolvedAt.Some? <==> f.status == Resolved
    ensures Traced(r)
  {
    hide Chained, Recurrences, LogOf;
    forall x
      ensures if x in r.findings then TracedRow(r.findings[x], LogOf(r.transitions, x))
              else LogOf(r.transitions, x) == []
    {
      if more == [] {
        assert r.transitions == s.transitions;
      } else {
        assert more == [more[0]];
        LogOfAppend(s.transitions, more[0], x);
        if x == id {
          ChainNext(LogOf(s.transitions, id), s.findings[id].status, more[0]);
        } else {
          assert LogOf(s.transitions, x) + [] == LogOf(s.transitions, x);
        }
      }
    }
  }

  lemma MatchedFits(c: Candidate, f: Finding, now: int)
    requires f.resolvedAt.Some? <==> f.status == Resolved
    ensures var u := Matched(c, f, now);
            && |u.transitions| <= 1
            && (u.finding.resolvedAt.Some? <==> u.finding.status == Resolved)
            && (u.transitions == [] ==> u.finding.status == f.status && u.finding.occurrenceCount == f.occurrenceCount)
            && (u.transitions != [] ==>
                  && u.transitions[0].finding == c.fingerprint && u.transitions[0].from == Some(f.status)
                  && u.transitions[0].to == u.finding.status && Allowed(u.transitions[0])
                  && u.finding.occurrenceCount
                     == f.occurrenceCount + if u.transitions[0].reason.Recurred? then 1 else 0)
  {
  }

  lemma CreatedTraced(s: Store, r: Store, id: string, f: Finding)
    requires Traced(s) && id !in s.findings
    requires f.status == Open && f.resolvedAt == None && f.occurrenceCount == 1
    requires r.findings == s.findings[id := f] && r.transitions == s.transitions + [Transition(id, None, Open, Created)]
    ensures Traced(r)
  {
    var t := Transition(id, None, Open, Created);
    ChainStart(t);
    hide Chained, Recurrences, LogOf;
    forall x
      ensures if x in r.findings then TracedRow(r.findings[x], LogOf(r.transitions, x))
              else LogOf(r.transitions, x) == []
    {
      LogOfAppend(s.transitions, t, x);
      if x == id {
        assert LogOf(s.transitions, id) == [];
        assert LogOf(r.transitions, id) == [t];
      } else {
        assert LogOf(s.transitions, x) + [] == LogOf(s.transitions, x);
      }
    }
  }

  lemma ObservedTraced(s: Store, c: Candidate, now: int, endpoints: seq<Endpoint>)
    requires Traced(s)
    ensures Traced(Observed(s, c, now, endpoints))
  {
    var id, r := c.fingerprint, Observed(s, c, now, endpoints);
    if id in s.findings {
      assert TracedRow(s.findings[id], LogOf(s.transitions, id));
      var u := Matched(c, s.findings[id], now);
      MatchedFits(c, s.findings[id], now);
      hide Matched, Chained, LogOf, Recurrences, Traced, Allowed;
      OneRowKeepsTraces(s, r, id, u.finding, u.transitions);
    } else {
      hide Traced;
      CreatedTraced(s, r, id, Fresh(c, now));
    }
  }

  lemma SweptTraced(s: Store, id: string, complete: set<string>, seen: set<string>, now: int, endpoints: seq<Endpoint>)
    requires Traced(s) && id in Unresolved(s)
    ensures Traced(Swept(s, id, complete, seen, now, endpoints))
  {
    var r := Swept(s, id, complete, seen, now, endpoints);
    assert TracedRow(s.findings[id], LogOf(s.transitions, id));
    hide Traced;
    if s.findings[id].source in complete && id !in seen {
      OneRowKeepsTraces(s, r, id, r.findings[id],
                        [Transition(id, Some(s.findings[id].status), Resolved, AbsentFromEvaluation)]);
    } else {
      assert s.transitions + [] == s.transitions;
      OneRowKeepsTraces(s, r, id, r.findings[id], []);
    }
  }

  lemma ActedTraced(s: Store, id: string, actor: string, r: Request)
    requires Traced(s)
    ensures Traced(Acted(s, id, actor, r))
  {
    if id in s.findings && Answered(s, id, r) == Done {
      var f, after := s.findings[id], Acted(s, id, actor, r);
      assert TracedRow(f, LogOf(s.transitions, id));
      hide Traced;
      var reason := if r.Assign? then Assignment(actor) else Administrator(actor);
      var t := Transition(id, Some(f.status), Requested(f, r).status, reason);
      OneRowKeepsTraces(s, after, id, Requested(f, r), [t]);
    }
  }

  lemma {:induction false} LogsOfKept(transitions: seq<Transition>, kept: set<string>, id: string)
    ensures LogOf(LogsOf(transitions, kept), id) == if id in kept then LogOf(transitions, id) else []
  {
    if transitions != [] {
      var n := |transitions| - 1;
      LogsOfKept(transitions[..n], kept, id);
      if transitions[n].finding in kept {
        LogOfAppend(LogsOf(transitions[..n], kept), transitions[n], id);
      } else {
        assert LogsOf(transitions, kept) == LogsOf(transitions[..n], kept);
      }
    }
  }

  lemma {:induction false} OccurrencesOfKept(occurrences: seq<Occurrence>, kept: set<string>)
    ensures forall o :: o in OccurrencesOf(occurrences, kept) <==> o in occurrences && o.finding in kept
  {
    if occurrences != [] {
      var n := |occurrences| - 1;
      OccurrencesOfKept(occurrences[..n], kept);
      assert occurrences == occurrences[..n] + [occurrences[n]];
    }
  }

  lemma {:induction false} NotificationsSinceAre(outbox: seq<Notification>, cutoff: int, kept: set<string>)
    ensures forall note :: note in NotificationsSince(outbox, cutoff, kept)
              <==> exists i :: 0 <= i < |outbox| && cutoff <= outbox[i].at && note == Detached(outbox[i], kept)
  {
    if outbox != [] {
      var n := |outbox| - 1;
      NotificationsSinceAre(outbox[..n], cutoff, kept);
      hide Detached;
      assert forall i :: 0 <= i < n ==> outbox[..n][i] == outbox[i];
    }
  }

  /**
   * Retention keeps exactly the findings that are not resolved since before the cutoff, each unchanged and with its
   * whole log and its occurrences; nothing of the others is left, and no notification names one of them.
   */
  lemma RetiredMeans(s: Store, cutoff: int)
    ensures var r := Retired(s, cutoff);
            && (forall id :: id in r.findings <==>
                  && id in s.findings
                  && !(s.findings[id].status == Resolved && s.findings[id].resolvedAt.Some?
                       && s.findings[id].resolvedAt.value < cutoff))
            && (forall id :: id in r.findings ==> r.findings[id] == s.findings[id])
            && (forall id :: LogOf(r.transitions, id) == if id in r.findings then LogOf(s.transitions, id) else [])
            && (forall o :: o in r.occurrences <==> o in s.occurrences && o.finding in r.findings)
            && (forall note :: note in r.outbox ==>
                  cutoff <= note.at && (note.finding.Some? ==> note in s.outbox && note.finding.value in r.findings))
            && (forall note :: note in s.outbox && cutoff <= note.at ==>
                  (if note.finding.Some? && note.finding.value !in r.findings then note.(finding := None) else note)
                  in r.outbox)
  {
    var kept := set id | id in s.findings && !Expired(s.findings[id], cutoff);
    assert Retired(s, cutoff).findings.Keys == kept;
    forall id { LogsOfKept(s.transitions, kept, id); }
    OccurrencesOfKept(s.occurrences, kept);
    NotificationsSinceAre(s.outbox, cutoff, kept);
  }

  lemma RetiredTraced(s: Store, cutoff: int)
    requires Traced(s)
    ensures Traced(Retired(s, cutoff))
  {
    var kept := set id | id in s.findings && !Expired(s.findings[id], cutoff);
    forall id { LogsOfKept(s.transitions, kept, id); }
  }

  // ----- runs

  datatype Step =
    | Evaluation(
        candidates: seq<Candidate>, complete: set<string>, order: seq<string>, now: int, endpoints: seq<Endpoint>)
    | Administration(id: string, actor: string, request: Request)
    | Retention(cutoff: int)

  /** A step can happen when its sweep visits what is unresolved by then. */
  ghost predicate Enabled(s: Store, e: Step) {
    e.Evaluation? ==> VisitsUnresolved(e.order, AllObserved(s, e.candidates, e.now, e.endpoints))
  }

  ghost function After(s: Store, e: Step): Store
    requires Enabled(s, e)
  {
    match e
    case Evaluation(candidates, complete, order, now, endpoints) =>
      Evaluated(s, candidates, complete, order, now, endpoints)
    case Administration(id, actor, request) => Acted(s, id, actor, request)
    case Retention(cutoff) => Retired(s, cutoff)
  }

  /** The states a history of steps goes through, from empty tables on. */
  ghost predicate History(states: seq<Store>, steps: seq<Step>) {
    && |states| == |steps| + 1 && states[0] == Store(map[], [], [], [])
    && forall i :: 0 <= i < |steps| ==> Enabled(states[i], steps[i]) && states[i + 1] == After(states[i], steps[i])
  }

  lemma {:induction false} AllObservedTraced(s: Store, candidates: seq<Candidate>, now: int, endpoints: seq<Endpoint>)
    requires Traced(s)
    ensures Traced(AllObserved(s, candidates, now, endpoints))
    decreases |candidates|
  {
    hide Traced, Observed;
    if candidates != [] {
      AllObservedTraced(s, candidates[..|candidates| - 1], now, endpoints);
      ObservedTraced(AllObserved(s, candidates[..|candidates| - 1], now, endpoints), candidates[|candidates| - 1],
                     now, endpoints);
    }
  }

  lemma {:induction false} AllSweptTraced(
    s: Store, order: seq<string>, candidates: seq<Candidate>, complete: set<string>, now: int, endpoints: seq<Endpoint>)
    requires Traced(s) && Distinct(order) && (forall id :: id in order ==> id in s.findings)
    requires forall id :: id in order ==> id in Unresolved(s)
    ensures Traced(AllSwept(s, order, candidates, complete, now, endpoints))
    decreases |order|
  {
    hide Traced, Swept, TracedRow;
    if order != [] {
      var id, front := order[|order| - 1], order[..|order| - 1];
      assert order == front + [id] && id !in front && id in order;
      assert forall x :: x in front ==> x in order;
      AllSweptTraced(s, front, candidates, complete, now, endpoints);
      SweptNext(s, front, id, candidates, complete, now, endpoints);
      var before := AllSwept(s, front, candidates, complete, now, endpoints);
      assert id in Unresolved(before);
      SweptTraced(before, id, complete, SeenFor(candidates, s.findings[id].source), now, endpoints);
    }
  }

  lemma StepTraced(s: Store, e: Step)
    requires Traced(s) && Enabled(s, e)
    ensures Traced(After(s, e))
  {
    hide Traced, TracedRow;
    match e
    case Evaluation(candidates, complete, order, now, endpoints) =>
      AllObservedTraced(s, candidates, now, endpoints);
      AllSweptTraced(AllObserved(s, candidates, now, endpoints), order, candidates, complete, now, endpoints);
    case Administration(id, actor, request) => ActedTraced(s, id, actor, request);
    case Retention(cutoff) => RetiredTraced(s, cutoff);
  }

  /**
   * In every reachable state each finding's log is an unbroken chain from its creation as open to its status,
   * resolved is left only for open or by an assignment that stays, the resolution time is set exactly while it
   * is resolved, and its occurrence count is one more than its automatic recurrences. A finding that retention
   * removed has no log.
   */
  lemma {:induction false} EveryHistoryIsTraced(states: seq<Store>, steps: seq<Step>, i: nat)
    requires History(states, steps) && i < |states|
    ensures Traced(states[i])
  {
    if i > 0 {
      EveryHistoryIsTraced(states, steps, i - 1);
      hide Traced, After;
      StepTraced(states[i - 1], steps[i - 1]);
    }
  }

  // ----- fingerprints that name their source

  /** Fingerprints are made from the source, among other things: each belongs to one. */
  ghost predicate Named(candidates: seq<Candidate>, source: string -> string) {
    forall i :: 0 <= i < |candidates| ==> candidates[i].source == source(candidates[i].fingerprint)
  }

  ghost predicate Sourced(s: Store, source: string -> string) {
    forall id :: id in s.findings ==> s.findings[id].source == source(id)
  }

  lemma {:induction false} AllObservedSourced(
    s: Store, candidates: seq<Candidate>, now: int, endpoints: seq<Endpoint>, source: string -> string)
    requires Sourced(s, source) && Named(candidates, source)
    ensures Sourced(AllObserved(s, candidates, now, endpoints), source)
    decreases |candidates|
  {
    if candidates != [] {
      var n := |candidates| - 1;
      AllObservedSourced(s, candidates[..n], now, endpoints, source);
      hide Observed;
      ObserveOne(AllObserved(s, candidates[..n], now, endpoints), candidates[n], now, endpoints);
    }
  }

  lemma StepSourced(s: Store, e: Step, source: string -> string)
    requires Sourced(s, source) && Enabled(s, e) && (e.Evaluation? ==> Named(e.candidates, source))
    ensures Sourced(After(s, e), source)
  {
    match e
    case Evaluation(candidates, complete, order, now, endpoints) =>
      AllObservedSourced(s, candidates, now, endpoints, source);
      var m := AllObserved(s, candidates, now, endpoints);
      hide AllObserved, AllSwept;
      forall id | id in m.findings ensures After(s, e).findings[id].source == source(id) {
        SweepLeavesOthers(m, order, candidates, complete, now, endpoints, id);
      }
    case _ =>
  }

  lemma {:induction false} HistorySourced(states: seq<Store>, steps: seq<Step>, i: nat, source: string -> string)
    requires History(states, steps) && i < |states|
    requires forall j :: 0 <= j < |steps| && steps[j].Evaluation? ==> Named(steps[j].candidates, source)
    ensures Sourced(states[i], source)
  {
    if i > 0 {
      HistorySourced(states, steps, i - 1, source);
      hide Sourced, After, Named;
      StepSourced(states[i - 1], steps[i - 1], source);
    }
  }

  /**
   * In every history whose fingerprints name their source, each evaluation reconciles: afterwards the unresolved
   * findings of a complete source are exactly its candidates, and those of the others are stale.
   */
  lemma EveryEvaluationReconciles(states: seq<Store>, steps: seq<Step>, i: nat, source: string -> string)
    requires History(states, steps) && i < |steps| && steps[i].Evaluation?
    requires forall j :: 0 <= j < |steps| && steps[j].Evaluation? ==> Named(steps[j].candidates, source)
    ensures OneSourceEach(states[i], steps[i].candidates)
    ensures forall x :: x in steps[i].complete ==> UnresolvedOf(states[i + 1], x) == SeenFor(steps[i].candidates, x)
    ensures var r := states[i + 1];
            forall id :: id in r.findings && id in Unresolved(r) && r.findings[id].source !in steps[i].complete
              ==> r.findings[id].stale
  {
    var s, e := states[i], steps[i];
    HistorySourced(states, steps, i, source);
    assert OneSourceEach(s, e.candidates);
    hide Sourced, Named, AllObserved, AllSwept, ObservedTally, SweptTally;
    EvaluationReconciles(s, e.candidates, e.complete, e.order, e.now, e.endpoints);
  }

  // ----- repeated candidates

  const HIGH := Candidate("f", "s", High, "t", "e")
  const LOW := Candidate("f", "s", Low, "t", "e")

  lemma PairObserved(s: Store, a: Candidate, b: Candidate, now: int)
    ensures AllObserved(s, [a, b], now, []) == Observed(Observed(s, a, now, []), b, now, [])
  {
    assert [a, b][..1] == [a] && [a][..0] == [];
    assert AllObserved(s, [a], now, []) == Observed(s, a, now, []);
  }

  lemma PairSwept(m: Store)
    requires m.findings.Keys == {"f"} && m.findings["f"].source == "s" && m.findings["f"].status == Open
    ensures VisitsUnresolved(["f"], m)
    ensures AllSwept(m, ["f"], [HIGH, LOW], {"s"}, 0, [])
            == m.(findings := m.findings["f" := m.findings["f"].(lastEvaluated := 0)])
  {
    assert ["f"][..0] == [];
    assert HIGH in [HIGH, LOW] && "f" in SeenFor([HIGH, LOW], "s");
    assert Unresolved(m) == {"f"};
  }

  /** What two candidates of one fingerprint do to a finding that the second of them left behind. */
  lemma PairStirs(r: Store)
    requires r.findings.Keys == {"f"} && r.findings["f"].source == "s"
    requires r.findings["f"].status == Open && r.findings["f"].severity == Low && r.findings["f"].evidence == "e"
    ensures var m := AllObserved(r, [HIGH, LOW], 0, []);
            && m.occurrences == r.occurrences + [Occurrence("f", SeverityUp, High, "e", 0)]
            && m.findings.Keys == {"f"} && m.findings["f"].source == "s" && m.findings["f"].status == Open
  {
    PairObserved(r, HIGH, LOW, 0);
    var m := Observed(r, HIGH, 0, []);
    assert m.findings["f"].severity == High && m.findings["f"].evidence == "e";
  }

  lemma PairCreates()
    ensures var m := AllObserved(Store(map[], [], [], []), [HIGH, LOW], 0, []);
            && m.findings.Keys == {"f"} && m.findings["f"].source == "s"
            && m.findings["f"].status == Open && m.findings["f"].severity == Low && m.findings["f"].evidence == "e"
  {
    PairObserved(Store(map[], [], [], []), HIGH, LOW, 0);
  }

  /** With a repeated fingerprint a second evaluation at the same instant is not silent: the severity see-saws. */
  lemma RepeatedCandidatesStir()
    ensures OneSourceEach(Store(map[], [], [], []), [HIGH, LOW])
    ensures VisitsUnresolved(["f"], AllObserved(Store(map[], [], [], []), [HIGH, LOW], 0, []))
    ensures var r := Evaluated(Store(map[], [], [], []), [HIGH, LOW], {"s"}, ["f"], 0, []);
            && VisitsUnresolved(["f"], AllObserved(r, [HIGH, LOW], 0, []))
            && Evaluated(r, [HIGH, LOW], {"s"}, ["f"], 0, []).occurrences
               == r.occurrences + [Occurrence("f", SeverityUp, High, "e", 0)]
  {
    hide AllObserved, AllSwept, VisitsUnresolved;
    PairCreates();
    PairSwept(AllObserved(Store(map[], [], [], []), [HIGH, LOW], 0, []));
    var r := Evaluated(Store(map[], [], [], []), [HIGH, LOW], {"s"}, ["f"], 0, []);
    PairStirs(r);
    PairSwept(AllObserved(r, [HIGH, LOW], 0, []));
  }
}
