/** What holds of deliveries and endpoints over any sequence of cycles and edits. */
module OutboxLaws {
  import opened Common
  import opened Outbox

  // ----- one attempt

  /**
   * An attempt on a live delivery ends it or schedules it again, no later than six hours ahead; it counts once,
   * or twice when the answer's Retry-After cannot be converted.
   */
  lemma AttemptMeans(d: Delivery, outcome: Outcome, now: int)
    requires Live(d)
    ensures var r := Attempted(d, outcome, now);
            && r.endpoint == d.endpoint && r.status != Pending && r.status != Cancelled
            && (r.status == Retrying ==> now <= r.nextAttempt <= now + LONGEST_DELAY && r.attempts <= 5)
            && (r.status == Delivered <==> outcome.Answered? && 200 <= outcome.code < 300)
            && d.attempts < r.attempts <= d.attempts + 2
            && (r.attempts == d.attempts + 2 <==>
                  && outcome.Answered? && outcome.retryAfter.Unconvertible?
                  && (outcome.code == 429 || outcome.code >= 500))
  {
  }

  lemma {:induction false} TakenCount(ids: seq<string>)
    requires Distinct(ids)
    ensures |set id | id in ids| == |ids|
    decreases |ids|
  {
    if ids != [] {
      var n := |ids| - 1;
      TakenCount(ids[..n]);
      assert (set id | id in ids) == (set id | id in ids[..n]) + {ids[n]};
    }
  }

  lemma SubsetFills(a: set<string>, b: set<string>)
    requires a <= b && |a| >= |b|
    ensures a == b
  {
    assert |b - a| == |b| - |a|;
  }

  /** The wait after the first, second, … counted attempt. */
  function Backoff(attempt: nat): int {
    match attempt
    case 1 => 30 * SECOND
    case 2 => 2 * MINUTE
    case 3 => 10 * MINUTE
    case 4 => HOUR
    case _ => 6 * HOUR
  }

  /** Tried again after a wait, or failed when it was the sixth counted attempt. */
  predicate Again(r: Delivery, d: Delivery, attempts: nat, wait: int, now: int) {
    r == if attempts >= 6 then d.(attempts := attempts, status := Failed)
         else d.(attempts := attempts, status := Retrying, nextAttempt := now + wait)
  }

  /**
   * What an attempt makes of a delivery: success delivers it; a request that broke off or never left is tried again
   * after the table's wait; so is an answer of 429 or a server's error, after the seconds that its Retry-After asks
   * for, but at most six hours, if these are digits; every other answer, a gone endpoint among them, fails it.
   */
  lemma AttemptDecides(d: Delivery, outcome: Outcome, now: int)
    ensures var r := Attempted(d, outcome, now);
            match outcome
            case Answered(code, header) =>
              if 200 <= code <= 299 then
                r == d.(attempts := d.attempts + 1, status := Delivered, deliveredAt := Some(now))
              else if code != 410 && (code == 429 || code >= 500) then
                match header
                case Seconds(count) => Again(r, d, d.attempts + 1, Min(count * SECOND, 6 * HOUR), now)
                case NotDigits => Again(r, d, d.attempts + 1, Backoff(d.attempts + 1), now)
                case Unconvertible => Again(r, d, d.attempts + 2, Backoff(d.attempts + 2), now)
              else r == d.(attempts := d.attempts + 1, status := Failed)
            case _ => Again(r, d, d.attempts + 1, Backoff(d.attempts + 1), now)
  {
  }

  /**
   * A delivery whose endpoint is missing or disabled is cancelled without an attempt; otherwise the attempt is made,
   * and an endpoint that answers 410 is disabled. Nothing else changes.
   */
  lemma DeliveryDecides(s: State, id: string, outcome: Outcome, now: int)
    requires id in s.deliveries
    ensures var d, r := s.deliveries[id], Processed(s, id, outcome, now);
            var on := d.endpoint in s.endpoints && s.endpoints[d.endpoint];
            && r.deliveries == s.deliveries[id := if on then Attempted(d, outcome, now) else d.(status := Cancelled)]
            && (forall e :: e in r.endpoints <==> e in s.endpoints)
            && (forall e :: e in s.endpoints ==>
                  var gone := on && e == d.endpoint && outcome.Answered? && outcome.code == 410;
                  r.endpoints[e] == (s.endpoints[e] && !gone))
            && (!on ==> r.trace == s.trace)
            && (on ==> r.trace == s.trace + [
                         Try(d.endpoint, id, outcome != Blocked, outcome.Answered? && outcome.code == 410)])
  {
  }

  /** Neither sent nor given up, and its time has come. */
  predicate Waits(d: Delivery, now: int) {
    d.status in {Pending, Retrying} && d.nextAttempt <= now
  }

  /** No delivery of the batch is to be attempted later than the given one. */
  predicate BeforeAll(batch: seq<string>, d: Delivery, deliveries: map<string, Delivery>) {
    forall i :: 0 <= i < |batch| ==>
      batch[i] in deliveries && deliveries[batch[i]].nextAttempt <= d.nextAttempt
  }

  /**
   * A cycle takes deliveries that wait, by the time of their next attempt, a hundred at most. If it leaves one that
   * waits then it takes a hundred, none of them due later.
   */
  lemma BatchIs(batch: seq<string>, deliveries: map<string, Delivery>, now: int)
    requires DueBatch(batch, deliveries, now)
    ensures |batch| <= 100
    ensures forall id :: id in batch ==> id in deliveries && Waits(deliveries[id], now)
    ensures forall i :: 0 <= i < |batch| ==> batch[i] in deliveries
    ensures forall i, j :: 0 <= i < j < |batch| ==>
              deliveries[batch[i]].nextAttempt <= deliveries[batch[j]].nextAttempt
    ensures forall id :: id in deliveries && Waits(deliveries[id], now) && id !in batch ==>
              |batch| == 100 && BeforeAll(batch, deliveries[id], deliveries)
  {
    var due := DueIds(deliveries, now);
    var taken := set id | id in batch;
    TakenCount(batch);
    forall id | id in due && id !in batch
      ensures |batch| == 100 && BeforeAll(batch, deliveries[id], deliveries)
    {
      if |batch| < 100 {
        SubsetFills(taken, due);
      }
      forall i | 0 <= i < |batch| ensures deliveries[batch[i]].nextAttempt <= deliveries[id].nextAttempt {
        assert Earlier(batch[i], id, deliveries);
      }
    }
    forall i | 0 <= i < |batch| ensures batch[i] in deliveries {
      assert batch[i] in batch;
    }
    forall i, j | 0 <= i < j < |batch| ensures deliveries[batch[i]].nextAttempt <= deliveries[batch[j]].nextAttempt {
      assert Earlier(batch[i], batch[j], deliveries);
    }
  }

  /**
   * An attempt on a live delivery takes its counter past six iff it is the sixth one and is answered by a
   * Retry-After that cannot be converted, under a status that would be tried again.
   */
  lemma CounterPassesSixIff(d: Delivery, outcome: Outcome, now: int)
    requires Live(d) && d.attempts <= 5
    ensures Attempted(d, outcome, now).attempts > 6 <==>
            && d.attempts == 5 && outcome.Answered? && outcome.retryAfter.Unconvertible?
            && (outcome.code == 429 || outcome.code >= 500)
  {
  }

  // ----- runs

  datatype Step =
    | Cycle(batch: seq<string>, outcomes: nat -> Outcome, now: int)
    | Enqueue(id: string, endpoint: string, now: int)
    | SetEnabled(endpoint: string, enabled: bool)
    | Purge(ids: set<string>)

  function TriesOf(trace: seq<Sighting>, id: string): nat {
    if trace == [] then 0
    else
      var last := trace[|trace| - 1];
      TriesOf(trace[..|trace| - 1], id) + if last.Try? && last.delivery == id then 1 else 0
  }

  /** A cycle takes a batch of due deliveries; a new delivery has an id that was never used. */
  ghost predicate Possible(s: State, e: Step) {
    match e
    case Cycle(batch, _, now) => DueBatch(batch, s.deliveries, now)
    case Enqueue(id, _, _) => id !in s.deliveries && TriesOf(s.trace, id) == 0
    case _ => true
  }

  ghost function After(s: State, e: Step): State
    requires Possible(s, e)
  {
    match e
    case Cycle(batch, outcomes, now) => AllProcessed(s, batch, outcomes, now)
    case Enqueue(id, endpoint, now) => s.(deliveries := s.deliveries[id := Delivery(endpoint, Pending, 0, now, None)])
    case SetEnabled(endpoint, enabled) =>
      s.(endpoints := s.endpoints[endpoint := enabled], trace := s.trace + if enabled then [Enabled(endpoint)] else [])
    case Purge(ids) => s.(deliveries := s.deliveries - ids)
  }

  ghost predicate History(states: seq<State>, steps: seq<Step>) {
    && |states| == |steps| + 1 && states[0] == State(map[], map[], [])
    && forall i :: 0 <= i < |steps| ==> Possible(states[i], steps[i]) && states[i + 1] == After(states[i], steps[i])
  }

  // ----- bounded attempts

  /** Attempts never outnumber counted ones, and a delivery that is still live has counted at most five. */
  predicate Bounded(d: Delivery, tries: nat) {
    && tries <= d.attempts <= 7 && tries <= 6
    && (Live(d) ==> d.attempts <= 5)
  }

  ghost predicate AllBounded(s: State) {
    && (forall id :: id in s.deliveries ==> Bounded(s.deliveries[id], TriesOf(s.trace, id)))
    && (forall id :: TriesOf(s.trace, id) <= 6)
  }

  lemma TriesOfAppend(trace: seq<Sighting>, x: Sighting, id: string)
    ensures TriesOf(trace + [x], id) == TriesOf(trace, id) + if x.Try? && x.delivery == id then 1 else 0
  {
    assert (trace + [x])[..|trace|] == trace;
  }

  predicate Tries(s: State, id: string)
    requires id in s.deliveries
  {
    var endpoint := s.deliveries[id].endpoint;
    endpoint in s.endpoints && s.endpoints[endpoint]
  }

  lemma TriesAfterAttempt(s: State, id: string, outcome: Outcome, now: int, x: string)
    requires id in s.deliveries
    ensures TriesOf(Processed(s, id, outcome, now).trace, x)
            == TriesOf(s.trace, x) + if Tries(s, id) && x == id then 1 else 0
  {
    hide TriesOf, Attempted;
    var endpoint := s.deliveries[id].endpoint;
    if Tries(s, id) {
      TriesOfAppend(s.trace, Try(endpoint, id, !outcome.Blocked?, Gone(outcome)), x);
    } else {
      assert s.trace + [] == s.trace;
    }
  }

  lemma AttemptBounded(d: Delivery, tries: nat, outcome: Outcome, now: int)
    requires Live(d) && Bounded(d, tries)
    ensures Bounded(Attempted(d, outcome, now), tries + 1)
  {
    hide Attempted;
    AttemptMeans(d, outcome, now);
  }

  lemma ProcessedBounded(s: State, id: string, outcome: Outcome, now: int)
    requires AllBounded(s) && id in s.deliveries && Live(s.deliveries[id])
    ensures AllBounded(Processed(s, id, outcome, now))
  {
    var r := Processed(s, id, outcome, now);
    hide TriesOf, Attempted;
    forall x ensures (x in r.deliveries ==> Bounded(r.deliveries[x], TriesOf(r.trace, x))) && TriesOf(r.trace, x) <= 6 {
      TriesAfterAttempt(s, id, outcome, now, x);
      if x == id {
        AttemptBounded(s.deliveries[id], TriesOf(s.trace, id), outcome, now);
      }
    }
  }

  lemma DueIsLive(batch: seq<string>, s: State, now: int, id: string)
    requires DueBatch(batch, s.deliveries, now) && id in batch
    ensures id in s.deliveries && Live(s.deliveries[id])
  {
    assert id in DueIds(s.deliveries, now);
  }

  lemma {:induction false} BatchBounded(s: State, batch: seq<string>, outcomes: nat -> Outcome, now: int)
    requires AllBounded(s) && Distinct(batch)
    requires forall id :: id in batch ==> id in s.deliveries && Live(s.deliveries[id])
    ensures AllBounded(AllProcessed(s, batch, outcomes, now))
    decreases |batch|
  {
    if batch == [] {
      assert AllProcessed(s, batch, outcomes, now) == s;
    } else {
      var id, front := batch[|batch| - 1], batch[..|batch| - 1];
      assert batch == front + [id];
      assert id !in front && id in batch && forall x :: x in front ==> x in batch;
      BatchBounded(s, front, outcomes, now);
      hide AllBounded, Processed, AllProcessed;
      ProcessedNext(s, front, id, outcomes, now);
      BatchLeavesOthers(s, front, outcomes, now, id);
      ProcessedBounded(AllProcessed(s, front, outcomes, now), id, outcomes(|front|), now);
    }
  }

  lemma StepBounded(s: State, e: Step)
    requires AllBounded(s) && Possible(s, e)
    ensures AllBounded(After(s, e))
  {
    match e
    case Cycle(batch, outcomes, now) =>
      forall id | id in batch ensures id in s.deliveries && Live(s.deliveries[id]) {
        DueIsLive(batch, s, now, id);
      }
      BatchBounded(s, batch, outcomes, now);
    case SetEnabled(endpoint, enabled) =>
      forall id ensures TriesOf(After(s, e).trace, id) == TriesOf(s.trace, id) {
        if enabled {
          TriesOfAppend(s.trace, Enabled(endpoint), id);
        } else {
          assert s.trace + [] == s.trace;
        }
      }
    case _ =>
  }

  /** Over any history a delivery is attempted at most six times, and a live one at most five. */
  lemma {:induction false} AttemptsAreBounded(states: seq<State>, steps: seq<Step>, i: nat)
    requires History(states, steps) && i < |states|
    ensures AllBounded(states[i])
  {
    if i == 0 {
      assert AllBounded(State(map[], map[], []));
    } else {
      AttemptsAreBounded(states, steps, i - 1);
      hide AllBounded, After;
      StepBounded(states[i - 1], steps[i - 1]);
    }
  }

  // ----- ended deliveries stay as they are

  lemma StepKeepsEnded(s: State, e: Step, id: string)
    requires Possible(s, e) && id in s.deliveries && !Live(s.deliveries[id])
    ensures id in After(s, e).deliveries ==> After(s, e).deliveries[id] == s.deliveries[id]
  {
    if e.Cycle? {
      if id in e.batch {
        DueIsLive(e.batch, s, e.now, id);
      }
      BatchLeavesOthers(s, e.batch, e.outcomes, e.now, id);
    }
  }

  /** A delivered, failed or cancelled delivery never changes again while it exists. */
  lemma {:induction false} EndedStaysEnded(states: seq<State>, steps: seq<Step>, i: nat, j: nat, id: string)
    requires History(states, steps) && i <= j < |states|
    requires forall k :: i <= k <= j ==> id in states[k].deliveries
    requires !Live(states[i].deliveries[id])
    ensures states[j].deliveries[id] == states[i].deliveries[id]
    decreases j
  {
    if i < j {
      EndedStaysEnded(states, steps, i, j - 1, id);
      StepKeepsEnded(states[j - 1], steps[j - 1], id);
    }
  }

  // ----- gone endpoints are left alone

  predicate GoneTry(trace: seq<Sighting>, i: nat)
    requires i < |trace|
  {
    trace[i].Try? && trace[i].gone
  }

  ghost predicate ReenabledBetween(trace: seq<Sighting>, i: nat, j: nat)
    requires i < j <= |trace| && i < |trace|
  {
    exists k :: i < k < j && trace[k] == Enabled(trace[i].endpoint)
  }

  /** Between an attempt that was answered with gone and a later one on the same endpoint, that was enabled again. */
  ghost predicate Respectful(trace: seq<Sighting>) {
    forall i, j :: 0 <= i < j < |trace| && GoneTry(trace, i) && trace[j].Try? && trace[j].endpoint == trace[i].endpoint
      ==> ReenabledBetween(trace, i, j)
  }

  predicate IsOn(s: State, endpoint: string) {
    endpoint in s.endpoints && s.endpoints[endpoint]
  }

  /** An endpoint that is enabled has been enabled since it was last gone. */
  ghost predicate GoneIsOff(s: State) {
    && Respectful(s.trace)
    && forall i :: 0 <= i < |s.trace| && GoneTry(s.trace, i) && IsOn(s, s.trace[i].endpoint)
         ==> ReenabledBetween(s.trace, i, |s.trace|)
  }

  /** Appending a sighting that may be there keeps the trace respectful. */
  lemma AppendRespectful(trace: seq<Sighting>, x: Sighting)
    requires Respectful(trace)
    requires x.Try? ==> forall i :: 0 <= i < |trace| && GoneTry(trace, i) && trace[i].endpoint == x.endpoint
                           ==> ReenabledBetween(trace, i, |trace|)
    ensures Respectful(trace + [x])
    ensures forall i | 0 <= i < |trace| && GoneTry(trace + [x], i) ::
              ReenabledBetween(trace, i, |trace|) || x == Enabled(trace[i].endpoint)
              ==> ReenabledBetween(trace + [x], i, |trace| + 1)
  {
    var more := trace + [x];
    forall i, j | 0 <= i < j < |more| && GoneTry(more, i) && more[j].Try? && more[j].endpoint == more[i].endpoint
      ensures ReenabledBetween(more, i, j)
    {
      assert GoneTry(trace, i);
      assert ReenabledBetween(trace, i, j);
      var k :| i < k < j && trace[k] == Enabled(trace[i].endpoint);
      assert more[k] == Enabled(more[i].endpoint);
    }
    forall i | 0 <= i < |trace| && GoneTry(more, i)
               && (ReenabledBetween(trace, i, |trace|) || x == Enabled(trace[i].endpoint))
      ensures ReenabledBetween(more, i, |trace| + 1)
    {
      if ReenabledBetween(trace, i, |trace|) {
        var k :| i < k < |trace| && trace[k] == Enabled(trace[i].endpoint);
        assert more[k] == Enabled(more[i].endpoint);
      } else {
        assert more[|trace|] == Enabled(more[i].endpoint);
      }
    }
  }

  lemma ProcessedGoneIsOff(s: State, id: string, outcome: Outcome, now: int)
    requires GoneIsOff(s) && id in s.deliveries
    ensures GoneIsOff(Processed(s, id, outcome, now))
  {
    var d, r := s.deliveries[id], Processed(s, id, outcome, now);
    if d.endpoint in s.endpoints && s.endpoints[d.endpoint] {
      var x := Try(d.endpoint, id, !outcome.Blocked?, Gone(outcome));
      AppendRespectful(s.trace, x);
      forall i | 0 <= i < |r.trace| && GoneTry(r.trace, i) && IsOn(r, r.trace[i].endpoint)
        ensures ReenabledBetween(r.trace, i, |r.trace|)
      {
        assert i < |s.trace| ==> GoneTry(s.trace, i);
      }
    } else {
      assert s.trace + [] == s.trace;
    }
  }

  lemma {:induction false} BatchGoneIsOff(s: State, batch: seq<string>, outcomes: nat -> Outcome, now: int)
    requires GoneIsOff(s) && forall id :: id in batch ==> id in s.deliveries
    ensures GoneIsOff(AllProcessed(s, batch, outcomes, now))
    decreases |batch|
  {
    hide GoneIsOff, Processed;
    if batch != [] {
      var id, front := batch[|batch| - 1], batch[..|batch| - 1];
      assert batch == front + [id];
      BatchGoneIsOff(s, front, outcomes, now);
      ProcessedGoneIsOff(AllProcessed(s, front, outcomes, now), id, outcomes(|front|), now);
    }
  }

  lemma StepGoneIsOff(s: State, e: Step)
    requires GoneIsOff(s) && Possible(s, e)
    ensures GoneIsOff(After(s, e))
  {
    match e
    case Cycle(batch, outcomes, now) =>
      forall id | id in batch ensures id in s.deliveries {
        DueIsLive(batch, s, now, id);
      }
      BatchGoneIsOff(s, batch, outcomes, now);
    case SetEnabled(endpoint, enabled) =>
      var r := After(s, e);
      if enabled {
        AppendRespectful(s.trace, Enabled(endpoint));
        forall i | 0 <= i < |r.trace| && GoneTry(r.trace, i) && IsOn(r, r.trace[i].endpoint)
          ensures ReenabledBetween(r.trace, i, |r.trace|)
        {
          assert GoneTry(s.trace, i);
        }
      } else {
        assert s.trace + [] == s.trace;
      }
    case _ =>
  }

  /** After an endpoint answers that it is gone, nothing is tried on it, let alone posted, until it is enabled again. */
  lemma {:induction false} GoneEndpointsAreLeftAlone(states: seq<State>, steps: seq<Step>, i: nat)
    requires History(states, steps) && i < |states|
    ensures GoneIsOff(states[i])
  {
    if i > 0 {
      GoneEndpointsAreLeftAlone(states, steps, i - 1);
      hide GoneIsOff, After;
      StepGoneIsOff(states[i - 1], steps[i - 1]);
    }
  }

  // ----- a counter that reaches seven

  lemma HistoryNext(states: seq<State>, steps: seq<Step>, e: Step)
    requires History(states, steps) && Possible(states[|steps|], e)
    ensures History(states + [After(states[|steps|], e)], steps + [e])
  {
  }

  lemma OnlyOneDue(d: Delivery, now: int)
    requires Live(d) && d.nextAttempt <= now
    ensures DueBatch(["d"], map["d" := d], now)
  {
    assert DueIds(map["d" := d], now) == {"d"};
  }

  lemma OneProcessed(s: State, id: string, outcome: Outcome, now: int)
    requires id in s.deliveries
    ensures AllProcessed(s, [id], i => outcome, now) == Processed(s, id, outcome, now)
  {
    assert [id][..0] == [];
  }

  /** The state of a store with the one delivery "d" to the enabled endpoint "e". */
  predicate Lone(s: State, attempts: nat) {
    && s.deliveries.Keys == {"d"} && s.endpoints == map["e" := true] && s.deliveries["d"].endpoint == "e"
    && s.deliveries["d"].attempts == attempts
  }

  /** One more cycle, at the time the delivery is due. */
  lemma LoneCycle(states: seq<State>, steps: seq<Step>, attempts: nat, outcome: Outcome)
    returns (states': seq<State>, steps': seq<Step>)
    requires History(states, steps) && Lone(states[|steps|], attempts) && Live(states[|steps|].deliveries["d"])
    requires !Gone(outcome)
    ensures var d := states[|steps|].deliveries["d"];
            && History(states', steps') && Lone(states'[|steps'|], Attempted(d, outcome, d.nextAttempt).attempts)
            && states'[|steps'|].deliveries["d"] == Attempted(d, outcome, d.nextAttempt)
  {
    var s := states[|steps|];
    var d := s.deliveries["d"];
    hide Attempted, History, DueBatch, AllProcessed;
    assert s.deliveries == map["d" := d];
    OnlyOneDue(d, d.nextAttempt);
    var e := Cycle(["d"], i => outcome, d.nextAttempt);
    OneProcessed(s, "d", outcome, d.nextAttempt);
    AttemptMeans(d, outcome, d.nextAttempt);
    HistoryNext(states, steps, e);
    states', steps' := states + [After(s, e)], steps + [e];
  }

  lemma {:induction false} BrokenCycles(n: nat) returns (states: seq<State>, steps: seq<Step>)
    requires n <= 5
    ensures History(states, steps) && Lone(states[|steps|], n) && Live(states[|steps|].deliveries["d"])
    decreases n
  {
    if n == 0 {
      var empty := State(map[], map[], []);
      var enabled := After(empty, SetEnabled("e", true));
      assert enabled.trace == [Enabled("e")] && TriesOf([Enabled("e")][..0], "d") == 0;
      states := [empty, enabled, After(enabled, Enqueue("d", "e", 0))];
      steps := [SetEnabled("e", true), Enqueue("d", "e", 0)];
    } else {
      states, steps := BrokenCycles(n - 1);
      hide History, Lone;
      states, steps := LoneCycle(states, steps, n - 1, Broken);
    }
  }

  /** Five broken requests and one answer with an unconvertible Retry-After take the counter to seven. */
  lemma CounterReachesSeven() returns (states: seq<State>, steps: seq<Step>)
    ensures History(states, steps) && "d" in states[|steps|].deliveries && states[|steps|].deliveries["d"].attempts == 7
  {
    states, steps := BrokenCycles(5);
    hide History;
    states, steps := LoneCycle(states, steps, 5, Answered(503, Unconvertible));
  }
}
