/** The table of notifications, which evaluations fill, retention empties and delivery cycles work on. */
module Notifications {
  import opened Common
  import F = Findings
  import FindingHistory
  import Outbox
  import OutboxLaws

  /** The tables of findings, the delivery of each row of their outbox, and under which id: row `i` has `ids[i]`. */
  datatype System = System(store: F.Store, ids: seq<string>, delivery: Outbox.State)

  /** What happens to the findings, with ids for the rows it queues, and what happens to deliveries and endpoints. */
  datatype Step =
    | Reconcile(step: FindingHistory.Step, ids: seq<string>)
    | Deliver(action: OutboxLaws.Step)

  /** Ids that were never used. */
  ghost predicate FreshIds(d: Outbox.State, ids: seq<string>) {
    Distinct(ids) && forall i :: 0 <= i < |ids| ==> ids[i] !in d.deliveries && OutboxLaws.TriesOf(d.trace, ids[i]) == 0
  }

  /** Every queued row is a new delivery that is due at once. */
  ghost function Enqueued(d: Outbox.State, ids: seq<string>, notes: seq<F.Notification>): (r: Outbox.State)
    requires |ids| == |notes| && FreshIds(d, ids)
    ensures r.trace == d.trace && r.endpoints == d.endpoints
    ensures forall id :: id in r.deliveries <==> id in d.deliveries || id in ids
    ensures forall id :: id in d.deliveries ==> r.deliveries[id] == d.deliveries[id]
    ensures forall i :: 0 <= i < |ids| ==> r.deliveries[ids[i]].endpoint == notes[i].endpoint
  {
    if ids == [] then d
    else
      var n := |ids| - 1;
      assert forall id :: id in ids <==> id in ids[..n] || id == ids[n];
      OutboxLaws.After(Enqueued(d, ids[..n], notes[..n]),
                       OutboxLaws.Enqueue(ids[n], notes[n].endpoint, notes[n].at))
  }

  /** The ids of the rows that retention keeps. */
  function KeptIds(ids: seq<string>, outbox: seq<F.Notification>, cutoff: int): seq<string>
    requires |ids| == |outbox|
  {
    if ids == [] then []
    else
      var n := |ids| - 1;
      KeptIds(ids[..n], outbox[..n], cutoff) + if outbox[n].at < cutoff then [] else [ids[n]]
  }

  function Elements(ids: seq<string>): set<string> {
    set id | id in ids
  }

  ghost function Appended(before: seq<F.Notification>, after: seq<F.Notification>): seq<F.Notification>
    requires |before| <= |after|
  {
    after[|before|..]
  }

  /** Rows are added by evaluations, and removed by retention, only. */
  ghost predicate Enabled(s: System, e: Step) {
    match e
    case Reconcile(step, ids) =>
      && FindingHistory.Enabled(s.store, step) && FreshIds(s.delivery, ids)
      && |s.ids| == |s.store.outbox|
      && (step.Retention? ==> ids == [])
      && (!step.Retention? ==> |s.store.outbox| + |ids| == |FindingHistory.After(s.store, step).outbox|)
    case Deliver(action) => (action.Cycle? || action.SetEnabled?) && OutboxLaws.Possible(s.delivery, action)
  }

  ghost function After(s: System, e: Step): System
    requires Enabled(s, e)
  {
    match e
    case Reconcile(step, ids) =>
      var r := FindingHistory.After(s.store, step);
      if step.Retention? then
        var kept := KeptIds(s.ids, s.store.outbox, step.cutoff);
        System(r, kept, OutboxLaws.After(s.delivery, OutboxLaws.Purge(Elements(s.ids) - Elements(kept))))
      else System(r, s.ids + ids, Enqueued(s.delivery, ids, Appended(s.store.outbox, r.outbox)))
    case Deliver(action) => s.(delivery := OutboxLaws.After(s.delivery, action))
  }

  /** The states that steps go through, from empty tables on. */
  ghost predicate History(states: seq<System>, steps: seq<Step>) {
    && |states| == |steps| + 1
    && states[0] == System(F.Store(map[], [], [], []), [], Outbox.State(map[], map[], []))
    && forall i :: 0 <= i < |steps| ==> Enabled(states[i], steps[i]) && states[i + 1] == After(states[i], steps[i])
  }

  /** Every row of an outbox is one delivery, to the endpoint it was queued for, and there are no others. */
  ghost predicate Rows(ids: seq<string>, outbox: seq<F.Notification>, deliveries: map<string, Outbox.Delivery>) {
    && |ids| == |outbox| && Distinct(ids)
    && (forall id :: id in deliveries <==> id in ids)
    && (forall i :: 0 <= i < |ids| ==> deliveries[ids[i]].endpoint == outbox[i].endpoint)
  }

  ghost predicate Matching(s: System) {
    Rows(s.ids, s.store.outbox, s.delivery.deliveries)
  }

  // ----- evaluations only append

  lemma {:induction false} AllObservedAppends(
    s: F.Store, candidates: seq<F.Candidate>, now: int, endpoints: seq<F.Endpoint>)
    ensures s.outbox <= F.AllObserved(s, candidates, now, endpoints).outbox
    decreases |candidates|
  {
    if candidates != [] {
      AllObservedAppends(s, candidates[..|candidates| - 1], now, endpoints);
      hide F.Matched, F.Queued;
    }
  }

  lemma {:induction false} AllSweptAppends(
    s: F.Store, order: seq<string>, candidates: seq<F.Candidate>, complete: set<string>, now: int,
    endpoints: seq<F.Endpoint>)
    requires forall id :: id in order ==> id in s.findings
    ensures s.outbox <= F.AllSwept(s, order, candidates, complete, now, endpoints).outbox
    decreases |order|
  {
    if order != [] {
      var n := |order| - 1;
      assert forall id :: id in order[..n] ==> id in order;
      AllSweptAppends(s, order[..n], candidates, complete, now, endpoints);
      hide F.Queued;
    }
  }

  lemma StepAppends(s: F.Store, e: FindingHistory.Step)
    requires FindingHistory.Enabled(s, e) && !e.Retention?
    ensures s.outbox <= FindingHistory.After(s, e).outbox
  {
    match e
    case Evaluation(candidates, complete, order, now, endpoints) =>
      AllObservedAppends(s, candidates, now, endpoints);
      AllSweptAppends(F.AllObserved(s, candidates, now, endpoints), order, candidates, complete, now, endpoints);
    case _ =>
  }

  // ----- each step keeps the rows and the deliveries together

  lemma FreshPrefix(d: Outbox.State, ids: seq<string>)
    requires ids != [] && FreshIds(d, ids)
    ensures var n := |ids| - 1;
            && FreshIds(d, ids[..n]) && ids[n] !in ids[..n] && ids[n] !in d.deliveries
            && OutboxLaws.TriesOf(d.trace, ids[n]) == 0
  {
    hide OutboxLaws.TriesOf;
  }

  /** The last row to be queued, after the others. */
  lemma EnqueuedLast(d: Outbox.State, ids: seq<string>, notes: seq<F.Notification>)
    requires |ids| == |notes| && ids != [] && FreshIds(d, ids)
    ensures var n := |ids| - 1;
            var before := Enqueued(d, ids[..n], notes[..n]);
            var e := OutboxLaws.Enqueue(ids[n], notes[n].endpoint, notes[n].at);
            && FreshIds(d, ids[..n])
            && OutboxLaws.Possible(before, e) && Enqueued(d, ids, notes) == OutboxLaws.After(before, e)
  {
    hide OutboxLaws.After, OutboxLaws.TriesOf, FreshIds;
    FreshPrefix(d, ids);
  }

  lemma {:induction false} EnqueuedBounded(d: Outbox.State, ids: seq<string>, notes: seq<F.Notification>)
    requires |ids| == |notes| && FreshIds(d, ids) && OutboxLaws.AllBounded(d)
    ensures OutboxLaws.AllBounded(Enqueued(d, ids, notes))
    decreases |ids|
  {
    hide OutboxLaws.AllBounded, OutboxLaws.After, OutboxLaws.Possible, FreshIds;
    if ids != [] {
      var n := |ids| - 1;
      EnqueuedLast(d, ids, notes);
      EnqueuedBounded(d, ids[..n], notes[..n]);
      hide Enqueued;
      OutboxLaws.StepBounded(Enqueued(d, ids[..n], notes[..n]),
                             OutboxLaws.Enqueue(ids[n], notes[n].endpoint, notes[n].at));
    }
  }

  /** A kept row keeps its id and its endpoint. */
  lemma {:induction false} KeptRows(ids: seq<string>, outbox: seq<F.Notification>, cutoff: int, kept: set<string>)
    requires |ids| == |outbox| && Distinct(ids)
    ensures var more, rows := KeptIds(ids, outbox, cutoff), F.NotificationsSince(outbox, cutoff, kept);
            && |more| == |rows| && Distinct(more) && (forall id :: id in more ==> id in ids)
            && forall j :: 0 <= j < |more| ==>
                 exists i :: 0 <= i < |ids| && more[j] == ids[i] && rows[j].endpoint == outbox[i].endpoint
    decreases |ids|
  {
    if ids != [] {
      var n := |ids| - 1;
      KeptRows(ids[..n], outbox[..n], cutoff, kept);
      var more, rows := KeptIds(ids[..n], outbox[..n], cutoff), F.NotificationsSince(outbox[..n], cutoff, kept);
      assert forall id :: id in ids <==> id in ids[..n] || id == ids[n];
      assert ids[n] !in ids[..n];
      forall j | 0 <= j < |more|
        ensures exists i :: 0 <= i < |ids| && more[j] == ids[i] && rows[j].endpoint == outbox[i].endpoint
      {
        var i :| 0 <= i < n && more[j] == ids[..n][i] && rows[j].endpoint == outbox[..n][i].endpoint;
        assert more[j] == ids[i] && rows[j].endpoint == outbox[i].endpoint;
      }
    }
  }

  lemma KeptMatch(
    ids: seq<string>, outbox: seq<F.Notification>, deliveries: map<string, Outbox.Delivery>, cutoff: int,
    kept: set<string>)
    requires Rows(ids, outbox, deliveries)
    ensures var more := KeptIds(ids, outbox, cutoff);
            Rows(more, F.NotificationsSince(outbox, cutoff, kept), deliveries - (Elements(ids) - Elements(more)))
  {
    KeptRows(ids, outbox, cutoff, kept);
    hide KeptIds, F.NotificationsSince;
    var more, rows := KeptIds(ids, outbox, cutoff), F.NotificationsSince(outbox, cutoff, kept);
    forall j | 0 <= j < |more| ensures deliveries[more[j]].endpoint == rows[j].endpoint {
      var i :| 0 <= i < |ids| && more[j] == ids[i] && rows[j].endpoint == outbox[i].endpoint;
    }
  }

  lemma RetentionMatches(s: System, e: Step)
    requires Matching(s) && Enabled(s, e) && e.Reconcile? && e.step.Retention?
    ensures Matching(After(s, e))
  {
    var kept := set id | id in s.store.findings && !F.Expired(s.store.findings[id], e.step.cutoff);
    hide KeptIds, F.NotificationsSince, F.LogsOf, F.OccurrencesOf, OutboxLaws.TriesOf, Rows, Elements;
    KeptMatch(s.ids, s.store.outbox, s.delivery.deliveries, e.step.cutoff, kept);
  }

  lemma StillDistinct(ids: seq<string>, more: seq<string>)
    requires Distinct(ids) && Distinct(more) && forall i :: 0 <= i < |more| ==> more[i] !in ids
    ensures Distinct(ids + more)
  {
    var all := ids + more;
    forall i, j | 0 <= i < j < |all| ensures all[i] != all[j] {
      if j >= |ids| {
        assert all[j] == more[j - |ids|];
      }
    }
  }

  lemma NewMatch(
    ids: seq<string>, outbox: seq<F.Notification>, d: Outbox.State, more: seq<string>, notes: seq<F.Notification>)
    requires Rows(ids, outbox, d.deliveries) && FreshIds(d, more) && |more| == |notes|
    ensures Rows(ids + more, outbox + notes, Enqueued(d, more, notes).deliveries)
  {
    hide Enqueued, OutboxLaws.TriesOf, Distinct;
    StillDistinct(ids, more);
    var all, rows, r := ids + more, outbox + notes, Enqueued(d, more, notes);
    forall id ensures id in r.deliveries <==> id in all {
      assert id in all <==> id in ids || id in more;
    }
    forall i | 0 <= i < |all| ensures r.deliveries[all[i]].endpoint == rows[i].endpoint {
      if i < |ids| {
        assert ids[i] in d.deliveries;
      } else {
        assert all[i] == more[i - |ids|] && rows[i] == notes[i - |ids|];
      }
    }
  }

  lemma QueueingMatches(s: System, e: Step)
    requires Matching(s) && Enabled(s, e) && e.Reconcile? && !e.step.Retention?
    ensures Matching(After(s, e))
  {
    hide FindingHistory.After, OutboxLaws.TriesOf, Enqueued, Rows, FreshIds;
    var r := FindingHistory.After(s.store, e.step);
    StepAppends(s.store, e.step);
    var notes := Appended(s.store.outbox, r.outbox);
    assert r.outbox == s.store.outbox + notes;
    NewMatch(s.ids, s.store.outbox, s.delivery, e.ids, notes);
  }

  lemma {:induction false} BatchKeepsEndpoints(
    d: Outbox.State, batch: seq<string>, outcomes: nat -> Outbox.Outcome, now: int)
    requires forall id :: id in batch ==> id in d.deliveries
    ensures var r := Outbox.AllProcessed(d, batch, outcomes, now);
            forall id :: id in d.deliveries ==> r.deliveries[id].endpoint == d.deliveries[id].endpoint
    decreases |batch|
  {
    if batch != [] {
      BatchKeepsEndpoints(d, batch[..|batch| - 1], outcomes, now);
    }
  }

  lemma DeliveryMatches(s: System, e: Step)
    requires Matching(s) && Enabled(s, e) && e.Deliver?
    ensures Matching(After(s, e))
  {
    match e.action
    case Cycle(batch, outcomes, now) =>
      forall id | id in batch ensures id in s.delivery.deliveries {
        OutboxLaws.DueIsLive(batch, s.delivery, now, id);
      }
      BatchKeepsEndpoints(s.delivery, batch, outcomes, now);
    case _ =>
  }

  lemma StepBounded(s: System, e: Step)
    requires OutboxLaws.AllBounded(s.delivery) && Matching(s) && Enabled(s, e)
    ensures OutboxLaws.AllBounded(After(s, e).delivery)
  {
    hide OutboxLaws.AllBounded, OutboxLaws.After, OutboxLaws.TriesOf, FindingHistory.After;
    match e
    case Reconcile(step, ids) =>
      if step.Retention? {
        var kept := KeptIds(s.ids, s.store.outbox, step.cutoff);
        OutboxLaws.StepBounded(s.delivery, OutboxLaws.Purge(Elements(s.ids) - Elements(kept)));
      } else {
        EnqueuedBounded(s.delivery, ids, Appended(s.store.outbox, FindingHistory.After(s.store, step).outbox));
      }
    case Deliver(action) => OutboxLaws.StepBounded(s.delivery, action);
  }

  lemma StepMatches(s: System, e: Step)
    requires Matching(s) && Enabled(s, e)
    ensures Matching(After(s, e))
  {
    hide Matching, After;
    match e
    case Reconcile(step, _) =>
      if step.Retention? {
        RetentionMatches(s, e);
      } else {
        QueueingMatches(s, e);
      }
    case Deliver(_) => DeliveryMatches(s, e);
  }

  lemma BoundedTries(d: Outbox.State)
    requires OutboxLaws.AllBounded(d)
    ensures forall id :: OutboxLaws.TriesOf(d.trace, id) <= 6
  {
  }

  /**
   * However evaluations, administrators, retention, delivery cycles and changes of endpoints follow one another,
   * every queued event has its own delivery, to the endpoint it was queued for, and is tried at most six times; nor
   * was any that retention has removed tried more often.
   */
  lemma {:induction false} EventsAreTriedAtMostSixTimes(states: seq<System>, steps: seq<Step>, i: nat)
    requires History(states, steps) && i < |states|
    ensures Matching(states[i]) && OutboxLaws.AllBounded(states[i].delivery)
    ensures forall id :: OutboxLaws.TriesOf(states[i].delivery.trace, id) <= 6
  {
    if i == 0 {
      assert OutboxLaws.AllBounded(Outbox.State(map[], map[], []));
    } else {
      EventsAreTriedAtMostSixTimes(states, steps, i - 1);
      hide Matching, After, OutboxLaws.AllBounded;
      StepMatches(states[i - 1], steps[i - 1]);
      StepBounded(states[i - 1], steps[i - 1]);
      BoundedTries(states[i].delivery);
    }
  }
}
