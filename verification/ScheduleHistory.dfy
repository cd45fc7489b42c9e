/**
 * What holds of schedules and their runs over any sequence of edits, cycles and clean-ups under a clock that never
 * goes back.
 */
module ScheduleHistory {
  import opened Common
  import opened Schedules
  import opened ReportQueue
  import Zones

  /** The tables, when each schedule was last edited, the key of every run ever enqueued, and the clock. */
  datatype Ledger = Ledger(tables: Tables, edited: map<string, int>, log: seq<Key>, clock: int)

  datatype Event =
    | Put(id: string, timing: Timing, viewId: string, enabled: bool, views: map<string, View>, now: int)
    | Delete(id: string, now: int)
    | Cycle(order: seq<string>, views: map<string, View>, now: int)
    | Purge(gone: set<Key>, now: int)

  function Empty(clock: int): Ledger {
    Ledger(Tables(map[], []), map[], [], clock)
  }

  function Kept(runs: seq<Run>, gone: set<Key>): (r: seq<Run>)
    ensures forall i :: 0 <= i < |r| ==> r[i] in runs
  {
    if runs == [] then []
    else
      var rest := Kept(runs[..|runs| - 1], gone);
      if runs[|runs| - 1].key in gone then rest else rest + [runs[|runs| - 1]]
  }

  /** Bookings keep the schedules' timings, their edits, and the clock. */
  ghost predicate SameRows(l: Ledger, r: Ledger) {
    SameTimings(l.tables.schedules, r.tables.schedules) && r.clock == l.clock && r.edited == l.edited
  }

  /** Enqueues the next run of a schedule and writes it down; `None` when a search fails. */
  function Booked(l: Ledger, id: string, views: map<string, View>): (r: Option<Ledger>)
    requires id in l.tables.schedules
    ensures r.Some? ==> SameRows(l, r.value)
  {
    var after := EnqueuedNext(l.tables, id, views, l.clock);
    if after.None? then None
    else
      var runs, n := after.value.runs, |l.tables.runs|;
      Some(l.(tables := after.value, log := if |runs| > n then l.log + [runs[n].key] else l.log))
  }

  ghost function AllBooked(l: Ledger, order: seq<string>, views: map<string, View>): (r: Option<Ledger>)
    requires forall id :: id in order ==> id in l.tables.schedules
    ensures r.Some? ==> SameRows(l, r.value)
  {
    hide Booked;
    if order == [] then Some(l)
    else
      var n := |order| - 1;
      assert order == order[..n] + [order[n]];
      var before := AllBooked(l, order[..n], views);
      if before.None? then None else Booked(before.value, order[n], views)
  }

  ghost predicate Possible(l: Ledger, e: Event) {
    l.clock <= e.now && (e.Cycle? ==> DueOrder(e.order, l.tables.schedules, e.now))
  }

  /** A cycle in which a search fails is rolled back. */
  ghost function Next(l: Ledger, e: Event): Ledger
    requires Possible(l, e)
  {
    match e
    case Put(id, timing, viewId, enabled, views, now) =>
      Ledger(Edited(l.tables, id, timing, viewId, enabled, views, now),
             if Accepted(timing, viewId, enabled, views, now) then l.edited[id := now] else l.edited, l.log, now)
    case Delete(id, now) =>
      l.(tables := l.tables.(schedules := l.tables.schedules - {id}), edited := l.edited - {id}, clock := now)
    case Cycle(order, views, now) => AllBooked(l.(clock := now), order, views).GetOr(l.(clock := now))
    case Purge(gone, now) => l.(tables := l.tables.(runs := Kept(l.tables.runs, gone)), clock := now)
  }

  ghost predicate History(ledgers: seq<Ledger>, events: seq<Event>) {
    && |ledgers| == |events| + 1 && ledgers[0] == Empty(ledgers[0].clock)
    && forall i :: 0 <= i < |events| ==>
         Possible(ledgers[i], events[i]) && ledgers[i + 1] == Next(ledgers[i], events[i])
  }

  // ----- the invariant

  /** Every execution after `since` and before `next` has been enqueued. */
  ghost predicate Covered(log: seq<Key>, id: string, t: Timing, since: int, next: int) {
    forall d :: Allowed(t, d) && since < TimeOn(t, d) < next ==> KeyFor(id, t.frequency, TimeOn(t, d)) in log
  }

  /**
   * The next execution is later than every period enqueued, only executions have been enqueued after `since`, and
   * in a zone that is regular from then on all of them.
   */
  ghost predicate Upto(log: seq<Key>, id: string, t: Timing, since: int, next: int) {
    && since < next && IsExecution(t, next)
    && (forall i :: 0 <= i < |log| && log[i].schedule == id ==> log[i].end < next)
    && (forall i :: 0 <= i < |log| && log[i].schedule == id && since < log[i].end
          ==> IsExecution(t, log[i].end) && log[i] == KeyFor(id, t.frequency, log[i].end))
    && (SoundFrom(t, since) ==> Covered(log, id, t, since, next))
  }

  ghost predicate RowInv(s: Schedule, id: string, edited: map<string, int>, log: seq<Key>, clock: int) {
    && id in edited && edited[id] <= clock && ValidTime(s.timing) && Occurs(s.timing)
    && (s.enabled ==> s.nextRunAt.Some?)
    && (s.nextRunAt.Some? ==> Upto(log, id, s.timing, edited[id], s.nextRunAt.value))
  }

  /** The periods of a schedule are enqueued in the order of their ends, none twice. */
  predicate EndsRise(log: seq<Key>) {
    forall i, j :: 0 <= i < j < |log| && log[i].schedule == log[j].schedule ==> log[i].end < log[j].end
  }

  ghost predicate RowsInv(l: Ledger) {
    forall id :: id in l.tables.schedules ==> RowInv(l.tables.schedules[id], id, l.edited, l.log, l.clock)
  }

  predicate LogInv(runs: seq<Run>, log: seq<Key>, clock: int) {
    && (forall i :: 0 <= i < |runs| ==> runs[i].key in log)
    && (forall i :: 0 <= i < |log| ==> log[i].end <= clock)
    && EndsRise(log)
  }

  ghost predicate Inv(l: Ledger) {
    RowsInv(l) && LogInv(l.tables.runs, l.log, l.clock)
  }

  // ----- one schedule

  lemma KeyIs(id: string, f: Frequency, end: int)
    ensures KeyFor(id, f, end).schedule == id && KeyFor(id, f, end).end == end
  {
  }

  /** No execution lies between one and the next that is searched for. */
  lemma ExecutionsApart(t: Timing, since: int, day: int, d: int, later: int)
    requires SoundFrom(t, since) && Allowed(t, day) && Allowed(t, d) && since < TimeOn(t, day)
    requires NextTime(t, TimeOn(t, day) + SECOND) == Some(later) && TimeOn(t, day) <= TimeOn(t, d) < later
    ensures TimeOn(t, d) == TimeOn(t, day)
  {
    hide Allowed, TimeOn, SoundFrom, NextTime, IsExecution;
    if TimeOn(t, day) + SECOND < TimeOn(t, d) {
      NextIsLeastFrom(t, since, TimeOn(t, day) + SECOND, d);
    } else if d < day {
      InOrderFrom(t, since, d, day);
    } else if day < d {
      InOrderFrom(t, since, day, d);
    }
  }

  /** Executions before the one after `next` are those before `next`, and `next` itself. */
  lemma CoveredNext(log: seq<Key>, id: string, t: Timing, since: int, next: int, later: int)
    requires SoundFrom(t, since) && IsExecution(t, next) && since < next
    requires Covered(log, id, t, since, next) && NextTime(t, next + SECOND) == Some(later)
    ensures Covered(log + [KeyFor(id, t.frequency, next)], id, t, since, later)
  {
    hide SoundFrom, Allowed, TimeOn, NextTime, KeyFor, IsExecution;
    var day := ExecutionDay(t, next);
    var key := KeyFor(id, t.frequency, next);
    assert key in [key];
    forall d | Allowed(t, d) && since < TimeOn(t, d) < later
      ensures KeyFor(id, t.frequency, TimeOn(t, d)) in log + [key]
    {
      if TimeOn(t, d) < next {
        assert KeyFor(id, t.frequency, TimeOn(t, d)) in log;
      } else {
        ExecutionsApart(t, since, day, d, later);
      }
    }
  }

  lemma UptoNext(log: seq<Key>, id: string, t: Timing, since: int, next: int, later: int)
    requires Upto(log, id, t, since, next) && NextTime(t, next + SECOND) == Some(later)
    ensures Upto(log + [KeyFor(id, t.frequency, next)], id, t, since, later)
  {
    NextIsLater(t, next + SECOND);
    hide SoundFrom, Covered, NextTime, IsExecution, KeyFor;
    KeyIs(id, t.frequency, next);
    if SoundFrom(t, since) {
      CoveredNext(log, id, t, since, next, later);
    }
  }

  lemma UptoOthers(log: seq<Key>, key: Key, id: string, t: Timing, since: int, next: int)
    requires Upto(log, id, t, since, next) && key.schedule != id
    ensures Upto(log + [key], id, t, since, next)
  {
    hide IsExecution, Allowed, TimeOn, SoundFrom;
    var more := log + [key];
    assert forall i :: 0 <= i < |more| && more[i].schedule == id ==> i < |log| && more[i] == log[i];
  }

  lemma LogInvNext(runs: seq<Run>, log: seq<Key>, clock: int, run: Run)
    requires LogInv(runs, log, clock) && run.key.end <= clock
    requires forall i :: 0 <= i < |log| && log[i].schedule == run.key.schedule ==> log[i].end < run.key.end
    ensures LogInv(runs + [run], log + [run.key], clock)
  {
  }

  /** The key of a due run is new: the program's early return for an existing run is never taken. */
  lemma DueRunIsNew(l: Ledger, id: string)
    requires Inv(l) && id in l.tables.schedules && IsDue(l.tables.schedules[id], l.clock)
    ensures var s := l.tables.schedules[id]; !HasRun(l.tables.runs, KeyFor(id, s.timing.frequency, s.nextRunAt.value))
  {
    var s := l.tables.schedules[id];
    var key := KeyFor(id, s.timing.frequency, s.nextRunAt.value);
    assert RowInv(s, id, l.edited, l.log, l.clock);
    forall i | 0 <= i < |l.tables.runs| ensures l.tables.runs[i].key != key {
      assert l.tables.runs[i].key in l.log;
    }
  }

  // ----- one enqueueing

  /** The search for the execution after the due one. */
  function Following(s: Schedule): Option<int>
    requires s.nextRunAt.Some?
  {
    NextTime(s.timing, s.nextRunAt.value + SECOND)
  }

  /** A due schedule with a usable view whose search for the next execution fails. */
  predicate Stuck(s: Schedule, views: map<string, View>)
    requires s.nextRunAt.Some?
  {
    Usable(views, s.viewId) && Following(s).None?
  }

  /** What a schedule row becomes when it is due. */
  function AfterCycle(s: Schedule, views: map<string, View>, now: int): Schedule
    requires s.nextRunAt.Some?
  {
    if Usable(views, s.viewId) then s.(nextRunAt := Following(s), lastRunAt := Some(now), lastError := "")
    else s.(enabled := false, lastError := MISSING_VIEW)
  }

  lemma DueHasNext(s: Schedule, now: int)
    requires IsDue(s, now)
    ensures s.enabled && s.nextRunAt.Some? && s.nextRunAt.value <= now
  {
  }

  lemma BookedIs(l: Ledger, id: string, views: map<string, View>)
    requires Inv(l) && id in l.tables.schedules && IsDue(l.tables.schedules[id], l.clock)
    ensures Booked(l, id, views).None? <==> Stuck(l.tables.schedules[id], views)
    ensures Booked(l, id, views).Some? ==>
              var s, r := l.tables.schedules[id], Booked(l, id, views).value;
              && r.tables.schedules == l.tables.schedules[id := AfterCycle(s, views, l.clock)]
              && (if Usable(views, s.viewId)
                  then var key := KeyFor(id, s.timing.frequency, s.nextRunAt.value);
                       r.log == l.log + [key] && r.tables.runs == l.tables.runs + [Run(key, s.viewId)]
                  else r.log == l.log && r.tables.runs == l.tables.runs)
  {
    hide Usable, HasRun, KeyFor, RowsInv, LogInv, NextTime;
    DueRunIsNew(l, id);
  }

  lemma BookedRow(
    s: Schedule, id: string, views: map<string, View>, edited: map<string, int>, log: seq<Key>, clock: int)
    requires RowInv(s, id, edited, log, clock) && s.nextRunAt.Some? && Usable(views, s.viewId) && !Stuck(s, views)
    ensures RowInv(AfterCycle(s, views, clock), id, edited,
                   log + [KeyFor(id, s.timing.frequency, s.nextRunAt.value)], clock)
  {
    hide Upto, KeyFor, NextTime, Usable, ValidTime, Occurs;
    UptoNext(log, id, s.timing, edited[id], s.nextRunAt.value, Following(s).value);
  }

  lemma DisabledRow(
    s: Schedule, id: string, views: map<string, View>, edited: map<string, int>, log: seq<Key>, clock: int)
    requires RowInv(s, id, edited, log, clock) && s.nextRunAt.Some? && !Usable(views, s.viewId)
    ensures RowInv(AfterCycle(s, views, clock), id, edited, log, clock)
  {
    hide Upto;
  }

  lemma BookedKeepsRows(l: Ledger, id: string, views: map<string, View>)
    requires Inv(l) && id in l.tables.schedules && IsDue(l.tables.schedules[id], l.clock) && Booked(l, id, views).Some?
    ensures RowsInv(Booked(l, id, views).value)
  {
    hide Upto, LogInv, KeyFor, Booked, IsDue, ValidTime, Occurs, Stuck, AfterCycle, Usable;
    var s, r := l.tables.schedules[id], Booked(l, id, views).value;
    assert RowInv(s, id, l.edited, l.log, l.clock);
    BookedIs(l, id, views);
    DueHasNext(s, l.clock);
    var key := KeyFor(id, s.timing.frequency, s.nextRunAt.value);
    KeyIs(id, s.timing.frequency, s.nextRunAt.value);
    if Usable(views, s.viewId) {
      BookedRow(s, id, views, l.edited, l.log, l.clock);
    } else {
      DisabledRow(s, id, views, l.edited, l.log, l.clock);
    }
    forall x | x in r.tables.schedules ensures RowInv(r.tables.schedules[x], x, r.edited, r.log, r.clock) {
      if x != id {
        var row := l.tables.schedules[x];
        assert RowInv(row, x, l.edited, l.log, l.clock);
        if Usable(views, s.viewId) && row.nextRunAt.Some? {
          UptoOthers(l.log, key, x, row.timing, l.edited[x], row.nextRunAt.value);
        }
      }
    }
  }

  lemma BookedKeepsInv(l: Ledger, id: string, views: map<string, View>)
    requires Inv(l) && id in l.tables.schedules && IsDue(l.tables.schedules[id], l.clock) && Booked(l, id, views).Some?
    ensures Inv(Booked(l, id, views).value)
  {
    var s, r := l.tables.schedules[id], Booked(l, id, views).value;
    assert RowInv(s, id, l.edited, l.log, l.clock);
    assert LogInv(l.tables.runs, l.log, l.clock);
    BookedKeepsRows(l, id, views);
    hide LogInv, Booked, RowsInv, Usable, KeyFor, AfterCycle, Stuck, ValidTime, Occurs;
    BookedIs(l, id, views);
    if Usable(views, s.viewId) {
      KeyIs(id, s.timing.frequency, s.nextRunAt.value);
      LogInvNext(l.tables.runs, l.log, l.clock, Run(KeyFor(id, s.timing.frequency, s.nextRunAt.value), s.viewId));
    }
  }

  // ----- a whole cycle

  ghost predicate AreDue(order: seq<string>, schedules: map<string, Schedule>, now: int) {
    Distinct(order) && forall id :: id in order ==> id in schedules && IsDue(schedules[id], now)
  }

  /** The keys of the runs that a list of due schedules asks for. */
  function NewKeys(schedules: map<string, Schedule>, order: seq<string>, views: map<string, View>): seq<Key>
    requires forall id :: id in order ==> id in schedules && schedules[id].nextRunAt.Some?
  {
    if order == [] then []
    else
      var n := |order| - 1;
      assert order == order[..n] + [order[n]];
      var s := schedules[order[n]];
      NewKeys(schedules, order[..n], views)
      + if Usable(views, s.viewId) then [KeyFor(order[n], s.timing.frequency, s.nextRunAt.value)] else []
  }

  /** One run for every due schedule with a usable view, in the order of processing; the other rows are untouched. */
  ghost predicate Outcome(l: Ledger, order: seq<string>, views: map<string, View>, r: Ledger) {
    && AreDue(order, l.tables.schedules, l.clock) && SameRows(l, r)
    && r.log == l.log + NewKeys(l.tables.schedules, order, views)
    && forall id :: id in l.tables.schedules ==>
         r.tables.schedules[id]
         == if id in order then AfterCycle(l.tables.schedules[id], views, l.clock) else l.tables.schedules[id]
  }

  lemma FrontOfDue(front: seq<string>, id: string, schedules: map<string, Schedule>, now: int)
    requires AreDue(front + [id], schedules, now)
    ensures AreDue(front, schedules, now) && id !in front && id in schedules && IsDue(schedules[id], now)
    ensures forall x :: x in front + [id] ==> schedules[x].nextRunAt.Some?
    ensures forall x :: x in front + [id] <==> x == id || x in front
  {
    var order := front + [id];
    assert order[|front|] == id && id in order;
    assert forall i :: 0 <= i < |front| ==> order[i] == front[i];
    forall x | x in front ensures x in order && x != id {
      var i :| 0 <= i < |front| && front[i] == x;
      assert order[i] != order[|front|];
    }
  }

  lemma NewKeysNext(schedules: map<string, Schedule>, front: seq<string>, id: string, views: map<string, View>)
    requires forall x :: x in front + [id] ==> x in schedules && schedules[x].nextRunAt.Some?
    requires forall x :: x in front ==> x in schedules && schedules[x].nextRunAt.Some?
    requires id in schedules && schedules[id].nextRunAt.Some?
    ensures NewKeys(schedules, front + [id], views) == NewKeys(schedules, front, views)
            + if Usable(views, schedules[id].viewId)
              then [KeyFor(id, schedules[id].timing.frequency, schedules[id].nextRunAt.value)] else []
  {
    assert (front + [id])[..|front|] == front;
  }

  lemma OutcomeNext(l: Ledger, front: seq<string>, id: string, views: map<string, View>, before: Ledger)
    requires AreDue(front + [id], l.tables.schedules, l.clock) && AreDue(front, l.tables.schedules, l.clock)
    requires Outcome(l, front, views, before) && Inv(before)
    ensures id in before.tables.schedules && before.tables.schedules[id] == l.tables.schedules[id]
    ensures IsDue(before.tables.schedules[id], before.clock)
    ensures Booked(before, id, views).None? <==> Stuck(l.tables.schedules[id], views)
    ensures Booked(before, id, views).Some? ==> Outcome(l, front + [id], views, Booked(before, id, views).value)
  {
    hide Booked, IsDue, AfterCycle, Inv, Usable, KeyFor, NewKeys, Stuck;
    FrontOfDue(front, id, l.tables.schedules, l.clock);
    assert before.tables.schedules[id] == l.tables.schedules[id];
    BookedIs(before, id, views);
    NewKeysNext(l.tables.schedules, front, id, views);
  }

  lemma BookedLast(l: Ledger, front: seq<string>, id: string, views: map<string, View>)
    requires id in l.tables.schedules && forall x :: x in front ==> x in l.tables.schedules
    ensures forall x :: x in front + [id] ==> x in l.tables.schedules
    ensures var before := AllBooked(l, front, views);
            AllBooked(l, front + [id], views) == if before.None? then None else Booked(before.value, id, views)
  {
    hide Booked;
    assert (front + [id])[..|front|] == front;
  }

  /** The ledger's tables are those that the program's cycle leaves. */
  lemma {:induction false} BookingIsEnqueueing(l: Ledger, order: seq<string>, views: map<string, View>)
    requires forall id :: id in order ==> id in l.tables.schedules
    ensures AllBooked(l, order, views).Some? <==> AllEnqueued(l.tables, order, views, l.clock).Some?
    ensures AllBooked(l, order, views).Some? ==>
              Some(AllBooked(l, order, views).value.tables) == AllEnqueued(l.tables, order, views, l.clock)
    decreases |order|
  {
    if order != [] {
      var n := |order| - 1;
      assert order == order[..n] + [order[n]];
      BookingIsEnqueueing(l, order[..n], views);
      hide Enqueued;
      EnqueueOneMore(l.tables, order, n, views, l.clock);
    }
  }

  /** What an edit or a cycle makes of a ledger's tables is what the program's jobs make of them. */
  lemma LedgerFollowsProgram(l: Ledger, e: Event)
    requires Possible(l, e)
    ensures e.Put? ==>
              Next(l, e).tables == Edited(l.tables, e.id, e.timing, e.viewId, e.enabled, e.views, e.now)
    ensures e.Cycle? ==> Next(l, e).tables == Cycled(l.tables, e.order, e.views, e.now)
  {
    if e.Cycle? {
      hide AllBooked, AllEnqueued;
      BookingIsEnqueueing(l.(clock := e.now), e.order, e.views);
    }
  }

  /**
   * A cycle enqueues exactly one run for every due schedule with a usable view, in the order of processing, and
   * moves it to its next execution; a due schedule without a usable view is disabled, and the others are untouched.
   * It fails iff the search for a next execution fails.
   */
  lemma {:induction false} CycleMeans(l: Ledger, order: seq<string>, views: map<string, View>)
    requires Inv(l) && AreDue(order, l.tables.schedules, l.clock)
    ensures AllBooked(l, order, views).None? <==> exists id :: id in order && Stuck(l.tables.schedules[id], views)
    ensures AllBooked(l, order, views).Some? ==>
              Inv(AllBooked(l, order, views).value) && Outcome(l, order, views, AllBooked(l, order, views).value)
    decreases |order|
  {
    if order == [] {
      hide Inv;
    } else {
      var n := |order| - 1;
      var front, id := order[..n], order[n];
      assert order == front + [id];
      hide Outcome, Booked, AllBooked, RowsInv, LogInv, AreDue, Stuck;
      FrontOfDue(front, id, l.tables.schedules, l.clock);
      CycleMeans(l, front, views);
      BookedLast(l, front, id, views);
      var before := AllBooked(l, front, views);
      if before.Some? {
        OutcomeNext(l, front, id, views, before.value);
        if Booked(before.value, id, views).Some? {
          BookedKeepsInv(before.value, id, views);
        }
      }
    }
  }

  // ----- every step keeps the invariant

  lemma RowLater(s: Schedule, id: string, edited: map<string, int>, log: seq<Key>, clock: int, later: int)
    requires RowInv(s, id, edited, log, clock) && clock <= later
    ensures RowInv(s, id, edited, log, later)
  {
    hide Upto;
  }

  lemma RowKeeps(
    s: Schedule, id: string, edited: map<string, int>, edited': map<string, int>, log: seq<Key>, clock: int)
    requires RowInv(s, id, edited, log, clock) && id in edited' && edited'[id] == edited[id]
    ensures RowInv(s, id, edited', log, clock)
  {
    hide Upto;
  }

  /** Time passes, and rows of either table may go. */
  lemma LessLater(l: Ledger, r: Ledger)
    requires Inv(l) && r.log == l.log && l.clock <= r.clock
    requires forall id :: id in r.tables.schedules ==>
               && id in l.tables.schedules && r.tables.schedules[id] == l.tables.schedules[id]
               && id in l.edited && id in r.edited && r.edited[id] == l.edited[id]
    requires forall i :: 0 <= i < |r.tables.runs| ==> r.tables.runs[i] in l.tables.runs
    ensures Inv(r)
  {
    hide Upto, RowInv;
    forall id | id in r.tables.schedules ensures RowInv(r.tables.schedules[id], id, r.edited, r.log, r.clock) {
      assert RowInv(l.tables.schedules[id], id, l.edited, l.log, l.clock);
      RowKeeps(l.tables.schedules[id], id, l.edited, r.edited, l.log, l.clock);
      RowLater(l.tables.schedules[id], id, r.edited, l.log, l.clock, r.clock);
    }
    forall i | 0 <= i < |r.tables.runs| ensures r.tables.runs[i].key in r.log {
      assert r.tables.runs[i] in l.tables.runs;
      var j :| 0 <= j < |l.tables.runs| && l.tables.runs[j] == r.tables.runs[i];
    }
  }

  lemma RowsAreEdited(l: Ledger)
    requires RowsInv(l)
    ensures forall id :: id in l.tables.schedules ==> id in l.edited
  {
    forall id | id in l.tables.schedules ensures id in l.edited {
      assert RowInv(l.tables.schedules[id], id, l.edited, l.log, l.clock);
    }
  }

  lemma TimePasses(l: Ledger, now: int)
    requires Inv(l) && l.clock <= now
    ensures Inv(l.(clock := now))
  {
    RowsAreEdited(l);
    LessLater(l, l.(clock := now));
  }

  /** After an edit nothing is owed. */
  lemma EditedUpto(log: seq<Key>, id: string, t: Timing, now: int, next: int)
    requires NextTime(t, now) == Some(next)
    requires forall i :: 0 <= i < |log| ==> log[i].end <= now
    ensures Upto(log, id, t, now, next)
  {
    NextIsLater(t, now);
    hide NextTime, Allowed, TimeOn, IsExecution, SoundFrom;
    if SoundFrom(t, now) {
      forall d | Allowed(t, d) && now < TimeOn(t, d) ensures next <= TimeOn(t, d) {
        NextIsLeastFrom(t, now, now, d);
      }
    }
  }

  lemma AcceptableOccurs(t: Timing)
    requires Acceptable(t)
    ensures ValidTime(Relevant(t)) && Occurs(Relevant(t))
  {
  }

  /** A row that an edit leaves, beside rows that are as they were. */
  lemma AcceptedPut(l: Ledger, id: string, row: Schedule)
    requires Inv(l) && ValidTime(row.timing) && Occurs(row.timing)
    requires row.nextRunAt == (if row.enabled then NextTime(row.timing, l.clock) else None)
    requires row.enabled ==> row.nextRunAt.Some?
    ensures Inv(l.(tables := l.tables.(schedules := l.tables.schedules[id := row]), edited := l.edited[id := l.clock]))
  {
    hide Upto, NextTime, IsExecution, EndsRise, ValidTime, Occurs;
    var r := l.(tables := l.tables.(schedules := l.tables.schedules[id := row]), edited := l.edited[id := l.clock]);
    if row.enabled {
      EditedUpto(l.log, id, row.timing, l.clock, row.nextRunAt.value);
    }
    forall x | x in r.tables.schedules ensures RowInv(r.tables.schedules[x], x, r.edited, r.log, r.clock) {
      if x != id {
        assert RowInv(l.tables.schedules[x], x, l.edited, l.log, l.clock);
      }
    }
  }

  lemma PutKeepsInv(l: Ledger, e: Event)
    requires Inv(l) && Possible(l, e) && e.Put?
    ensures Inv(Next(l, e))
  {
    hide Inv, Acceptable, Usable, Relevant, NextTime, IsExecution, ValidTime, Occurs;
    TimePasses(l, e.now);
    if Accepted(e.timing, e.viewId, e.enabled, e.views, e.now) {
      AcceptableOccurs(e.timing);
      AcceptedPut(l.(clock := e.now), e.id, Next(l, e).tables.schedules[e.id]);
    }
  }

  lemma CycleInInv(l: Ledger, e: Event)
    requires Inv(l) && Possible(l, e) && e.Cycle?
    ensures Inv(Next(l, e)) && AreDue(e.order, l.tables.schedules, e.now)
    ensures if exists id :: id in e.order && Stuck(l.tables.schedules[id], e.views)
            then Next(l, e) == l.(clock := e.now)
            else Outcome(l.(clock := e.now), e.order, e.views, Next(l, e))
  {
    assert AreDue(e.order, l.tables.schedules, e.now) by {
      forall id | id in e.order ensures id in l.tables.schedules && IsDue(l.tables.schedules[id], e.now) {
        assert id in DueIds(l.tables.schedules, e.now);
      }
    }
    hide Inv, Outcome, AreDue, Stuck, DueOrder;
    TimePasses(l, e.now);
    CycleMeans(l.(clock := e.now), e.order, e.views);
  }

  lemma StepKeepsInv(l: Ledger, e: Event)
    requires Inv(l) && Possible(l, e)
    ensures Inv(Next(l, e))
  {
    match e
    case Put(_, _, _, _, _, _) => PutKeepsInv(l, e);
    case Cycle(_, _, _) => CycleInInv(l, e);
    case _ =>
      RowsAreEdited(l);
      LessLater(l, Next(l, e));
  }

  /** The invariant holds in every reachable state, whatever the zones. */
  lemma {:induction false} InvHolds(ledgers: seq<Ledger>, events: seq<Event>, i: nat)
    requires History(ledgers, events) && i < |ledgers|
    ensures Inv(ledgers[i])
  {
    if i > 0 {
      InvHolds(ledgers, events, i - 1);
      hide Inv, Next;
      StepKeepsInv(ledgers[i - 1], events[i - 1]);
    }
  }

  // ----- main results

  /** The next execution of a schedule is later than the end of every period enqueued for it. */
  lemma NextRunIsLater(ledgers: seq<Ledger>, events: seq<Event>, i: nat, id: string)
    requires History(ledgers, events) && i < |ledgers| && id in ledgers[i].tables.schedules
    ensures var s, log := ledgers[i].tables.schedules[id], ledgers[i].log;
            && (s.enabled ==> s.nextRunAt.Some?)
            && (s.nextRunAt.Some? ==>
                  && IsExecution(s.timing, s.nextRunAt.value)
                  && forall j :: 0 <= j < |log| && log[j].schedule == id ==> log[j].end < s.nextRunAt.value)
  {
    InvHolds(ledgers, events, i);
    hide SoundFrom;
    assert RowInv(ledgers[i].tables.schedules[id], id, ledgers[i].edited, ledgers[i].log, ledgers[i].clock);
  }

  lemma MovesOn(s: Schedule, views: map<string, View>, now: int)
    requires IsDue(s, now) && Usable(views, s.viewId) && !Stuck(s, views)
    ensures var r := AfterCycle(s, views, now); r.nextRunAt.Some? && s.nextRunAt.value < r.nextRunAt.value
  {
    NextIsLater(s.timing, s.nextRunAt.value + SECOND);
    hide NextTime;
  }

  /**
   * A cycle either is rolled back, because a search fails, or enqueues a new run for every due schedule with a
   * usable view and moves each of these on.
   */
  lemma CyclesMoveOn(ledgers: seq<Ledger>, events: seq<Event>, i: nat)
    requires History(ledgers, events) && i < |events| && events[i].Cycle?
    ensures var l, e, r := ledgers[i], events[i], ledgers[i + 1];
            && AreDue(e.order, l.tables.schedules, e.now)
            && if exists id :: id in e.order && Stuck(l.tables.schedules[id], e.views) then r == l.(clock := e.now)
               else
                 && Outcome(l.(clock := e.now), e.order, e.views, r)
                 && forall id :: id in e.order && Usable(e.views, l.tables.schedules[id].viewId) ==>
                      && id in r.tables.schedules && r.tables.schedules[id].nextRunAt.Some?
                      && l.tables.schedules[id].nextRunAt.value < r.tables.schedules[id].nextRunAt.value
  {
    InvHolds(ledgers, events, i);
    var l, e, r := ledgers[i], events[i], ledgers[i + 1];
    CycleInInv(l, e);
    if forall id :: id in e.order ==> !Stuck(l.tables.schedules[id], e.views) {
      forall id | id in e.order && Usable(e.views, l.tables.schedules[id].viewId)
        ensures id in r.tables.schedules && r.tables.schedules[id].nextRunAt.Some?
        ensures l.tables.schedules[id].nextRunAt.value < r.tables.schedules[id].nextRunAt.value
      {
        hide Inv, NewKeys, Next, Usable, IsExecution, Stuck, AfterCycle, DueOrder;
        MovesOn(l.tables.schedules[id], e.views, e.now);
      }
    }
  }

  /** No cycle is rolled back over a schedule whose zone has been regular since its last edit. */
  lemma RegularZonesNeverStick(ledgers: seq<Ledger>, events: seq<Event>, i: nat, id: string, views: map<string, View>)
    requires History(ledgers, events) && i < |ledgers| && id in ledgers[i].tables.schedules
    requires var s := ledgers[i].tables.schedules[id];
             && id in ledgers[i].edited && Zones.RegularFrom(s.timing.zone, ledgers[i].edited[id] - MARGIN)
             && s.nextRunAt.Some?
    ensures !Stuck(ledgers[i].tables.schedules[id], views)
  {
    hide Zones.RegularFrom, ValidTime, Occurs, IsExecution, Covered, NextTime;
    InvHolds(ledgers, events, i);
    var s := ledgers[i].tables.schedules[id];
    assert RowInv(s, id, ledgers[i].edited, ledgers[i].log, ledgers[i].clock);
    hide Inv;
    SearchSucceedsFrom(s.timing, ledgers[i].edited[id], s.nextRunAt.value + SECOND);
  }

  ghost predicate EnqueuedOnce(log: seq<Key>, key: Key) {
    exists j :: 0 <= j < |log| && log[j] == key
      && forall k :: 0 <= k < |log| && log[k].schedule == key.schedule && log[k].end == key.end ==> k == j
  }

  lemma InLogOnce(log: seq<Key>, key: Key)
    requires EndsRise(log) && key in log
    ensures EnqueuedOnce(log, key)
  {
    var j :| 0 <= j < |log| && log[j] == key;
  }

  /**
   * In a zone that has been regular since the last edit, every execution since then and before the next one has been
   * enqueued exactly once.
   */
  lemma EveryExecutionEnqueuedOnce(ledgers: seq<Ledger>, events: seq<Event>, i: nat, id: string, d: int)
    requires History(ledgers, events) && i < |ledgers| && id in ledgers[i].tables.schedules
    requires var s := ledgers[i].tables.schedules[id];
             && id in ledgers[i].edited && Zones.RegularFrom(s.timing.zone, ledgers[i].edited[id] - MARGIN)
             && s.nextRunAt.Some? && Allowed(s.timing, d)
             && ledgers[i].edited[id] < TimeOn(s.timing, d) < s.nextRunAt.value
    ensures var s := ledgers[i].tables.schedules[id];
            EnqueuedOnce(ledgers[i].log, KeyFor(id, s.timing.frequency, TimeOn(s.timing, d)))
  {
    var l := ledgers[i];
    InvHolds(ledgers, events, i);
    hide Zones.RegularFrom, Allowed, TimeOn, IsExecution, EnqueuedOnce, KeyFor, ValidTime, Occurs;
    assert RowInv(l.tables.schedules[id], id, l.edited, l.log, l.clock);
    var t := l.tables.schedules[id].timing;
    InLogOnce(l.log, KeyFor(id, t.frequency, TimeOn(t, d)));
  }

  /** Once an enabled schedule is no longer due, every execution up to the clock has been enqueued exactly once. */
  lemma NothingMissed(ledgers: seq<Ledger>, events: seq<Event>, i: nat, id: string, d: int)
    requires History(ledgers, events) && i < |ledgers| && id in ledgers[i].tables.schedules
    requires var s := ledgers[i].tables.schedules[id];
             && id in ledgers[i].edited && Zones.RegularFrom(s.timing.zone, ledgers[i].edited[id] - MARGIN)
             && s.enabled && !IsDue(s, ledgers[i].clock) && Allowed(s.timing, d)
             && ledgers[i].edited[id] < TimeOn(s.timing, d) <= ledgers[i].clock
    ensures var s := ledgers[i].tables.schedules[id];
            EnqueuedOnce(ledgers[i].log, KeyFor(id, s.timing.frequency, TimeOn(s.timing, d)))
  {
    hide Zones.RegularFrom, TimeOn, Allowed, IsExecution, Inv, EnqueuedOnce, KeyFor;
    NextRunIsLater(ledgers, events, i, id);
    EveryExecutionEnqueuedOnce(ledgers, events, i, id, d);
  }

  /**
   * Nothing but executions is enqueued: every period enqueued since the last edit ends at one and has the right
   * length.
   */
  lemma OnlyExecutionsEnqueued(ledgers: seq<Ledger>, events: seq<Event>, i: nat, id: string, j: nat)
    requires History(ledgers, events) && i < |ledgers| && id in ledgers[i].tables.schedules
    requires var s := ledgers[i].tables.schedules[id]; s.nextRunAt.Some? && id in ledgers[i].edited
    requires j < |ledgers[i].log| && ledgers[i].log[j].schedule == id && ledgers[i].edited[id] < ledgers[i].log[j].end
    ensures var s, key := ledgers[i].tables.schedules[id], ledgers[i].log[j];
            IsExecution(s.timing, key.end) && key.end - key.start == Length(s.timing.frequency)
  {
    InvHolds(ledgers, events, i);
    hide SoundFrom, IsExecution;
    assert RowInv(ledgers[i].tables.schedules[id], id, ledgers[i].edited, ledgers[i].log, ledgers[i].clock);
  }
}
