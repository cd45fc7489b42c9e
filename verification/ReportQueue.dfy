/** Report schedules, the runs that they enqueue, and the cycle that enqueues them. */
module ReportQueue {
  import opened Common
  import opened Schedules

  datatype View = View(page: string, compatible: bool)

  datatype Schedule = Schedule(
    timing: Timing, viewId: string, enabled: bool, nextRunAt: Option<int>, lastRunAt: Option<int>, lastError: string)

  /** What makes a scheduled run unique. */
  datatype Key = Key(schedule: string, start: int, end: int)

  datatype Run = Run(key: Key, viewId: string)

  datatype Tables = Tables(schedules: map<string, Schedule>, runs: seq<Run>)

  const MISSING_VIEW := "Saved Flow view is missing or incompatible"

  predicate Usable(views: map<string, View>, viewId: string) {
    viewId != "" && viewId in views && views[viewId].page == "flows" && views[viewId].compatible
  }

  predicate HasRun(runs: seq<Run>, key: Key) {
    exists i :: 0 <= i < |runs| && runs[i].key == key
  }

  function KeyFor(id: string, frequency: Frequency, end: int): Key {
    var (start, last) := ReportPeriod(frequency, end);
    Key(id, start, last)
  }

  ghost predicate SameTimings(a: map<string, Schedule>, b: map<string, Schedule>) {
    a.Keys == b.Keys && forall id :: id in a ==> a[id].timing == b[id].timing
  }

  // ----- enqueueing

  /** Enqueueing the run of one schedule whose period ends at `end`; `None` when the search for the next one fails. */
  function Enqueued(s: Tables, id: string, end: int, views: map<string, View>, now: int): (r: Option<Tables>)
    requires id in s.schedules
    ensures r.Some? ==> SameTimings(s.schedules, r.value.schedules)
  {
    var schedule := s.schedules[id];
    var key := KeyFor(id, schedule.timing.frequency, end);
    if !Usable(views, schedule.viewId) then
      Some(s.(schedules := s.schedules[id := schedule.(enabled := false, lastError := MISSING_VIEW)]))
    else if HasRun(s.runs, key) then Some(s)
    else
      var next := NextTime(schedule.timing, end + SECOND);
      if next.None? then None
      else
        Some(Tables(s.schedules[id := schedule.(nextRunAt := next, lastRunAt := Some(now), lastError := "")],
                    s.runs + [Run(key, schedule.viewId)]))
  }

  predicate IsDue(schedule: Schedule, now: int) {
    schedule.enabled && schedule.nextRunAt.Some? && schedule.nextRunAt.value <= now
  }

  function DueIds(schedules: map<string, Schedule>, now: int): set<string> {
    set id | id in schedules && IsDue(schedules[id], now)
  }

  /** The due schedules, each once, in the order in which the database returns them. */
  ghost predicate DueOrder(order: seq<string>, schedules: map<string, Schedule>, now: int) {
    Distinct(order) && forall id :: id in order <==> id in DueIds(schedules, now)
  }

  function EnqueuedNext(s: Tables, id: string, views: map<string, View>, now: int): (r: Option<Tables>)
    requires id in s.schedules
    ensures r.Some? ==> SameTimings(s.schedules, r.value.schedules)
  {
    Enqueued(s, id, s.schedules[id].nextRunAt.GetOr(now), views, now)
  }

  /** The schedules of a list, one after the other; a failed search ends it. */
  ghost function AllEnqueued(s: Tables, order: seq<string>, views: map<string, View>, now: int): (r: Option<Tables>)
    requires forall id :: id in order ==> id in s.schedules
    ensures r.Some? ==> SameTimings(s.schedules, r.value.schedules)
  {
    hide Enqueued;
    if order == [] then Some(s)
    else
      var n := |order| - 1;
      assert order == order[..n] + [order[n]];
      var before := AllEnqueued(s, order[..n], views, now);
      if before.None? then None else EnqueuedNext(before.value, order[n], views, now)
  }

  lemma NoneEnqueued(s: Tables, views: map<string, View>, now: int)
    ensures AllEnqueued(s, [], views, now) == Some(s)
  {
  }

  lemma EnqueueOneMore(s: Tables, order: seq<string>, i: nat, views: map<string, View>, now: int)
    requires i < |order| && forall id :: id in order ==> id in s.schedules
    ensures order[i] in s.schedules
    ensures forall id :: id in order[..i] ==> id in s.schedules
    ensures forall id :: id in order[..i + 1] ==> id in s.schedules
    ensures var before := AllEnqueued(s, order[..i], views, now);
            AllEnqueued(s, order[..i + 1], views, now)
            == if before.None? then None else EnqueuedNext(before.value, order[i], views, now)
  {
    hide Enqueued;
    assert order[..i + 1][..i] == order[..i];
  }

  /** Once the search has failed for one schedule, the cycle stays failed. */
  lemma {:induction false} FailedStaysFailed(s: Tables, order: seq<string>, i: nat, views: map<string, View>, now: int)
    requires i <= |order| && (forall id :: id in order ==> id in s.schedules)
    requires (forall id :: id in order[..i] ==> id in s.schedules) && AllEnqueued(s, order[..i], views, now).None?
    ensures AllEnqueued(s, order, views, now).None?
    decreases |order| - i
  {
    hide EnqueuedNext, AllEnqueued;
    if i == |order| {
      assert order[..i] == order;
    } else {
      EnqueueOneMore(s, order, i, views, now);
      FailedStaysFailed(s, order, i + 1, views, now);
    }
  }

  /** What a cycle leaves: after a failed search the transaction is rolled back. */
  ghost function Cycled(s: Tables, order: seq<string>, views: map<string, View>, now: int): Tables
    requires forall id :: id in order ==> id in s.schedules
  {
    AllEnqueued(s, order, views, now).GetOr(s)
  }

  // ----- creating and editing

  /** What the program accepts as the timing of a schedule. */
  predicate Acceptable(t: Timing) {
    && ValidTime(t)
    && (t.weekday.Some? ==> 0 <= t.weekday.value <= 6) && (t.monthDay.Some? ==> 1 <= t.monthDay.value <= 28)
    && (t.frequency.Weekly? ==> t.weekday.Some?) && (t.frequency.Monthly? ==> t.monthDay.Some?)
  }

  /** Keeps only the day that the frequency uses. */
  function Relevant(t: Timing): Timing {
    t.(weekday := if t.frequency.Weekly? then t.weekday else None,
       monthDay := if t.frequency.Monthly? then t.monthDay else None)
  }

  /** Whether a request to create or change a schedule succeeds. */
  predicate Accepted(timing: Timing, viewId: string, enabled: bool, views: map<string, View>, now: int) {
    Acceptable(timing) && Usable(views, viewId) && (enabled ==> NextTime(Relevant(timing), now).Some?)
  }

  function Edited(
    s: Tables, id: string, timing: Timing, viewId: string, enabled: bool, views: map<string, View>, now: int): Tables
  {
    if !Accepted(timing, viewId, enabled, views, now) then s
    else
      var t := Relevant(timing);
      var next := if enabled then NextTime(t, now) else None;
      var last := if id in s.schedules then s.schedules[id].lastRunAt else None;
      s.(schedules := s.schedules[id := Schedule(t, viewId, enabled, next, last, "")])
  }

  // ----- the tables

  class ScheduleTables {
    var schedules: map<string, Schedule>
    var runs: seq<Run>

    function Rows(): Tables
      reads this
    {
      Tables(schedules, runs)
    }

    constructor ()
      ensures Rows() == Tables(map[], [])
    {
      schedules, runs := map[], [];
    }

    /** Creates or changes a schedule; the answer says whether the request succeeded. */
    method PutSchedule(
      id: string, timing: Timing, viewId: string, enabled: bool, views: map<string, View>, now: int) returns (ok: bool)
      modifies this
      ensures ok <==> Accepted(timing, viewId, enabled, views, now)
      ensures Rows() == Edited(old(Rows()), id, timing, viewId, enabled, views, now)
    {
      hide NextTime, ValidTime;
      ok := Acceptable(timing) && Usable(views, viewId);
      if ok {
        var t := Relevant(timing);
        var next := None;
        if enabled {
          next := NextScheduleTime(t, now);
          if next.None? {
            return false;
          }
        }
        var last := if id in schedules then schedules[id].lastRunAt else None;
        schedules := schedules[id := Schedule(t, viewId, enabled, next, last, "")];
      }
    }

    /** After a failed search the tables hold changes that are not to be kept. */
    method EnqueueScheduleRun(id: string, periodEnd: int, views: map<string, View>, now: int)
      returns (failed: bool, run: Option<Run>)
      requires id in schedules
      modifies this
      ensures failed <==> Enqueued(old(Rows()), id, periodEnd, views, now).None?
      ensures !failed ==> Some(Rows()) == Enqueued(old(Rows()), id, periodEnd, views, now)
      ensures !failed ==> (run.Some? <==> Usable(views, old(schedules[id].viewId)))
      ensures !failed && run.Some? ==>
                run.value in runs && run.value.key == KeyFor(id, old(schedules[id].timing.frequency), periodEnd)
    {
      hide NextTime;
      failed := false;
      var schedule := schedules[id];
      if !Usable(views, schedule.viewId) {
        schedules := schedules[id := schedule.(enabled := false, lastError := MISSING_VIEW)];
        return false, None;
      }
      var key := KeyFor(id, schedule.timing.frequency, periodEnd);
      for i := 0 to |runs|
        invariant Rows() == old(Rows()) && !failed
        invariant forall j :: 0 <= j < i ==> runs[j].key != key
      {
        if runs[i].key == key {
          return false, Some(runs[i]);
        }
      }
      run := Some(Run(key, schedule.viewId));
      runs := runs + [run.value];
      var next := NextScheduleTime(schedule.timing, periodEnd + SECOND);
      if next.None? {
        return true, None;
      }
      schedules := schedules[id := schedule.(nextRunAt := next, lastRunAt := Some(now), lastError := "")];
      assert runs[|runs| - 1] == run.value;
    }

    method SelectDue(now: int) returns (due: seq<string>)
      ensures DueOrder(due, schedules, now)
    {
      due := [];
      var left := DueIds(schedules, now);
      while left != {}
        invariant left <= DueIds(schedules, now) && Distinct(due)
        invariant forall id :: id in due <==> id in DueIds(schedules, now) && id !in left
        decreases |left|
      {
        var id :| id in left;
        due := due + [id];
        left := left - {id};
      }
    }

    /** The scheduling part of a reporting cycle. */
    method RunDueSchedules(views: map<string, View>, now: int) returns (due: seq<string>, failed: bool)
      modifies this
      ensures DueOrder(due, old(schedules), now)
      ensures Rows() == Cycled(old(Rows()), due, views, now)
      ensures failed <==> AllEnqueued(old(Rows()), due, views, now).None?
    {
      hide Enqueued, AllEnqueued;
      due := SelectDue(now);
      failed := false;
      var start := Rows();
      NoneEnqueued(start, views, now);
      assert due[..0] == [];
      for i := 0 to |due|
        invariant forall id :: id in due ==> id in start.schedules
        invariant forall id :: id in due[..i] ==> id in start.schedules
        invariant AllEnqueued(start, due[..i], views, now) == Some(Rows())
        invariant SameTimings(start.schedules, schedules)
      {
        EnqueueOneMore(start, due, i, views, now);
        var run;
        failed, run := EnqueueScheduleRun(due[i], schedules[due[i]].nextRunAt.GetOr(now), views, now);
        if failed {
          FailedStaysFailed(start, due, i + 1, views, now);
          schedules, runs := start.schedules, start.runs;
          return;
        }
      }
      assert due[..|due|] == due;
    }
  }
}
