/** When schedules run, by dates and wall clocks, and what edits and cycles do to them, by their columns. */
module ScheduleMeaning {
  import opened Common
  import opened Calendar
  import opened Zones
  import opened Schedules
  import opened ReportQueue
  import opened ScheduleHistory

  // ----- dates and wall clocks

  /** The reading that a timing asks for on a date. */
  function LocalTime(t: Timing, d: Date): int {
    (Ordinal(d) - EPOCH) * DAY + t.hour * HOUR + t.minute * MINUTE
  }

  /** Every date; the dates of a weekday, Monday being 0; or of a number. Without a choice the first is meant. */
  predicate Asked(t: Timing, d: Date) {
    && IsDate(d)
    && match t.frequency
       case Daily => true
       case Weekly => (Ordinal(d) + 6) % 7 == t.weekday.GetOr(0)
       case Monthly => d.day == if t.monthDay in {None, Some(0)} then 1 else t.monthDay.value
  }

  /** The first instant at which the zone's clock has come to a reading. */
  ghost predicate Arrives(z: Zone, reading: int, v: int) {
    reading <= v + z.offsetAt(v) && forall u :: reading <= u + z.offsetAt(u) ==> v <= u
  }

  /** The timing is executed at `v` for the date `d`. */
  ghost predicate RunsOn(t: Timing, d: Date, v: int) {
    Asked(t, d) && Arrives(t.zone, LocalTime(t, d), v)
  }

  lemma AskedIff(t: Timing, day: int)
    ensures Allowed(t, day) <==> Asked(t, DateAt(day))
  {
    WeekdayOfDate(day);
    hide DateAt, Ordinal, Weekday;
  }

  lemma LocalTimeOf(t: Timing, day: int)
    ensures LocalTime(t, DateAt(day)) == Reading(t, day)
  {
    OrdinalOfDay(day);
    hide DateAt, Ordinal;
  }

  /** The execution on a day is the first instant at which the wall clock has come to the local time of its date. */
  lemma TimeOnArrives(t: Timing, day: int, v: int)
    requires Regular(t.zone) && ValidTime(t)
    ensures Arrives(t.zone, LocalTime(t, DateAt(day)), v) <==> v == TimeOn(t, day)
  {
    LocalTimeOf(t, day);
    hide Regular, TimeOn, LocalTime, Reading, DateAt;
    RunsWhenTheClockArrives(t, day);
    assert Wall(t.zone, v) == v + t.zone.offsetAt(v);
    forall u | Reading(t, day) <= u + t.zone.offsetAt(u) ensures TimeOn(t, day) <= u {
      assert Reading(t, day) <= Wall(t.zone, u);
    }
  }

  lemma DateIsAsked(t: Timing, d: Date)
    requires Asked(t, d)
    ensures IsDate(d)
  {
  }

  /**
   * The search succeeds iff the time of day and the days asked for exist. It finds the first instant after `after`
   * at which the timing is executed for any date asked for.
   */
  lemma NextMeans(t: Timing, after: int)
    requires Regular(t.zone)
    ensures NextTime(t, after).Some? <==>
            && 0 <= t.hour < 24 && 0 <= t.minute < 60
            && (t.frequency.Weekly? ==> 0 <= t.weekday.GetOr(0) <= 6)
            && (t.frequency.Monthly? ==> t.monthDay in {None, Some(0)} || 1 <= t.monthDay.value <= 31)
    ensures NextTime(t, after).Some? ==>
              var v := NextTime(t, after).value;
              && after < v && (exists d :: RunsOn(t, d, v))
              && forall d, u :: RunsOn(t, d, u) && after < u ==> v <= u
  {
    SearchSucceedsIff(t, after);
    assert Occurs(t) <==> (t.frequency.Weekly? ==> 0 <= t.weekday.GetOr(0) <= 6)
                          && (t.frequency.Monthly? ==> t.monthDay in {None, Some(0)} || 1 <= t.monthDay.value <= 31);
    if NextTime(t, after).Some? {
      var v := NextTime(t, after).value;
      NextIsLater(t, after);
      hide Regular, NextTime, TimeOn, Occurs, ValidTime, Allowed, Asked, LocalTime, Arrives, DateAt, Ordinal;
      var day := ExecutionDay(t, v);
      AskedIff(t, day);
      TimeOnArrives(t, day, v);
      assert RunsOn(t, DateAt(day), v);
      forall d, u | RunsOn(t, d, u) && after < u ensures v <= u {
        DateIsAsked(t, d);
        var n := Ordinal(d) - EPOCH;
        DayOfOrdinal(d);
        AskedIff(t, n);
        TimeOnArrives(t, n, u);
        NextIsLeast(t, after, n);
      }
    }
  }

  lemma FixedArrival(z: Zone, offset: int, reading: int)
    requires Fixed(z, offset)
    ensures Arrives(z, reading, reading - offset)
  {
    assert z.offsetAt(reading - offset) == offset;
  }

  /** Where the offset never changes, the clock shows the time asked for on the first date asked for to come. */
  lemma NextInFixedZone(t: Timing, offset: int, after: int) returns (d: Date)
    requires Fixed(t.zone, offset) && NextTime(t, after).Some?
    ensures Asked(t, d) && NextTime(t, after).value + offset == LocalTime(t, d)
    ensures after < LocalTime(t, d) - offset
    ensures forall e :: Asked(t, e) && after < LocalTime(t, e) - offset ==> LocalTime(t, d) <= LocalTime(t, e)
  {
    FixedIsRegular(t.zone, offset);
    NextMeans(t, after);
    hide Regular, NextTime, Asked, LocalTime;
    d :| RunsOn(t, d, NextTime(t, after).value);
    var v := NextTime(t, after).value;
    assert LocalTime(t, d) <= LocalTime(t, d) - offset + t.zone.offsetAt(LocalTime(t, d) - offset);
    assert t.zone.offsetAt(v) == offset;
    forall e | Asked(t, e) && after < LocalTime(t, e) - offset ensures LocalTime(t, d) <= LocalTime(t, e) {
      FixedArrival(t.zone, offset, LocalTime(t, e));
      assert RunsOn(t, e, LocalTime(t, e) - offset);
    }
  }

  // ----- any zone

  /** Turned into an instant and back, the reading has the same hour and the same minute. */
  predicate KeepsTime(z: Zone, w: int) {
    var u := w - z.offsetOf(w);
    var back := u + z.offsetAt(u);
    back % DAY / HOUR == w % DAY / HOUR && back % HOUR / MINUTE == w % HOUR / MINUTE
  }

  lemma HourAndMinute(w: int)
    ensures MinuteOfDay(w) == 60 * (w % DAY / HOUR) + w % HOUR / MINUTE
    ensures 0 <= w % HOUR / MINUTE < 60
  {
    var day, rest := w / DAY, w % DAY;
    assert w == day * 24 * HOUR + rest;
    assert w % HOUR == rest % HOUR by {
      assert w == (day * 24 + rest / HOUR) * HOUR + rest % HOUR;
    }
    assert rest == rest / HOUR * 60 * MINUTE + rest % HOUR;
  }

  lemma KeepsTimeIff(z: Zone, w: int)
    ensures KeepsTime(z, w) <==> SameClock(z, w)
  {
    HourAndMinute(w);
    HourAndMinute(Wall(z, Instant(z, w)));
    hide MinuteOfDay;
  }

  /** The first of 121 readings, a minute apart, that keeps its time; or the one after them. */
  ghost predicate MovedBy(z: Zone, reading: int, j: int) {
    && 0 <= j <= 121 && (forall i :: 0 <= i < j ==> !KeepsTime(z, Grid(reading, i)))
    && (j < 121 ==> KeepsTime(z, Grid(reading, j)))
  }

  /** The instant that the reading of a date, moved on so far, is turned into. */
  ghost predicate RunsFor(t: Timing, d: Date, v: int) {
    exists j :: MovedBy(t.zone, LocalTime(t, d), j)
      && v == Grid(LocalTime(t, d), j) - t.zone.offsetOf(Grid(LocalTime(t, d), j))
  }

  lemma {:induction false} SettledWhere(z: Zone, w: int, n: nat) returns (j: nat)
    ensures j <= n && Settled(z, w, n) == Grid(w, j)
    ensures (forall i :: 0 <= i < j ==> !KeepsTime(z, Grid(w, i))) && (j < n ==> KeepsTime(z, Grid(w, j)))
    decreases n
  {
    KeepsTimeIff(z, w);
    hide KeepsTime, SameClock;
    assert Grid(w, 0) == w;
    if n == 0 || SameClock(z, w) {
      j := 0;
    } else {
      var later := w + MINUTE;
      var k := SettledWhere(z, later, n - 1);
      j := k + 1;
      assert Grid(later, k) == Grid(w, j);
      forall i | 0 <= i < j ensures !KeepsTime(z, Grid(w, i)) {
        assert i > 0 ==> Grid(later, i - 1) == Grid(w, i);
      }
    }
  }

  lemma TimeOnMeans(t: Timing, day: int, v: int)
    ensures RunsFor(t, DateAt(day), v) <==> v == TimeOn(t, day)
  {
    LocalTimeOf(t, day);
    var w := Reading(t, day);
    var k := SettledWhere(t.zone, w, SHIFTS);
    hide KeepsTime, Settled, DateAt, Grid, LocalTime, Reading;
    assert MovedBy(t.zone, w, k) && TimeOn(t, day) == Grid(w, k) - t.zone.offsetOf(Grid(w, k));
    forall j | MovedBy(t.zone, w, j) ensures j == k {
      assert j < k ==> KeepsTime(t.zone, Grid(w, j));
      assert k < j ==> KeepsTime(t.zone, Grid(w, k));
    }
  }

  /** A later execution for the date of a day. */
  ghost predicate RunsLater(t: Timing, day: int, after: int, v: int) {
    after < v && Asked(t, DateAt(day)) && RunsFor(t, DateAt(day), v)
  }

  lemma RunsLaterIff(t: Timing, day: int, after: int, v: int)
    ensures RunsLater(t, day, after, v) <==> Allowed(t, day) && TimeOn(t, day) > after && v == TimeOn(t, day)
  {
    hide RunsFor, TimeOn, DateAt, Asked, Allowed;
    AskedIff(t, day);
    TimeOnMeans(t, day, v);
  }

  /** The first of the days from `first` on that has a later execution. */
  ghost predicate FirstDay(t: Timing, first: int, day: int, after: int, v: int) {
    RunsLater(t, day, after, v) && forall e, u :: first <= e < day ==> !RunsLater(t, e, after, u)
  }

  lemma {:induction false} SearchMeans(t: Timing, first: int, n: nat, after: int)
    ensures var r := Search(t, first, n, after);
            && (r.None? ==> forall day, v :: first <= day < first + n ==> !RunsLater(t, day, after, v))
            && (r.Some? ==> exists day :: first <= day < first + n && FirstDay(t, first, day, after, r.value))
    decreases n
  {
    hide RunsLater, TimeOn, Allowed;
    if n > 0 {
      forall v
        ensures RunsLater(t, first, after, v)
                <==> Allowed(t, first) && TimeOn(t, first) > after && v == TimeOn(t, first)
      {
        RunsLaterIff(t, first, after, v);
      }
      var r := Search(t, first, n, after);
      if Allowed(t, first) && TimeOn(t, first) > after {
        assert FirstDay(t, first, first, after, r.value);
      } else {
        SearchMeans(t, first + 1, n - 1, after);
        if r.Some? {
          var day :| first + 1 <= day < first + n && FirstDay(t, first + 1, day, after, r.value);
          assert FirstDay(t, first, day, after, r.value);
        }
      }
    }
  }

  /**
   * In any zone whatever, the search looks at the 401 dates from that of the wall clock on, and finds the execution
   * for the first of them that is asked for and has one later than `after`.
   */
  lemma NextAnywhere(t: Timing, after: int)
    requires 0 <= t.hour < 24 && 0 <= t.minute < 60
    ensures var today, r := (after + t.zone.offsetAt(after)) / DAY, NextTime(t, after);
            && (r.None? ==> forall day, v :: today <= day <= today + 400 ==> !RunsLater(t, day, after, v))
            && (r.Some? ==> exists day :: today <= day <= today + 400 && FirstDay(t, today, day, after, r.value))
  {
    var today := (after + t.zone.offsetAt(after)) / DAY;
    SearchMeans(t, today, 401, after);
    hide RunsLater, FirstDay, Search;
    assert today == Wall(t.zone, after) / DAY;
  }

  // ----- edits

  /** A view of the flow page that the program can still read. */
  predicate HasView(views: map<string, View>, viewId: string) {
    viewId != "" && viewId in views && views[viewId].page == "flows" && views[viewId].compatible
  }

  /**
   * A request to create or change a schedule is accepted iff its time of day exists, its days do and the one that its
   * frequency needs is given, its view can be used, and, if it is enabled, there is a next execution.
   */
  lemma AcceptedIff(t: Timing, viewId: string, enabled: bool, views: map<string, View>, now: int)
    ensures Accepted(t, viewId, enabled, views, now) <==>
            && 0 <= t.hour <= 23 && 0 <= t.minute <= 59
            && (t.weekday.Some? ==> 0 <= t.weekday.value <= 6)
            && (t.monthDay.Some? ==> 1 <= t.monthDay.value <= 28)
            && (t.frequency.Weekly? ==> t.weekday.Some?) && (t.frequency.Monthly? ==> t.monthDay.Some?)
            && HasView(views, viewId)
            && (enabled ==> NextTime(Relevant(t), now).Some?)
  {
    hide NextTime;
  }

  /** An accepted request replaces the row: with the day that the frequency uses, and the next execution if enabled. */
  lemma EditMeans(
    s: Tables, id: string, t: Timing, viewId: string, enabled: bool, views: map<string, View>, now: int)
    requires Accepted(t, viewId, enabled, views, now)
    ensures var r := Edited(s, id, t, viewId, enabled, views, now);
            var row := r.schedules[id];
            && r.runs == s.runs && r.schedules == s.schedules[id := row]
            && row.timing.frequency == t.frequency && row.timing.zone == t.zone
            && row.timing.hour == t.hour && row.timing.minute == t.minute
            && row.timing.weekday == (if t.frequency.Weekly? then t.weekday else None)
            && row.timing.monthDay == (if t.frequency.Monthly? then t.monthDay else None)
            && row.viewId == viewId && row.enabled == enabled && row.lastError == ""
            && row.nextRunAt == (if enabled then NextTime(row.timing, now) else None)
            && row.lastRunAt == (if id in s.schedules then s.schedules[id].lastRunAt else None)
  {
    hide NextTime, Accepted;
  }

  // ----- cycles

  /** Enabled, and its next execution has come. */
  predicate DueNow(s: Schedule, now: int) {
    s.enabled && s.nextRunAt.Some? && s.nextRunAt.value <= now
  }

  /** One day, a week, or thirty days. */
  function PeriodDays(f: Frequency): int {
    match f
    case Daily => 1
    case Weekly => 7
    case Monthly => 30
  }

  /** The run of a due schedule: for the period that ends at its execution. */
  predicate RunOf(key: Key, id: string, l: Ledger, views: map<string, View>, now: int) {
    && id in l.tables.schedules && DueNow(l.tables.schedules[id], now)
    && HasView(views, l.tables.schedules[id].viewId)
    && var s := l.tables.schedules[id];
       key == Key(id, s.nextRunAt.value - PeriodDays(s.timing.frequency) * DAY, s.nextRunAt.value)
  }

  /** What a cycle makes of a row. */
  ghost predicate CycledRow(r: Schedule, s: Schedule, views: map<string, View>, now: int) {
    if !DueNow(s, now) then r == s
    else if HasView(views, s.viewId) then
      r == s.(nextRunAt := NextTime(s.timing, s.nextRunAt.value + SECOND), lastRunAt := Some(now), lastError := "")
    else r == s.(enabled := false, lastError := MISSING_VIEW)
  }

  lemma KeyOfRun(id: string, f: Frequency, end: int)
    ensures KeyFor(id, f, end) == Key(id, end - PeriodDays(f) * DAY, end)
  {
  }

  lemma {:induction false} NewKeysAre(
    schedules: map<string, Schedule>, order: seq<string>, views: map<string, View>, key: Key)
    requires forall id :: id in order ==> id in schedules && schedules[id].nextRunAt.Some?
    ensures key in NewKeys(schedules, order, views) <==>
            exists i :: 0 <= i < |order| && order[i] in order && Usable(views, schedules[order[i]].viewId)
              && key == KeyFor(order[i], schedules[order[i]].timing.frequency, schedules[order[i]].nextRunAt.value)
    decreases |order|
  {
    hide Usable, KeyFor;
    if order != [] {
      var n := |order| - 1;
      assert order == order[..n] + [order[n]];
      NewKeysAre(schedules, order[..n], views, key);
      assert forall i :: 0 <= i < n ==> order[..n][i] == order[i] && order[i] in order;
      assert order[n] in order;
    }
  }

  lemma AddedKey(l: Ledger, e: Event, key: Key)
    requires e.Cycle?
    requires forall id :: id in e.order ==>
               id in l.tables.schedules && l.tables.schedules[id].nextRunAt.Some?
    requires forall id :: id in e.order <==> id in l.tables.schedules && DueNow(l.tables.schedules[id], e.now)
    ensures key in NewKeys(l.tables.schedules, e.order, e.views) <==> exists id :: RunOf(key, id, l, e.views, e.now)
  {
    var schedules := l.tables.schedules;
    NewKeysAre(schedules, e.order, e.views, key);
    forall id, f, end { KeyOfRun(id, f, end); }
    hide KeyFor, NewKeys;
    if key in NewKeys(schedules, e.order, e.views) {
      var i :| 0 <= i < |e.order| && e.order[i] in e.order && Usable(e.views, schedules[e.order[i]].viewId)
               && key == KeyFor(e.order[i], schedules[e.order[i]].timing.frequency,
                                schedules[e.order[i]].nextRunAt.value);
      assert RunOf(key, e.order[i], l, e.views, e.now);
    }
    if id :| RunOf(key, id, l, e.views, e.now) {
      var i :| 0 <= i < |e.order| && e.order[i] == id;
    }
  }

  /** A due schedule with a usable view whose search for the next execution fails. */
  predicate Fails(id: string, l: Ledger, views: map<string, View>, now: int) {
    && id in l.tables.schedules && DueNow(l.tables.schedules[id], now)
    && HasView(views, l.tables.schedules[id].viewId)
    && NextTime(l.tables.schedules[id].timing, l.tables.schedules[id].nextRunAt.value + SECOND).None?
  }

  lemma FailsIff(l: Ledger, e: Event)
    requires Possible(l, e) && e.Cycle?
    ensures forall id :: id in e.order <==> id in l.tables.schedules && DueNow(l.tables.schedules[id], e.now)
    ensures forall id :: id in e.order ==>
              (Stuck(l.tables.schedules[id], e.views) <==> Fails(id, l, e.views, e.now))
  {
    assert forall id :: id in e.order <==> id in DueIds(l.tables.schedules, e.now);
    hide NextTime;
  }

  lemma OutcomeRows(l: Ledger, order: seq<string>, views: map<string, View>, r: Ledger, id: string)
    requires Outcome(l, order, views, r) && id in l.tables.schedules
    requires id in order <==> DueNow(l.tables.schedules[id], l.clock)
    ensures id in r.tables.schedules && CycledRow(r.tables.schedules[id], l.tables.schedules[id], views, l.clock)
  {
    hide NextTime, NewKeys;
  }

  /**
   * A cycle is rolled back iff the search for the next execution of some due schedule with a usable view fails.
   * Otherwise it enqueues exactly the runs of these schedules and moves each on, disables the other due schedules,
   * and leaves those that are not due.
   */
  lemma CycleRuns(l: Ledger, e: Event)
    requires Inv(l) && Possible(l, e) && e.Cycle?
    ensures var r := Next(l, e);
            if exists id :: Fails(id, l, e.views, e.now) then r == l.(clock := e.now)
            else
              && r.clock == e.now && r.edited == l.edited && l.log <= r.log
              && (forall key :: key in r.log[|l.log|..] <==> exists id :: RunOf(key, id, l, e.views, e.now))
              && r.tables.schedules.Keys == l.tables.schedules.Keys
              && forall id :: id in l.tables.schedules ==>
                   CycledRow(r.tables.schedules[id], l.tables.schedules[id], e.views, e.now)
  {
    var schedules, r := l.tables.schedules, Next(l, e);
    CycleInInv(l, e);
    FailsIff(l, e);
    hide Inv, Next, NextTime, Possible, Stuck, HasView, Usable, CycledRow, AfterCycle, RunOf;
    if !exists id :: Fails(id, l, e.views, e.now) {
      assert Outcome(l.(clock := e.now), e.order, e.views, r);
      forall key
        ensures key in NewKeys(schedules, e.order, e.views) <==> exists id :: RunOf(key, id, l, e.views, e.now)
      {
        AddedKey(l, e, key);
      }
      assert r.log[|l.log|..] == NewKeys(schedules, e.order, e.views);
      forall id | id in schedules ensures CycledRow(r.tables.schedules[id], schedules[id], e.views, e.now) {
        OutcomeRows(l.(clock := e.now), e.order, e.views, r, id);
      }
    } else {
      var id :| Fails(id, l, e.views, e.now);
      assert id in e.order;
    }
  }
}
