/** When reports are due: the search for the next execution, and the period that a report covers. */
module Schedules {
  import opened Common
  import opened Calendar
  import opened Zones

  datatype Frequency = Daily | Weekly | Monthly

  datatype Timing = Timing(
    frequency: Frequency, zone: Zone, hour: int, minute: int, weekday: Option<int>, monthDay: Option<int>)

  /** The host language's `value or default`: zero counts as missing. */
  function OrElse(value: Option<int>, default: int): int {
    if value.None? || value.value == 0 then default else value.value
  }

  predicate Allowed(t: Timing, day: int) {
    match t.frequency
    case Daily => true
    case Weekly => Weekday(day) == OrElse(t.weekday, 0)
    case Monthly => DateAt(day).day == OrElse(t.monthDay, 1)
  }

  predicate ValidTime(t: Timing) {
    0 <= t.hour < 24 && 0 <= t.minute < 60
  }

  /** The wall-clock reading asked for on a day. */
  function Reading(t: Timing, day: int): int {
    day * DAY + t.hour * HOUR + t.minute * MINUTE
  }

  function MinuteOfDay(w: int): int {
    w % DAY / MINUTE
  }

  /** Turned into an instant and back, the reading has the same hour and minute. */
  predicate SameClock(z: Zone, w: int) {
    MinuteOfDay(Wall(z, Instant(z, w))) == MinuteOfDay(w)
  }

  const SHIFTS := 121
  const SEARCH_DAYS := 401

  /** Moves a reading on by minutes until it keeps its hour and minute, at most `n` times. */
  function Settled(z: Zone, w: int, n: nat): int
    decreases n
  {
    if n == 0 || SameClock(z, w) then w else Settled(z, w + MINUTE, n - 1)
  }

  /** The instant of execution on a day. */
  function TimeOn(t: Timing, day: int): int {
    Instant(t.zone, Settled(t.zone, Reading(t, day), SHIFTS))
  }

  /** The first execution after `after` on an allowed day among `n` days from `day` on. */
  function Search(t: Timing, day: int, n: nat, after: int): Option<int>
    decreases n
  {
    if n == 0 then None
    else if Allowed(t, day) && TimeOn(t, day) > after then Some(TimeOn(t, day))
    else Search(t, day + 1, n - 1, after)
  }

  /** `None` stands for the error that the program raises for a time of day that does not exist, or a failed search. */
  function NextTime(t: Timing, after: int): Option<int> {
    if ValidTime(t) then Search(t, Wall(t.zone, after) / DAY, SEARCH_DAYS, after) else None
  }

  lemma SearchStep(t: Timing, day: int, n: nat, after: int)
    requires n > 0
    ensures Search(t, day, n, after)
            == if Allowed(t, day) && TimeOn(t, day) > after then Some(TimeOn(t, day))
               else Search(t, day + 1, n - 1, after)
  {
  }

  /** Shifts a reading that the zone skips to the first valid minute, and turns it into an instant. */
  method CandidateOn(t: Timing, day: int) returns (value: int)
    ensures value == TimeOn(t, day)
  {
    hide SameClock, Instant;
    var candidate := Reading(t, day);
    var shift := 0;
    while shift < SHIFTS && !SameClock(t.zone, candidate)
      invariant 0 <= shift <= SHIFTS
      invariant Settled(t.zone, Reading(t, day), SHIFTS) == Settled(t.zone, candidate, SHIFTS - shift)
    {
      candidate := candidate + MINUTE;
      shift := shift + 1;
    }
    value := Instant(t.zone, candidate);
  }

  lemma NothingToSearch(t: Timing, day: int, after: int)
    ensures Search(t, day, 0, after) == None
  {
  }

  method NextScheduleTime(t: Timing, after: int) returns (r: Option<int>)
    ensures r == NextTime(t, after)
  {
    hide Search, Allowed, TimeOn, ValidTime;
    if !ValidTime(t) {
      return None;
    }
    var today := Wall(t.zone, after) / DAY;
    for offset := 0 to SEARCH_DAYS
      invariant NextTime(t, after) == Search(t, today + offset, SEARCH_DAYS - offset, after)
    {
      SearchStep(t, today + offset, SEARCH_DAYS - offset, after);
      if Allowed(t, today + offset) {
        var value := CandidateOn(t, today + offset);
        if value > after {
          return Some(value);
        }
      }
    }
    NothingToSearch(t, today + SEARCH_DAYS, after);
    r := None;
  }

  // ----- the instant of execution on a day

  lemma MultiplesAreFar(x: int, y: int)
    requires x % MINUTE == 0 && y % MINUTE == 0 && x < y
    ensures x + MINUTE <= y
  {
    assert x == x / MINUTE * MINUTE && y == y / MINUTE * MINUTE;
  }

  lemma OnMinuteOfDay(x: int)
    requires x % MINUTE == 0
    ensures x == x / DAY * DAY + MinuteOfDay(x) * MINUTE
  {
    var m := x / MINUTE;
    assert x == m / 1440 * DAY + m % 1440 * MINUTE;
  }

  lemma SameMinuteOfDay(x: int, w: int)
    requires x % MINUTE == 0 && w % MINUTE == 0 && -JUMP <= x - w <= JUMP
    ensures MinuteOfDay(x) == MinuteOfDay(w) <==> x == w
  {
    if MinuteOfDay(x) == MinuteOfDay(w) {
      OnMinuteOfDay(x);
      OnMinuteOfDay(w);
      hide MinuteOfDay;
      assert x - w == (x / DAY - w / DAY) * DAY;
    }
  }

  lemma SumsOnMinute(x: int, y: int)
    requires x % MINUTE == 0 && y % MINUTE == 0
    ensures (x + y) % MINUTE == 0 && (x - y) % MINUTE == 0
  {
    var i, j := x / MINUTE, y / MINUTE;
    assert x + y == (i + j) * MINUTE && x - y == (i - j) * MINUTE;
  }

  lemma SameClockIsShown(z: Zone, w: int)
    requires Regular(z) && w % MINUTE == 0
    ensures SameClock(z, w) <==> Shown(z, w)
    ensures Instant(z, w) % MINUTE == 0
  {
    var u := Instant(z, w);
    assert InMinutes(z, w) && InMinutes(z, u);
    assert -JUMP <= Wall(z, u) - w <= JUMP;
    hide Regular, MinuteOfDay;
    SumsOnMinute(w, z.offsetOf(w));
    SumsOnMinute(u, z.offsetAt(u));
    SameMinuteOfDay(Wall(z, u), w);
  }

  lemma GridOnMinute(w: int, j: int)
    requires w % MINUTE == 0
    ensures Grid(w, j) % MINUTE == 0
  {
    assert w + j * MINUTE == (w / MINUTE + j) * MINUTE;
  }

  lemma SettledStep(z: Zone, w: int, n: nat)
    ensures Settled(z, w, n) == if n == 0 || SameClock(z, w) then w else Settled(z, w + MINUTE, n - 1)
  {
  }

  /** Settling finds the first reading of the minute grid that is shown. */
  lemma {:induction false} SettledIsFirst(z: Zone, w: int, n: nat, j: nat) returns (k: nat)
    requires Regular(z) && w % MINUTE == 0 && j < n && Shown(z, Grid(w, j))
    ensures k <= j && Settled(z, w, n) == Grid(w, k) && Shown(z, Grid(w, k))
    ensures forall i :: 0 <= i < k ==> !Shown(z, Grid(w, i))
    decreases n
  {
    hide Regular, Shown, SameClock, Settled;
    SameClockIsShown(z, w);
    SettledStep(z, w, n);
    k := 0;
    if !Shown(z, w) {
      assert forall i :: Grid(w, i) == Grid(w + MINUTE, i - 1);
      var rest := SettledIsFirst(z, w + MINUTE, n - 1, j - 1);
      k := rest + 1;
    }
  }

  lemma ReadingOnMinute(t: Timing, day: int)
    ensures Reading(t, day) % MINUTE == 0
  {
    assert Reading(t, day) == (day * 1440 + t.hour * 60 + t.minute) * MINUTE;
  }

  lemma OnGrid(w: int, x: int)
    requires w % MINUTE == 0 && x % MINUTE == 0
    ensures x == Grid(w, (x - w) / MINUTE)
  {
  }

  lemma SettlesOnReading(t: Timing, day: int)
    requires Regular(t.zone) && ValidTime(t)
    ensures var w, s := Reading(t, day), Settled(t.zone, Reading(t, day), SHIFTS);
            && Shown(t.zone, s) && s % MINUTE == 0 && w <= s <= w + JUMP && w % MINUTE == 0
            && TimeOn(t, day) % MINUTE == 0 && Wall(t.zone, TimeOn(t, day)) == s
            && forall x :: w <= x < s && x % MINUTE == 0 ==> !Shown(t.zone, x)
  {
    var z, w := t.zone, Reading(t, day);
    ReadingOnMinute(t, day);
    hide Settled, Reading;
    assert ShownSoon(z, w);
    var j :| 0 <= j <= 120 && Shown(z, Grid(w, j));
    var k := SettledIsFirst(z, w, SHIFTS, j);
    GridOnMinute(w, k);
    SameClockIsShown(z, Grid(w, k));
    hide Regular;
    forall x | w <= x < Grid(w, k) && x % MINUTE == 0 ensures !Shown(z, x) {
      OnGrid(w, x);
    }
  }

  lemma OnTheMinute(z: Zone, u: int)
    requires Regular(z)
    ensures var x := Wall(z, u - u % MINUTE);
            Shown(z, x) && x % MINUTE == 0 && x <= Wall(z, u) < x + MINUTE
  {
    assert InMinutes(z, u) && ShowsAt(z, u - u % MINUTE);
  }

  /**
   * A report is executed at the first instant at which the wall clock has come to the local time of the day:
   * also when that reading is skipped, and only once when it is shown twice.
   */
  lemma RunsWhenTheClockArrives(t: Timing, day: int)
    requires Regular(t.zone) && ValidTime(t)
    ensures Reading(t, day) <= Wall(t.zone, TimeOn(t, day)) <= Reading(t, day) + JUMP
    ensures forall u :: Reading(t, day) <= Wall(t.zone, u) ==> TimeOn(t, day) <= u
    ensures Shown(t.zone, Reading(t, day)) <==> Wall(t.zone, TimeOn(t, day)) == Reading(t, day)
  {
    var z, w, s := t.zone, Reading(t, day), Settled(t.zone, Reading(t, day), SHIFTS);
    SettlesOnReading(t, day);
    hide TimeOn, Settled, Reading;
    forall u | w <= Wall(z, u) ensures TimeOn(t, day) <= u {
      var x := Wall(z, u - u % MINUTE);
      OnTheMinute(z, u);
      assert w <= x by {
        if x < w { MultiplesAreFar(x, w); }
      }
      assert Shown(z, s) && s <= Wall(z, u);
    }
  }

  /** Executions of different days are at least a minute apart, in the order of the days. */
  lemma ExecutionsInOrder(t: Timing, d: int, e: int)
    requires Regular(t.zone) && ValidTime(t) && d < e
    ensures TimeOn(t, d) + MINUTE <= TimeOn(t, e)
  {
    SettlesOnReading(t, d);
    SettlesOnReading(t, e);
    RunsWhenTheClockArrives(t, d);
    assert Reading(t, d) + DAY <= Reading(t, e);
    assert TimeOn(t, d) <= TimeOn(t, e);
    MultiplesAreFar(TimeOn(t, d), TimeOn(t, e));
  }

  lemma ArrivesAt(t: Timing, day: int, at: int)
    requires Regular(t.zone) && ValidTime(t)
    requires Reading(t, day) <= Wall(t.zone, at) && forall u :: u < at ==> Wall(t.zone, u) < Reading(t, day)
    ensures TimeOn(t, day) == at
  {
    hide Regular, TimeOn, Reading, Wall;
    RunsWhenTheClockArrives(t, day);
  }

  /** A local time that the zone skips when its clock is set forward is executed at the moment of the change. */
  lemma SkippedTimeRunsAtChange(t: Timing, day: int, since: int, from: int, at: int, to: int)
    requires MayChange(t.zone, since, from, at, to) && ValidTime(t) && at + from <= Reading(t, day) < at + to
    ensures TimeOn(t.(zone := Changed(t.zone, from, at, to)), day) == at
  {
    var changed := t.(zone := Changed(t.zone, from, at, to));
    hide MayChange, Regular, TimeOn;
    ChangedIsRegular(t.zone, since, from, at, to);
    forall u | u < at ensures Wall(changed.zone, u) < Reading(changed, day) {
      ReadingsBefore(t.zone, since, from, at, to, u);
    }
    hide Changed;
    ArrivesAt(changed, day, at);
  }

  // ----- the search

  lemma {:induction false} SearchMeans(t: Timing, day: int, n: nat, after: int) returns (found: int)
    ensures match Search(t, day, n, after)
            case None => forall d :: day <= d < day + n && Allowed(t, d) ==> TimeOn(t, d) <= after
            case Some(v) =>
              && day <= found < day + n && Allowed(t, found) && TimeOn(t, found) == v > after
              && forall d :: day <= d < found && Allowed(t, d) ==> TimeOn(t, d) <= after
    decreases n
  {
    found := day;
    if n > 0 && !(Allowed(t, day) && TimeOn(t, day) > after) {
      found := SearchMeans(t, day + 1, n - 1, after);
    }
  }

  /** The days that a timing asks for exist. */
  predicate Occurs(t: Timing) {
    match t.frequency
    case Daily => true
    case Weekly => 0 <= OrElse(t.weekday, 0) <= 6
    case Monthly => 1 <= OrElse(t.monthDay, 1) <= 31
  }

  ghost predicate Sound(t: Timing) {
    Regular(t.zone) && ValidTime(t) && Occurs(t)
  }

  ghost predicate IsExecution(t: Timing, v: int) {
    exists d :: Allowed(t, d) && TimeOn(t, d) == v
  }

  lemma ExecutionDay(t: Timing, v: int) returns (day: int)
    requires IsExecution(t, v)
    ensures Allowed(t, day) && TimeOn(t, day) == v
  {
    hide Allowed, TimeOn;
    day :| Allowed(t, day) && TimeOn(t, day) == v;
  }

  lemma AllowedComesUp(t: Timing, day: int) returns (m: int)
    requires Occurs(t)
    ensures day < m <= day + 93 && Allowed(t, m)
  {
    match t.frequency
    case Daily => m := day + 1;
    case Weekly => m := WeekdayComesUp(day, OrElse(t.weekday, 0));
    case Monthly => m := DayComesUp(day, OrElse(t.monthDay, 1));
  }

  lemma EarlierDaysAreOver(t: Timing, after: int, d: int)
    requires Regular(t.zone) && ValidTime(t) && d < Wall(t.zone, after) / DAY
    ensures TimeOn(t, d) <= after
  {
    RunsWhenTheClockArrives(t, d);
    assert Reading(t, d) <= (d + 1) * DAY <= Wall(t.zone, after);
  }

  lemma LaterDaysAreToCome(t: Timing, after: int, d: int)
    requires Regular(t.zone) && ValidTime(t) && Wall(t.zone, after) / DAY + 2 <= d
    ensures TimeOn(t, d) > after
  {
    RunsWhenTheClockArrives(t, d);
    assert TimeOn(t, d) <= after ==> Wall(t.zone, TimeOn(t, d)) <= Wall(t.zone, after) + JUMP;
  }

  /** Whatever the zone does, what the search finds is an execution later than `after`. */
  lemma NextIsLater(t: Timing, after: int)
    ensures NextTime(t, after).Some? ==> NextTime(t, after).value > after && IsExecution(t, NextTime(t, after).value)
  {
    var _ := SearchMeans(t, Wall(t.zone, after) / DAY, SEARCH_DAYS, after);
  }

  /** The search fails exactly for a time of day, a day of the week or a day of the month that does not exist. */
  lemma SearchSucceedsIff(t: Timing, after: int)
    requires Regular(t.zone)
    ensures NextTime(t, after).Some? <==> ValidTime(t) && Occurs(t)
  {
    var today := Wall(t.zone, after) / DAY;
    var found := SearchMeans(t, today, SEARCH_DAYS, after);
    if ValidTime(t) && Occurs(t) {
      var m := AllowedComesUp(t, today + 1);
      LaterDaysAreToCome(t, after, m);
    } else {
      assert !Occurs(t) ==> forall d :: !Allowed(t, d);
    }
  }

  /** The search finds the least execution after `after`, over all days, past and to come. */
  lemma NextIsLeast(t: Timing, after: int, d: int)
    requires Sound(t) && Allowed(t, d) && TimeOn(t, d) > after
    ensures NextTime(t, after).Some? && after < NextTime(t, after).value <= TimeOn(t, d)
  {
    hide Regular, Allowed, TimeOn, ValidTime, Occurs, Wall;
    SearchSucceedsIff(t, after);
    var found := SearchMeans(t, Wall(t.zone, after) / DAY, SEARCH_DAYS, after);
    if d < Wall(t.zone, after) / DAY {
      EarlierDaysAreOver(t, after, d);
    } else if found < d {
      ExecutionsInOrder(t, found, d);
    }
  }

  /** Searching again from a second after an execution finds the next allowed day. */
  lemma NextAllowedDay(t: Timing, d: int) returns (e: int)
    requires Sound(t) && Allowed(t, d)
    ensures d < e && Allowed(t, e) && NextTime(t, TimeOn(t, d) + SECOND) == Some(TimeOn(t, e))
    ensures forall f :: d < f < e ==> !Allowed(t, f)
  {
    hide Regular, Allowed, TimeOn, ValidTime, Occurs;
    var after := TimeOn(t, d) + SECOND;
    SearchSucceedsIff(t, after);
    e := SearchMeans(t, Wall(t.zone, after) / DAY, SEARCH_DAYS, after);
    if e < d {
      ExecutionsInOrder(t, e, d);
    }
    forall f | d < f < e ensures !Allowed(t, f) {
      if Allowed(t, f) {
        ExecutionsInOrder(t, d, f);
        ExecutionsInOrder(t, f, e);
        NextIsLeast(t, after, f);
      }
    }
  }

  // ----- zones that are regular from some instant on

  /** How long before an instant a zone's offsets can still matter to executions after it. */
  const MARGIN := 432_000_000_000

  lemma {:induction false} FollowedSettles(z: Zone, y: Zone, start: int, w: int, n: nat)
    requires OffsetsInDay(z) && Follows(z, y, start) && start + DAY <= w
    ensures Settled(z, w, n) == Settled(y, w, n) && Instant(z, Settled(z, w, n)) == Instant(y, Settled(y, w, n))
    decreases n
  {
    assert Instant(z, w) == Instant(y, w) && Wall(z, Instant(z, w)) == Wall(y, Instant(y, w));
    if n > 0 {
      FollowedSettles(z, y, start, w + MINUTE, n - 1);
    }
  }

  lemma {:induction false} SettlesWithin(z: Zone, w: int, n: nat)
    ensures w <= Settled(z, w, n) <= w + n * MINUTE
    decreases n
  {
    if n > 0 && !SameClock(z, w) {
      SettlesWithin(z, w + MINUTE, n - 1);
    }
  }

  lemma FollowedTimeOn(t: Timing, y: Zone, start: int, d: int)
    requires OffsetsInDay(t.zone) && Follows(t.zone, y, start) && start + DAY <= Reading(t, d)
    ensures TimeOn(t, d) == TimeOn(t.(zone := y), d)
  {
    hide Settled, Instant, OffsetsInDay, Follows;
    assert Reading(t.(zone := y), d) == Reading(t, d);
    FollowedSettles(t.zone, y, start, Reading(t, d), SHIFTS);
  }

  /** Executions after an instant belong to days that begin not long before it. */
  lemma ReadingBefore(t: Timing, since: int, d: int)
    requires OffsetsInDay(t.zone) && since < TimeOn(t, d)
    ensures since - 2 * DAY < Reading(t, d)
  {
    var s := Settled(t.zone, Reading(t, d), SHIFTS);
    SettlesWithin(t.zone, Reading(t, d), SHIFTS);
    hide Settled, Reading;
    assert -DAY < t.zone.offsetOf(s);
  }

  lemma DayBegins(t: Timing, day: int)
    requires ValidTime(t)
    ensures day * DAY <= Reading(t, day)
  {
  }

  lemma {:induction false} FollowedSearch(t: Timing, y: Zone, start: int, day: int, n: nat, after: int)
    requires OffsetsInDay(t.zone) && Follows(t.zone, y, start) && ValidTime(t) && start + DAY <= day * DAY
    ensures Search(t, day, n, after) == Search(t.(zone := y), day, n, after)
    decreases n
  {
    if n > 0 {
      hide TimeOn, OffsetsInDay, Follows, ValidTime;
      DayBegins(t, day);
      FollowedTimeOn(t, y, start, day);
      FollowedSearch(t, y, start, day + 1, n - 1, after);
    }
  }

  lemma FollowedNext(t: Timing, y: Zone, since: int, after: int)
    requires OffsetsInDay(t.zone) && Follows(t.zone, y, since - MARGIN) && ValidTime(t) && since <= after
    ensures NextTime(t, after) == NextTime(t.(zone := y), after)
  {
    assert -DAY < t.zone.offsetAt(after) && t.zone.offsetAt(after) == y.offsetAt(after);
    var wall := Wall(t.zone, after);
    var day := wall / DAY;
    hide Search, OffsetsInDay, Follows;
    assert day * DAY > wall - DAY;
    FollowedSearch(t, y, since - MARGIN, day, SEARCH_DAYS, after);
  }

  /** A timing whose days and time exist, in a zone that is regular from a few days before `since` on. */
  ghost predicate SoundFrom(t: Timing, since: int) {
    RegularFrom(t.zone, since - MARGIN) && ValidTime(t) && Occurs(t)
  }

  /** Which days and times a timing asks for does not depend on its zone. */
  lemma SameCalendar(t: Timing, y: Zone)
    ensures var r := t.(zone := y);
            ValidTime(r) == ValidTime(t) && Occurs(r) == Occurs(t) && forall d :: Allowed(r, d) == Allowed(t, d)
  {
  }

  /** The same timing in a regular zone, and when it is executed after `since`. */
  lemma Regularized(t: Timing, since: int) returns (r: Timing)
    requires SoundFrom(t, since)
    ensures Sound(r) && forall d :: Allowed(r, d) == Allowed(t, d)
    ensures forall after :: since <= after ==> NextTime(r, after) == NextTime(t, after)
    ensures forall d :: since < TimeOn(t, d) ==> TimeOn(r, d) == TimeOn(t, d)
  {
    var y :| Regular(y) && Follows(t.zone, y, since - MARGIN);
    r := t.(zone := y);
    hide Regular, Follows, OffsetsInDay, NextTime, TimeOn, ValidTime, Occurs, Reading;
    SameCalendar(t, y);
    forall after | since <= after ensures NextTime(r, after) == NextTime(t, after) {
      FollowedNext(t, y, since, after);
    }
    forall d | since < TimeOn(t, d) ensures TimeOn(r, d) == TimeOn(t, d) {
      ReadingBefore(t, since, d);
      FollowedTimeOn(t, y, since - MARGIN, d);
    }
  }

  /** From then on the search never fails. */
  lemma SearchSucceedsFrom(t: Timing, since: int, after: int)
    requires SoundFrom(t, since) && since <= after
    ensures NextTime(t, after).Some?
  {
    hide SoundFrom, Regular, NextTime, ValidTime, Occurs;
    var r := Regularized(t, since);
    SearchSucceedsIff(r, after);
  }

  /** From then on the search finds the least execution after `after`. */
  lemma NextIsLeastFrom(t: Timing, since: int, after: int, d: int)
    requires SoundFrom(t, since) && since <= after && Allowed(t, d) && after < TimeOn(t, d)
    ensures NextTime(t, after).Some? && after < NextTime(t, after).value <= TimeOn(t, d)
  {
    hide SoundFrom, Sound, Allowed, NextTime, TimeOn;
    var r := Regularized(t, since);
    NextIsLeast(r, after, d);
  }

  lemma InOrderFrom(t: Timing, since: int, d: int, e: int)
    requires SoundFrom(t, since) && since < TimeOn(t, d) && since < TimeOn(t, e) && d < e
    ensures TimeOn(t, d) + MINUTE <= TimeOn(t, e)
  {
    hide SoundFrom, Regular, NextTime, TimeOn, ValidTime, Occurs;
    var r := Regularized(t, since);
    ExecutionsInOrder(r, d, e);
  }

  // ----- report periods

  function Length(f: Frequency): int {
    match f
    case Daily => DAY
    case Weekly => 7 * DAY
    case Monthly => 30 * DAY
  }

  /** The first and the last instant of the period of a report executed at `end`. */
  function ReportPeriod(f: Frequency, end: int): (int, int) {
    (end - Length(f), end)
  }

  function Offset(t: Timing, day: int): int {
    t.zone.offsetAt(TimeOn(t, day))
  }

  /** How much later than asked for the clock stands at the execution: zero unless the local time is skipped. */
  function Shift(t: Timing, day: int): int {
    Wall(t.zone, TimeOn(t, day)) - Reading(t, day)
  }

  /** The number of days to the next execution. */
  function DaysToNext(t: Timing, day: int): int {
    match t.frequency
    case Daily => 1
    case Weekly => 7
    case Monthly => DaysIn(DateAt(day).year, DateAt(day).month)
  }

  lemma NextAllowedIs(t: Timing, d: int, e: int)
    requires Allowed(t, d) && Allowed(t, e) && d < e && Occurs(t)
    requires t.frequency.Monthly? ==> OrElse(t.monthDay, 1) <= 28
    requires forall f :: d < f < e ==> !Allowed(t, f)
    ensures e == d + DaysToNext(t, d)
  {
    hide DateAt, DaysIn;
    if t.frequency.Monthly? {
      MonthLater(d);
    }
    assert Allowed(t, d + DaysToNext(t, d));
  }

  /**
   * How far the next period begins after the end of this one: by the days that the frequency's length misses, by
   * what the clock was set back in between, and by how much later the next execution is shifted than this one.
   */
  lemma PeriodsFollow(t: Timing, d: int)
    requires Sound(t) && Allowed(t, d) && (t.frequency.Monthly? ==> OrElse(t.monthDay, 1) <= 28)
    ensures var next, e := NextTime(t, TimeOn(t, d) + SECOND), d + DaysToNext(t, d);
            && next.Some?
            && ReportPeriod(t.frequency, next.value).0 - ReportPeriod(t.frequency, TimeOn(t, d)).1
               == DaysToNext(t, d) * DAY - Length(t.frequency) + Offset(t, d) - Offset(t, e) + Shift(t, e) - Shift(t, d)
  {
    hide Regular, Allowed, DateAt, DaysIn, NextTime, TimeOn;
    var e := NextAllowedDay(t, d);
    NextAllowedIs(t, d, e);
  }

  /** The shift is the time until the first reading that the zone shows; there is none where the local time is shown. */
  lemma ShiftMeans(t: Timing, day: int)
    requires Regular(t.zone) && ValidTime(t)
    ensures 0 <= Shift(t, day) <= JUMP && (Shift(t, day) == 0 <==> Shown(t.zone, Reading(t, day)))
    ensures Shown(t.zone, Reading(t, day) + Shift(t, day))
    ensures forall x :: 0 <= x < Shift(t, day) && x % MINUTE == 0 ==> !Shown(t.zone, Reading(t, day) + x)
  {
    hide Regular, TimeOn, Settled, Reading, Shown;
    RunsWhenTheClockArrives(t, day);
    SettlesOnReading(t, day);
    forall x | 0 <= x < Shift(t, day) && x % MINUTE == 0 ensures !Shown(t.zone, Reading(t, day) + x) {
      SumsOnMinute(Reading(t, day), x);
    }
  }

  lemma FixedShift(t: Timing, offset: int, day: int)
    requires Fixed(t.zone, offset) && ValidTime(t)
    ensures Shift(t, day) == 0 && Offset(t, day) == offset && TimeOn(t, day) == Reading(t, day) - offset
  {
    FixedIsRegular(t.zone, offset);
    hide Regular, TimeOn, Reading;
    ShiftMeans(t, day);
  }

  /**
   * In a zone whose offset never changes, daily and weekly periods tile time, and monthly ones when the month has 30
   * days.
   */
  lemma PeriodsTile(t: Timing, offset: int, d: int)
    requires Fixed(t.zone, offset) && ValidTime(t) && Occurs(t) && Allowed(t, d)
    requires t.frequency.Monthly? ==> OrElse(t.monthDay, 1) <= 28
    ensures TimeOn(t, d) == Reading(t, d) - offset
    ensures var next := NextTime(t, TimeOn(t, d) + SECOND);
            && next.Some?
            && (ReportPeriod(t.frequency, next.value).0 == ReportPeriod(t.frequency, TimeOn(t, d)).1
                <==> (t.frequency.Monthly? ==> DaysIn(DateAt(d).year, DateAt(d).month) == 30))
  {
    FixedIsRegular(t.zone, offset);
    FixedShift(t, offset, d);
    FixedShift(t, offset, d + DaysToNext(t, d));
    hide Regular, DaysIn, DateAt, Allowed, NextTime, TimeOn, Reading;
    PeriodsFollow(t, d);
  }
}
