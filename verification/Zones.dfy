/**
 * Time zones as wall-clock maps. `offsetAt` gives the offset in force at an instant; `offsetOf` the offset that
 * a wall-clock reading is given when it is turned into an instant (the earlier one for a reading shown twice,
 * the one before the change for a reading that is skipped).
 */
module Zones {
  import opened Common

  datatype Zone = Zone(offsetAt: int -> int, offsetOf: int -> int)

  /** The longest that a clock may be set forward or back. */
  const JUMP := 7_200_000_000

  function Wall(z: Zone, u: int): int {
    u + z.offsetAt(u)
  }

  function Instant(z: Zone, w: int): int {
    w - z.offsetOf(w)
  }

  /** The wall clock shows `w` at some time: turned into an instant and back, it is itself. */
  predicate Shown(z: Zone, w: int) {
    Wall(z, Instant(z, w)) == w
  }

  /** What the clock shows at an instant is shown. */
  predicate ShowsAt(z: Zone, u: int) {
    Shown(z, Wall(z, u))
  }

  function Grid(w: int, j: int): int {
    w + j * MINUTE
  }

  /** Some reading is shown among `w` and the 120 minutes after it. */
  ghost predicate ShownSoon(z: Zone, w: int) {
    exists j :: 0 <= j <= 120 && Shown(z, Grid(w, j))
  }

  predicate InMinutes(z: Zone, u: int) {
    z.offsetAt(u) % MINUTE == 0 && z.offsetOf(u) % MINUTE == 0 && z.offsetAt(u) == z.offsetAt(u - u % MINUTE)
  }

  /** Offsets are whole minutes and change on the minute. */
  ghost predicate WholeMinutes(z: Zone) {
    forall u :: InMinutes(z, u)
  }

  /** A reading that is shown is turned into the first instant at which the clock has come that far. */
  ghost predicate ShowsFirst(z: Zone) {
    forall w, u :: Shown(z, w) && w <= Wall(z, u) ==> Instant(z, w) <= u
  }

  ghost predicate SetBackLittle(z: Zone) {
    forall u, v :: u <= v ==> Wall(z, u) <= Wall(z, v) + JUMP
  }

  ghost predicate ReturnsNear(z: Zone) {
    forall w :: -JUMP <= Wall(z, Instant(z, w)) - w <= JUMP
  }

  /** What the wall clock of a zone with occasional small changes of offset does. */
  ghost predicate Regular(z: Zone) {
    && WholeMinutes(z)
    && (forall u :: ShowsAt(z, u))
    && ShowsFirst(z)
    && (forall w :: ShownSoon(z, w))
    && SetBackLittle(z)
    && ReturnsNear(z)
  }

  // ----- zones given by a table of changes

  datatype Change = Change(at: int, offset: int)

  /** The zone that follows `z`, where the offset ends as `from`, until it changes to `to` at `at`. */
  function Changed(z: Zone, from: int, at: int, to: int): Zone {
    Zone(u => if u < at then z.offsetAt(u) else to,
         w => if w < at + Max(from, to) then z.offsetOf(w) else to)
  }

  function LastOffset(first: int, changes: seq<Change>): int {
    if changes == [] then first else changes[|changes| - 1].offset
  }

  /** The zone with offset `first` and then the offsets of a table. */
  function FromTable(first: int, changes: seq<Change>): Zone {
    if changes == [] then Zone(u => first, w => first)
    else
      var before, last := changes[..|changes| - 1], changes[|changes| - 1];
      Changed(FromTable(first, before), LastOffset(first, before), last.at, last.offset)
  }

  /** Whole minutes, changes of at most two hours, and more than a day between them. */
  predicate GoodTable(first: int, changes: seq<Change>) {
    && first % MINUTE == 0
    && forall i :: 0 <= i < |changes| ==>
         && changes[i].at % MINUTE == 0 && changes[i].offset % MINUTE == 0
         && -JUMP <= changes[i].offset - LastOffset(first, changes[..i]) <= JUMP
         && (i > 0 ==> changes[i - 1].at + DAY <= changes[i].at)
  }

  /** From `since` on, nothing but `offset` is used. */
  ghost predicate SettledFrom(z: Zone, since: int, offset: int) {
    && (forall u :: since <= u ==> z.offsetAt(u) == offset)
    && (forall w :: since + offset + JUMP <= w ==> z.offsetOf(w) == offset)
  }

  ghost predicate Fixed(z: Zone, offset: int) {
    offset % MINUTE == 0 && forall x :: z.offsetAt(x) == z.offsetOf(x) == offset
  }

  lemma FixedIsRegular(z: Zone, offset: int)
    requires Fixed(z, offset)
    ensures Regular(z)
  {
    forall w ensures ShownSoon(z, w) {
      assert Shown(z, Grid(w, 0));
    }
  }

  ghost predicate MayChange(z: Zone, since: int, from: int, at: int, to: int) {
    && Regular(z) && SettledFrom(z, since, from) && since + DAY <= at
    && at % MINUTE == 0 && to % MINUTE == 0 && -JUMP <= to - from <= JUMP
  }

  /** Before the change the old zone's clock reads less than at the change. */
  lemma ReadingsBefore(z: Zone, since: int, from: int, at: int, to: int, u: int)
    requires MayChange(z, since, from, at, to) && u < at
    ensures Wall(z, u) < at + from && Wall(Changed(z, from, at, to), u) == Wall(z, u)
  {
    if u < since {
      assert Wall(z, u) <= Wall(z, since) + JUMP;
    }
  }

  /** A reading of the old zone that leads to an instant after the change lies close to it. */
  lemma ReadingsAcross(z: Zone, since: int, from: int, at: int, to: int, w: int)
    requires MayChange(z, since, from, at, to) && at <= Instant(z, w)
    ensures z.offsetOf(w) == from && at + from <= w
  {
    assert -JUMP <= Wall(z, Instant(z, w)) - w <= JUMP;
  }

  /** When the changed zone shows a reading: it is past the change, or the old zone showed it before. */
  lemma ShownAfterChange(z: Zone, since: int, from: int, at: int, to: int, w: int)
    requires MayChange(z, since, from, at, to)
    ensures var c := Changed(z, from, at, to);
            Shown(c, w) <==> at + Max(from, to) <= w || (Shown(z, w) && Instant(z, w) < at)
  {
    if w < at + Max(from, to) && at <= Instant(z, w) {
      ReadingsAcross(z, since, from, at, to, w);
    }
  }

  lemma ChangedShowsItsReadings(z: Zone, since: int, from: int, at: int, to: int, u: int)
    requires MayChange(z, since, from, at, to)
    ensures Shown(Changed(z, from, at, to), Wall(Changed(z, from, at, to), u))
  {
    var c := Changed(z, from, at, to);
    if u < at {
      ReadingsBefore(z, since, from, at, to, u);
      assert ShowsAt(z, u) && Instant(z, Wall(z, u)) <= u;
      ShownAfterChange(z, since, from, at, to, Wall(c, u));
    }
  }

  lemma ChangedShowsFirst(z: Zone, since: int, from: int, at: int, to: int, w: int, u: int)
    requires MayChange(z, since, from, at, to)
    requires Shown(Changed(z, from, at, to), w) && w <= Wall(Changed(z, from, at, to), u)
    ensures Instant(Changed(z, from, at, to), w) <= u
  {
    ShownAfterChange(z, since, from, at, to, w);
    if u < at {
      ReadingsBefore(z, since, from, at, to, u);
    }
  }

  lemma ChangedShowsSoon(z: Zone, since: int, from: int, at: int, to: int, w: int)
    requires MayChange(z, since, from, at, to)
    ensures ShownSoon(Changed(z, from, at, to), w)
  {
    var c, end := Changed(z, from, at, to), at + Max(from, to);
    assert ShownSoon(z, w);
    var j :| 0 <= j <= 120 && Shown(z, Grid(w, j));
    if at + from <= w {
      j := if w < end then (end - w + MINUTE - 1) / MINUTE else 0;
    } else if since + from + JUMP <= w {
      j := 0;
    }
    ShownAfterChange(z, since, from, at, to, Grid(w, j));
    assert Shown(c, Grid(w, j));
  }

  lemma ChangedInWholeMinutes(z: Zone, since: int, from: int, at: int, to: int)
    requires MayChange(z, since, from, at, to)
    ensures WholeMinutes(Changed(z, from, at, to))
  {
    var c := Changed(z, from, at, to);
    forall u ensures InMinutes(c, u) {
      assert u < at <==> u - u % MINUTE < at;
      assert InMinutes(z, u);
    }
  }

  lemma ChangedMovesLittle(z: Zone, since: int, from: int, at: int, to: int)
    requires MayChange(z, since, from, at, to)
    ensures SetBackLittle(Changed(z, from, at, to)) && ReturnsNear(Changed(z, from, at, to))
  {
    var c := Changed(z, from, at, to);
    forall u, v | u <= v ensures Wall(c, u) <= Wall(c, v) + JUMP {
      if u < at { ReadingsBefore(z, since, from, at, to, u); }
      if v < at { ReadingsBefore(z, since, from, at, to, v); }
    }
    forall w ensures -JUMP <= Wall(c, Instant(c, w)) - w <= JUMP {
      if w < at + Max(from, to) && at <= Instant(z, w) {
        ReadingsAcross(z, since, from, at, to, w);
      }
    }
  }

  lemma ChangedSettles(z: Zone, from: int, at: int, to: int, since: int)
    requires from - to <= JUMP && at <= since
    ensures SettledFrom(Changed(z, from, at, to), since, to)
  {
  }

  lemma ChangedIsRegular(z: Zone, since: int, from: int, at: int, to: int)
    requires MayChange(z, since, from, at, to)
    ensures Regular(Changed(z, from, at, to))
  {
    var c := Changed(z, from, at, to);
    hide WholeMinutes, SetBackLittle, ReturnsNear, ShownSoon, MayChange, Shown, Wall, Instant, Changed;
    ChangedInWholeMinutes(z, since, from, at, to);
    ChangedMovesLittle(z, since, from, at, to);
    forall u ensures ShowsAt(c, u) {
      ChangedShowsItsReadings(z, since, from, at, to, u);
    }
    forall w, u | Shown(c, w) && w <= Wall(c, u) ensures Instant(c, w) <= u {
      ChangedShowsFirst(z, since, from, at, to, w, u);
    }
    forall w ensures ShownSoon(c, w) {
      ChangedShowsSoon(z, since, from, at, to, w);
    }
  }

  /** The last change of a good table. */
  lemma LastChange(first: int, changes: seq<Change>)
    requires GoodTable(first, changes) && changes != []
    ensures var before, last := changes[..|changes| - 1], changes[|changes| - 1];
            && GoodTable(first, before)
            && last.at % MINUTE == 0 && last.offset % MINUTE == 0
            && -JUMP <= last.offset - LastOffset(first, before) <= JUMP
            && (before != [] ==> before[|before| - 1].at + DAY <= last.at)
  {
    var n := |changes| - 1;
    var before := changes[..n];
    assert forall i :: 0 <= i < n ==> before[..i] == changes[..i] && before[i] == changes[i];
    assert n > 0 ==> before[n - 1] == changes[n - 1];
    hide LastOffset;
  }

  lemma LastChangeMakes(first: int, changes: seq<Change>)
    requires changes != []
    ensures var before, last := changes[..|changes| - 1], changes[|changes| - 1];
            && LastOffset(first, changes) == last.offset
            && FromTable(first, changes)
               == Changed(FromTable(first, before), LastOffset(first, before), last.at, last.offset)
  {
  }

  /** Every good table gives a regular zone. */
  lemma {:induction false} TablesAreRegular(first: int, changes: seq<Change>, since: int)
    requires GoodTable(first, changes) && (changes != [] ==> changes[|changes| - 1].at <= since)
    ensures Regular(FromTable(first, changes))
    ensures SettledFrom(FromTable(first, changes), since, LastOffset(first, changes))
    decreases |changes|
  {
    if changes == [] {
      FixedIsRegular(FromTable(first, changes), first);
    } else {
      var before, last := changes[..|changes| - 1], changes[|changes| - 1];
      hide Regular, SettledFrom, GoodTable, LastOffset, FromTable, Changed;
      LastChange(first, changes);
      TablesAreRegular(first, before, last.at - DAY);
      ChangedSettles(FromTable(first, before), LastOffset(first, before), last.at, last.offset, since);
      ChangedIsRegular(FromTable(first, before), last.at - DAY, LastOffset(first, before), last.at, last.offset);
      LastChangeMakes(first, changes);
    }
  }

  // ----- zones that are regular from some instant on

  /** The host language refuses offsets of a day or more. */
  ghost predicate OffsetsInDay(z: Zone) {
    forall x :: -DAY < z.offsetAt(x) < DAY && -DAY < z.offsetOf(x) < DAY
  }

  /** From `start` on both zones use the same offsets. */
  ghost predicate Follows(z: Zone, y: Zone, start: int) {
    forall x :: start <= x ==> z.offsetAt(x) == y.offsetAt(x) && z.offsetOf(x) == y.offsetOf(x)
  }

  /** From `start` on the zone is like a regular one, whatever it did before. */
  ghost predicate RegularFrom(z: Zone, start: int) {
    OffsetsInDay(z) && exists y :: Regular(y) && Follows(z, y, start)
  }

  predicate TableInDay(first: int, changes: seq<Change>) {
    -DAY < first < DAY && forall i :: 0 <= i < |changes| ==> -DAY < changes[i].offset < DAY
  }

  lemma {:induction false} TableOffsets(first: int, changes: seq<Change>)
    requires TableInDay(first, changes)
    ensures OffsetsInDay(FromTable(first, changes))
    decreases |changes|
  {
    if changes != [] {
      TableOffsets(first, changes[..|changes| - 1]);
    }
  }

  /** By `start` every change of the table has come, on either side of the clock. */
  predicate ChangesBy(first: int, changes: seq<Change>, start: int) {
    changes != [] ==>
      var n := |changes| - 1;
      var at := changes[n].at;
      at <= start && at + Max(LastOffset(first, changes[..n]), changes[n].offset) <= start
  }

  /** Only the last offset of the earlier part of a table matters after it. */
  lemma {:induction false} LatePartDecides(first: int, early: seq<Change>, late: seq<Change>, start: int)
    requires ChangesBy(first, early, start)
    ensures LastOffset(first, early + late) == LastOffset(LastOffset(first, early), late)
    ensures Follows(FromTable(first, early + late), FromTable(LastOffset(first, early), late), start)
    decreases |late|
  {
    if late == [] {
      assert early + late == early;
    } else {
      var n := |late| - 1;
      LatePartDecides(first, early, late[..n], start);
      assert (early + late)[..|early + late| - 1] == early + late[..n];
    }
  }

  /** A table whose later part is good gives a zone that is regular from then on, whatever the earlier part is. */
  lemma TablesAreRegularFrom(first: int, early: seq<Change>, late: seq<Change>, start: int)
    requires TableInDay(first, early + late) && GoodTable(LastOffset(first, early), late)
    requires ChangesBy(first, early, start)
    ensures RegularFrom(FromTable(first, early + late), start)
  {
    hide Regular, GoodTable, FromTable, Follows, OffsetsInDay, ChangesBy, TableInDay;
    TableOffsets(first, early + late);
    LatePartDecides(first, early, late, start);
    TablesAreRegular(LastOffset(first, early), late, if late == [] then 0 else late[|late| - 1].at);
  }
}
