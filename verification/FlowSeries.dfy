/** The traffic series of the live flow page: buckets of the matching flows, gaps filled. */
module FlowSeries {
  import opened Common
  import opened Flows

  predicate AllowedHours(hours: int) {
    hours == 1 || hours == 24 || hours == 168 || hours == 720
  }

  predicate Width(seconds: int) {
    seconds == 300 || seconds == 3600 || seconds == 21600 || seconds == 86400
  }

  function BucketSeconds(hours: int): (seconds: int)
    requires AllowedHours(hours)
    ensures Width(seconds) && hours * 3600 % seconds == 0
  {
    if hours == 1 then 300 else if hours == 24 then 3600 else if hours == 168 then 21600 else 86400
  }

  /** Conversion to a whole number cuts off towards zero. */
  function WholeSeconds(t: int): int {
    if t >= 0 then t / SECOND else -(-t / SECOND)
  }

  function AlignedBucket(t: int, seconds: int): int
    requires seconds > 0
  {
    var s := WholeSeconds(t);
    (s - s % seconds) * SECOND
  }

  function Cutoff(now: int, hours: int): int {
    now - hours * HOUR
  }

  datatype Point = Point(bucket: int, totals: Totals)

  /** The value that a list of rows gives a bucket: of several rows the last one counts. */
  function LastValue(rows: seq<Point>, seconds: int, bucket: int): Totals
    requires seconds > 0
  {
    if rows == [] then ZERO
    else
      var n := |rows| - 1;
      if AlignedBucket(rows[n].bucket, seconds) == bucket then rows[n].totals else LastValue(rows[..n], seconds, bucket)
  }

  function First(now: int, hours: int): int
    requires AllowedHours(hours)
  {
    AlignedBucket(Cutoff(now, hours), BucketSeconds(hours))
  }

  function Final(now: int, hours: int): int
    requires AllowedHours(hours)
  {
    AlignedBucket(now, BucketSeconds(hours))
  }

  /** The start of the `i`-th bucket. */
  function At(now: int, hours: int, i: int): int
    requires AllowedHours(hours)
  {
    First(now, hours) + i * (BucketSeconds(hours) * SECOND)
  }

  /** One point for every bucket from the first to the final one, with the values that `value` gives. */
  ghost predicate Filled(series: seq<Point>, now: int, hours: int, value: int -> Totals)
    requires AllowedHours(hours)
  {
    && series != [] && At(now, hours, |series| - 1) == Final(now, hours)
    && forall i :: 0 <= i < |series| ==> series[i] == Point(At(now, hours, i), value(At(now, hours, i)))
  }

  lemma AlignedIsMultiple(t: int, seconds: int)
    requires Width(seconds)
    ensures AlignedBucket(t, seconds) % (seconds * SECOND) == 0
  {
    if seconds == 300 { assert AlignedBucket(t, 300) % 300_000_000 == 0; }
    else if seconds == 3600 { assert AlignedBucket(t, 3600) % 3_600_000_000 == 0; }
    else if seconds == 21600 { assert AlignedBucket(t, 21600) % 21_600_000_000 == 0; }
    else { assert AlignedBucket(t, 86400) % 86_400_000_000 == 0; }
  }

  /**
   * The first instant that falls into a bucket or a later one. Up to 1970 that is not its own start: cutting off
   * towards zero rounds such instants up to the next second.
   */
  function FirstInstant(bucket: int): int {
    if bucket > 0 then bucket else bucket - SECOND + 1
  }

  lemma SecondHolds(t: int, s: int)
    ensures s <= WholeSeconds(t) <==> FirstInstant(s * SECOND) <= t
    ensures t >= 0 ==> (s <= WholeSeconds(t) <==> s * SECOND <= t)
  {
  }

  /** An instant lies between the first instant of its aligned bucket and that of the next one. */
  lemma AlignedIsFloor(t: int, seconds: int)
    requires seconds > 0
    ensures FirstInstant(AlignedBucket(t, seconds)) <= t < FirstInstant(AlignedBucket(t, seconds) + seconds * SECOND)
    ensures t >= 0 ==> AlignedBucket(t, seconds) <= t < AlignedBucket(t, seconds) + seconds * SECOND
  {
    var s := WholeSeconds(t);
    assert s - s % seconds <= s <= s - s % seconds + seconds - 1;
    SecondHolds(t, s - s % seconds);
    SecondHolds(t, s - s % seconds + seconds);
  }

  lemma InOrder(i: int, j: int, step: int)
    requires step > 0
    ensures i * step <= j * step <==> i <= j
  {
    if i < j { assert (j - i) * step > 0; }
    if j < i { assert (i - j) * step > 0; }
  }

  lemma FloorInOrder(a: int, b: int, w: int)
    requires w > 0 && a <= b
    ensures a - a % w <= b - b % w
  {
    var i, j := a / w, b / w;
    assert a == i * w + a % w && b == j * w + b % w;
    assert (j + 1) * w == j * w + w;
    InOrder(i, j, w);
    InOrder(j + 1, i, w);
  }

  lemma AlignedInOrder(t: int, u: int, seconds: int)
    requires seconds > 0 && t <= u
    ensures AlignedBucket(t, seconds) <= AlignedBucket(u, seconds)
  {
    FloorInOrder(WholeSeconds(t), WholeSeconds(u), seconds);
  }

  lemma AtMeans(now: int, hours: int, i: int, j: int)
    requires AllowedHours(hours)
    ensures At(now, hours, 0) == First(now, hours)
    ensures At(now, hours, i + 1) == At(now, hours, i) + BucketSeconds(hours) * SECOND
    ensures At(now, hours, i) <= At(now, hours, j) <==> i <= j
  {
    InOrder(i, j, BucketSeconds(hours) * SECOND);
  }

  lemma Divides(x: int, step: int)
    requires step > 0 && x % step == 0
    ensures x == x / step * step
  {
  }

  /** The final bucket is on the grid that begins with the first one. */
  lemma StepsBetween(now: int, hours: int) returns (n: nat)
    requires AllowedHours(hours)
    ensures At(now, hours, n) == Final(now, hours)
  {
    var seconds := BucketSeconds(hours);
    var step := seconds * SECOND;
    AlignedInOrder(Cutoff(now, hours), now, seconds);
    AlignedIsMultiple(Cutoff(now, hours), seconds);
    AlignedIsMultiple(now, seconds);
    hide AlignedBucket;
    Divides(First(now, hours), step);
    Divides(Final(now, hours), step);
    InOrder(First(now, hours) / step, Final(now, hours) / step, step);
    n := Final(now, hours) / step - First(now, hours) / step;
  }

  /** The rows as a dictionary: of several rows in a bucket the last one stays. */
  method ValuesOf(rows: seq<Point>, seconds: int) returns (values: map<int, Totals>)
    requires seconds > 0
    ensures forall b :: (if b in values then values[b] else ZERO) == LastValue(rows, seconds, b)
  {
    values := map[];
    hide AlignedBucket;
    for i := 0 to |rows|
      invariant forall b :: (if b in values then values[b] else ZERO) == LastValue(rows[..i], seconds, b)
    {
      assert rows[..i + 1][..i] == rows[..i];
      values := values[AlignedBucket(rows[i].bucket, seconds) := rows[i].totals];
    }
    assert rows[..|rows|] == rows;
  }

  method FillSeries(rows: seq<Point>, now: int, hours: int) returns (series: seq<Point>)
    requires AllowedHours(hours)
    ensures Filled(series, now, hours, bucket => LastValue(rows, BucketSeconds(hours), bucket))
  {
    var seconds := BucketSeconds(hours);
    var values := ValuesOf(rows, seconds);
    hide At, First, Final, BucketSeconds, AlignedBucket, LastValue;
    var current, final, step := First(now, hours), Final(now, hours), seconds * SECOND;
    ghost var n := StepsBetween(now, hours);
    AtMeans(now, hours, 0, n);
    series := [];
    while current <= final
      invariant current == At(now, hours, |series|) && |series| <= n + 1
      invariant forall i :: 0 <= i < |series| ==>
        series[i] == Point(At(now, hours, i), LastValue(rows, seconds, At(now, hours, i)))
      decreases n + 1 - |series|
    {
      AtMeans(now, hours, |series|, n);
      series := series + [Point(current, if current in values then values[current] else ZERO)];
      current := current + step;
    }
    AtMeans(now, hours, |series|, n);
    AtMeans(now, hours, |series| - 1, 0);
  }

  /** The window begins before 1970 and ends after it, within the last second of a bucket. */
  predicate LosesBucket(now: int, hours: int)
    requires AllowedHours(hours)
  {
    && Cutoff(now, hours) < 0 < now && now % SECOND != 0
    && (now / SECOND + 1) % BucketSeconds(hours) == 0
  }

  lemma WindowSeconds(now: int, hours: int)
    requires AllowedHours(hours)
    ensures WholeSeconds(Cutoff(now, hours)) == WholeSeconds(now) - hours * 3600
            + if Cutoff(now, hours) < 0 < now && now % SECOND != 0 then 1 else 0
  {
    var c, h := Cutoff(now, hours), hours * 3600;
    assert c == now - h * SECOND;
    if now <= 0 {
      assert -c == -now + h * SECOND;
    }
  }

  lemma Remainder(q: int, r: int, w: int)
    requires 0 <= r < w
    ensures (q * w + r) % w == r
  {
    var x := q * w + r;
    assert (q - x / w) * w == x % w - r;
    InOrder(q - x / w, 1, w);
    InOrder(-1, q - x / w, w);
    InOrder(1, q - x / w, w);
    InOrder(q - x / w, -1, w);
    InOrder(q - x / w, 0, w);
    InOrder(0, q - x / w, w);
  }

  lemma SameRest(x: int, k: int, seconds: int)
    requires seconds > 0
    ensures (x + k * seconds) % seconds == x % seconds
  {
    Remainder(x / seconds + k, x % seconds, seconds);
    assert x + k * seconds == (x / seconds + k) * seconds + x % seconds;
  }

  lemma ShiftedRest(x: int, hours: int)
    requires AllowedHours(hours)
    ensures (x - hours * 3600) % BucketSeconds(hours) == x % BucketSeconds(hours)
  {
    if hours == 1 { SameRest(x - 3600, 12, 300); }
    else if hours == 24 { SameRest(x - 86400, 24, 3600); }
    else if hours == 168 { SameRest(x - 604800, 28, 21600); }
    else { SameRest(x - 2592000, 30, 86400); }
  }

  lemma NextRest(x: int, w: int)
    requires w > 1
    ensures (x + 1) % w == if x % w == w - 1 then 0 else x % w + 1
  {
    var r := x % w;
    assert x + 1 == x / w * w + r + 1;
    if r == w - 1 {
      Remainder(x / w + 1, 0, w);
      assert x + 1 == (x / w + 1) * w;
    } else {
      Remainder(x / w, r + 1, w);
    }
  }

  /** From the bucket of the cutoff to that of now it is as far as the window is long, but for the lost bucket. */
  lemma WholeWindow(now: int, hours: int)
    requires AllowedHours(hours)
    ensures Final(now, hours) - First(now, hours)
            == hours * HOUR - if LosesBucket(now, hours) then BucketSeconds(hours) * SECOND else 0
  {
    var s, w := WholeSeconds(now), BucketSeconds(hours);
    WindowSeconds(now, hours);
    ShiftedRest(s, hours);
    ShiftedRest(s + 1, hours);
    NextRest(s, w);
    assert 0 < now ==> s == now / SECOND;
    hide BucketSeconds;
  }

  /** Thirteen, twenty-five, twenty-nine or thirty-one points; a window across 1970 may have one less. */
  lemma PointCount(series: seq<Point>, now: int, hours: int, value: int -> Totals)
    requires AllowedHours(hours) && Filled(series, now, hours, value)
    ensures var lost := if LosesBucket(now, hours) then 1 else 0;
            && |series| == hours * 3600 / BucketSeconds(hours) + 1 - lost
            && |series| + lost == if hours == 1 then 13 else if hours == 24 then 25 else if hours == 168 then 29 else 31
  {
    var count := hours * 3600 / BucketSeconds(hours) - if LosesBucket(now, hours) then 1 else 0;
    WholeWindow(now, hours);
    hide First, Final, LosesBucket;
    AtMeans(now, hours, |series| - 1, count);
    AtMeans(now, hours, count, |series| - 1);
  }

  // ----- what a series adds up to

  function SumTo(value: int -> Totals, n: nat): Totals {
    if n == 0 then ZERO else SumTo(value, n - 1).Plus(value(n - 1))
  }

  function SumOf(points: seq<Point>): Totals {
    if points == [] then ZERO else SumOf(points[..|points| - 1]).Plus(points[|points| - 1].totals)
  }

  lemma {:induction false} SumOfIsSumTo(points: seq<Point>, value: int -> Totals)
    requires forall i :: 0 <= i < |points| ==> points[i].totals == value(i)
    ensures SumOf(points) == SumTo(value, |points|)
  {
    if points != [] {
      SumOfIsSumTo(points[..|points| - 1], value);
    }
  }

  /** Raising one value raises the sum, if the value is among those summed. */
  lemma {:induction false} SumToRaised(before: int -> Totals, after: int -> Totals, n: nat, k: int, t: Totals)
    requires forall i :: 0 <= i < n ==> after(i) == if i == k then before(i).Plus(t) else before(i)
    ensures SumTo(after, n) == if 0 <= k < n then SumTo(before, n).Plus(t) else SumTo(before, n)
    decreases n
  {
    if n > 0 {
      SumToRaised(before, after, n - 1, k, t);
    }
  }

  lemma {:induction false} SumToZero(value: int -> Totals, n: nat)
    requires forall i :: 0 <= i < n ==> value(i) == ZERO
    ensures SumTo(value, n) == ZERO
    decreases n
  {
    if n > 0 {
      SumToZero(value, n - 1);
    }
  }

  /** No two rows fall into the same bucket. */
  predicate DistinctBuckets(rows: seq<Point>, seconds: int)
    requires seconds > 0
  {
    forall i, j :: 0 <= i < j < |rows| ==>
      AlignedBucket(rows[i].bucket, seconds) != AlignedBucket(rows[j].bucket, seconds)
  }

  lemma {:induction false} NoValue(rows: seq<Point>, seconds: int, bucket: int)
    requires seconds > 0 && forall i :: 0 <= i < |rows| ==> AlignedBucket(rows[i].bucket, seconds) != bucket
    ensures LastValue(rows, seconds, bucket) == ZERO
  {
    if rows != [] {
      NoValue(rows[..|rows| - 1], seconds, bucket);
    }
  }

  /** The place of an instant's bucket in the grid of buckets. */
  lemma PlaceOf(t: int, now: int, hours: int) returns (k: int)
    requires AllowedHours(hours)
    ensures At(now, hours, k) == AlignedBucket(t, BucketSeconds(hours))
    ensures 0 <= k <==> First(now, hours) <= AlignedBucket(t, BucketSeconds(hours))
  {
    var seconds := BucketSeconds(hours);
    var step := seconds * SECOND;
    AlignedIsMultiple(Cutoff(now, hours), seconds);
    AlignedIsMultiple(t, seconds);
    hide AlignedBucket;
    Divides(First(now, hours), step);
    Divides(AlignedBucket(t, seconds), step);
    k := AlignedBucket(t, seconds) / step - First(now, hours) / step;
    assert At(now, hours, k) == AlignedBucket(t, seconds) by {
      assert k * step == AlignedBucket(t, seconds) / step * step - First(now, hours) / step * step;
    }
    AtMeans(now, hours, 0, k);
  }

  predicate InRange(t: int, now: int, hours: int)
    requires AllowedHours(hours)
  {
    First(now, hours) <= AlignedBucket(t, BucketSeconds(hours)) <= Final(now, hours)
  }

  /** Adding to the value of one bucket of the grid. */
  lemma GridRaised(before: int -> Totals, after: int -> Totals, now: int, hours: int, n: nat, t: int, more: Totals)
    requires AllowedHours(hours) && At(now, hours, n - 1) == Final(now, hours)
    requires forall b ::
               after(b) == if b == AlignedBucket(t, BucketSeconds(hours)) then before(b).Plus(more) else before(b)
    ensures SumTo(i => after(At(now, hours, i)), n)
            == if InRange(t, now, hours) then SumTo(i => before(At(now, hours, i)), n).Plus(more)
               else SumTo(i => before(At(now, hours, i)), n)
  {
    var k := PlaceOf(t, now, hours);
    AtMeans(now, hours, k, n - 1);
    hide At, AlignedBucket, First, Final;
    forall i ensures At(now, hours, i) == At(now, hours, k) <==> i == k {
      AtMeans(now, hours, i, k);
      AtMeans(now, hours, k, i);
    }
    SumToRaised(i => before(At(now, hours, i)), i => after(At(now, hours, i)), n, k, more);
  }

  lemma {:induction false} SameSum(f: int -> Totals, g: int -> Totals, n: nat)
    requires forall i :: f(i) == g(i)
    ensures SumTo(f, n) == SumTo(g, n)
    decreases n
  {
    if n > 0 {
      SameSum(f, g, n - 1);
    }
  }

  lemma {:induction false} RowsSum(rows: seq<Point>, now: int, hours: int, n: nat)
    requires AllowedHours(hours) && DistinctBuckets(rows, BucketSeconds(hours))
    requires At(now, hours, n - 1) == Final(now, hours)
    requires forall i :: 0 <= i < |rows| ==> InRange(rows[i].bucket, now, hours)
    ensures SumTo(i => LastValue(rows, BucketSeconds(hours), At(now, hours, i)), n) == SumOf(rows)
    decreases |rows|
  {
    var seconds := BucketSeconds(hours);
    hide At, AlignedBucket, InRange, First, Final;
    if rows == [] {
      SumToZero(i => LastValue(rows, seconds, At(now, hours, i)), n);
    } else {
      var front, last := rows[..|rows| - 1], rows[|rows| - 1];
      RowsSum(front, now, hours, n);
      NoValue(front, seconds, AlignedBucket(last.bucket, seconds));
      var before := b => LastValue(front, seconds, b);
      var after := b => LastValue(rows, seconds, b);
      GridRaised(before, after, now, hours, n, last.bucket, last.totals);
      SameSum(i => before(At(now, hours, i)), i => LastValue(front, seconds, At(now, hours, i)), n);
      SameSum(i => after(At(now, hours, i)), i => LastValue(rows, seconds, At(now, hours, i)), n);
    }
  }

  /** Rows in distinct buckets between the cutoff and now are all in the series: nothing is lost and nothing added. */
  lemma SeriesConservesRows(rows: seq<Point>, series: seq<Point>, now: int, hours: int)
    requires AllowedHours(hours) && Filled(series, now, hours, bucket => LastValue(rows, BucketSeconds(hours), bucket))
    requires DistinctBuckets(rows, BucketSeconds(hours))
    requires forall i :: 0 <= i < |rows| ==> InRange(rows[i].bucket, now, hours)
    ensures SumOf(series) == SumOf(rows)
  {
    RowsSum(rows, now, hours, |series|);
    SumOfIsSumTo(series, i => LastValue(rows, BucketSeconds(hours), At(now, hours, i)));
  }

  // ----- from flows to the series

  /** A flow of the request: not before the cutoff, and passing the other filters. */
  predicate Asked(f: Flow, matching: Flow -> bool, now: int, hours: int) {
    Cutoff(now, hours) <= f.start && matching(f)
  }

  /** What the flows of the request that fall into a bucket add up to. */
  ghost function BucketTally(flows: seq<Flow>, matching: Flow -> bool, now: int, hours: int, bucket: int): Totals
    requires AllowedHours(hours)
  {
    if flows == [] then ZERO
    else
      var f, rest := flows[|flows| - 1], BucketTally(flows[..|flows| - 1], matching, now, hours, bucket);
      if Asked(f, matching, now, hours) && AlignedBucket(f.start, BucketSeconds(hours)) == bucket
      then rest.Plus(TotalsOf(f)) else rest
  }

  /** What the matching flows with `lo <= start < hi` add up to. */
  ghost function Between(flows: seq<Flow>, matching: Flow -> bool, lo: int, hi: int): Totals {
    if flows == [] then ZERO
    else
      var f, rest := flows[|flows| - 1], Between(flows[..|flows| - 1], matching, lo, hi);
      if matching(f) && lo <= f.start < hi then rest.Plus(TotalsOf(f)) else rest
  }

  /** Every bucket's totals, where a bucket without an entry has none. */
  ghost predicate Bucketed(buckets: map<int, Totals>, flows: seq<Flow>, matching: Flow -> bool, now: int, hours: int)
    requires AllowedHours(hours)
  {
    forall b :: (if b in buckets then buckets[b] else ZERO) == BucketTally(flows, matching, now, hours, b)
  }

  predicate Ascending(rows: seq<Point>) {
    forall i, j :: 0 <= i < j < |rows| ==> rows[i].bucket < rows[j].bucket
  }

  /** The entries of a map in ascending order of their buckets. */
  ghost predicate RowsOf(rows: seq<Point>, buckets: map<int, Totals>) {
    && Ascending(rows)
    && (forall p :: p in rows ==> p.bucket in buckets && p.totals == buckets[p.bucket])
    && (forall b :: b in buckets ==> Point(b, buckets[b]) in rows)
  }

  /** Puts a row at its place. */
  function Inserted(rows: seq<Point>, p: Point): (r: seq<Point>)
    requires Ascending(rows) && forall q :: q in rows ==> q.bucket != p.bucket
    ensures Ascending(r) && forall q :: q in r <==> q == p || q in rows
    decreases |rows|
  {
    if rows == [] then [p]
    else
      var n := |rows| - 1;
      assert rows == rows[..n] + [rows[n]];
      if rows[n].bucket < p.bucket then rows + [p]
      else
        var front := Inserted(rows[..n], p);
        assert forall i :: 0 <= i < |front| ==> front[i] in front;
        front + [rows[n]]
  }

  /** The entries of a map whose keys were added in the order `keys`, sorted by key. */
  method SortedItems(buckets: map<int, Totals>, keys: seq<int>) returns (rows: seq<Point>)
    requires Distinct(keys) && (forall i :: 0 <= i < |keys| ==> keys[i] in buckets)
    requires forall b :: b in buckets ==> b in keys
    ensures RowsOf(rows, buckets)
  {
    rows := [];
    for i := 0 to |keys|
      invariant Ascending(rows)
      invariant forall p :: p in rows <==> p.bucket in keys[..i] && p.totals == buckets[p.bucket]
    {
      assert keys[..i + 1] == keys[..i] + [keys[i]];
      rows := Inserted(rows, Point(keys[i], buckets[keys[i]]));
    }
    assert keys[..|keys|] == keys;
  }

  lemma MultipleHasNoRest(q: int, seconds: int)
    requires Width(seconds)
    ensures q * seconds % seconds == 0
  {
    if seconds == 300 { assert q * 300 % 300 == 0; }
    else if seconds == 3600 { assert q * 3600 % 3600 == 0; }
    else if seconds == 21600 { assert q * 21600 % 21600 == 0; }
    else { assert q * 86400 % 86400 == 0; }
  }

  lemma AlignedTwice(t: int, seconds: int)
    requires Width(seconds)
    ensures AlignedBucket(AlignedBucket(t, seconds), seconds) == AlignedBucket(t, seconds)
  {
    var s := WholeSeconds(t);
    assert WholeSeconds(AlignedBucket(t, seconds)) == s - s % seconds;
    MultipleHasNoRest(s / seconds, seconds);
  }

  lemma {:induction false} ValueAt(rows: seq<Point>, seconds: int, i: nat)
    requires seconds > 0 && DistinctBuckets(rows, seconds) && i < |rows|
    ensures LastValue(rows, seconds, AlignedBucket(rows[i].bucket, seconds)) == rows[i].totals
  {
    hide AlignedBucket;
    if i < |rows| - 1 {
      ValueAt(rows[..|rows| - 1], seconds, i);
    }
  }

  /** The rows of aligned buckets look each bucket up. */
  lemma RowsLookUp(rows: seq<Point>, buckets: map<int, Totals>, seconds: int, b: int)
    requires seconds > 0 && RowsOf(rows, buckets)
    requires forall x :: x in buckets ==> AlignedBucket(x, seconds) == x
    ensures DistinctBuckets(rows, seconds)
    ensures LastValue(rows, seconds, b) == if b in buckets then buckets[b] else ZERO
  {
    hide AlignedBucket;
    forall i | 0 <= i < |rows| ensures rows[i].bucket in buckets && rows[i].totals == buckets[rows[i].bucket] {
      assert rows[i] in rows;
    }
    if b in buckets {
      var i :| 0 <= i < |rows| && rows[i] == Point(b, buckets[b]);
      ValueAt(rows, seconds, i);
    } else {
      NoValue(rows, seconds, b);
    }
  }

  /** The bucketing done in memory, when the database cannot do it. */
  method BucketFlows(flows: seq<Flow>, matching: Flow -> bool, now: int, hours: int) returns (rows: seq<Point>)
    requires AllowedHours(hours)
    ensures DistinctBuckets(rows, BucketSeconds(hours))
    ensures forall i :: 0 <= i < |rows| ==> AlignedBucket(rows[i].bucket, BucketSeconds(hours)) == rows[i].bucket
    ensures forall b :: LastValue(rows, BucketSeconds(hours), b) == BucketTally(flows, matching, now, hours, b)
  {
    var seconds := BucketSeconds(hours);
    var buckets: map<int, Totals> := map[];
    var keys: seq<int> := [];
    hide AlignedBucket, LastValue;
    for i := 0 to |flows|
      invariant Bucketed(buckets, flows[..i], matching, now, hours)
      invariant forall b :: b in buckets ==> AlignedBucket(b, seconds) == b
      invariant Distinct(keys) && (forall k :: 0 <= k < |keys| ==> keys[k] in buckets)
      invariant forall b :: b in buckets ==> b in keys
    {
      assert flows[..i + 1][..i] == flows[..i];
      if Asked(flows[i], matching, now, hours) {
        var b := AlignedBucket(flows[i].start, seconds);
        AlignedTwice(flows[i].start, seconds);
        if b !in buckets {
          keys := keys + [b];
        }
        buckets := buckets[b := (if b in buckets then buckets[b] else ZERO).Plus(TotalsOf(flows[i]))];
      }
    }
    assert flows[..|flows|] == flows;
    rows := SortedItems(buckets, keys);
    forall b ensures LastValue(rows, seconds, b) == BucketTally(flows, matching, now, hours, b) {
      RowsLookUp(rows, buckets, seconds, b);
    }
    RowsLookUp(rows, buckets, seconds, 0);
  }

  method FlowSummarySeries(flows: seq<Flow>, matching: Flow -> bool, now: int, hours: int) returns (series: seq<Point>)
    requires AllowedHours(hours)
    ensures Filled(series, now, hours, b => BucketTally(flows, matching, now, hours, b))
  {
    var rows := BucketFlows(flows, matching, now, hours);
    series := FillSeries(rows, now, hours);
    hide LastValue, BucketTally, At;
  }

  /** The first instant of the `i`-th bucket. */
  function InstantAt(now: int, hours: int, i: int): int
    requires AllowedHours(hours)
  {
    FirstInstant(At(now, hours, i))
  }

  lemma BucketTallyLast(flows: seq<Flow>, matching: Flow -> bool, now: int, hours: int, bucket: int)
    requires AllowedHours(hours) && flows != []
    ensures var f, rest := flows[|flows| - 1], BucketTally(flows[..|flows| - 1], matching, now, hours, bucket);
            BucketTally(flows, matching, now, hours, bucket)
            == if Asked(f, matching, now, hours) && AlignedBucket(f.start, BucketSeconds(hours)) == bucket
               then rest.Plus(TotalsOf(f)) else rest
  {
  }

  lemma BetweenLast(flows: seq<Flow>, matching: Flow -> bool, lo: int, hi: int)
    requires flows != []
    ensures var f, rest := flows[|flows| - 1], Between(flows[..|flows| - 1], matching, lo, hi);
            Between(flows, matching, lo, hi)
            == if matching(f) && lo <= f.start < hi then rest.Plus(TotalsOf(f)) else rest
  {
  }

  lemma InBucketIff(t: int, now: int, hours: int, i: int)
    requires AllowedHours(hours)
    ensures AlignedBucket(t, BucketSeconds(hours)) == At(now, hours, i)
            <==> InstantAt(now, hours, i) <= t < InstantAt(now, hours, i + 1)
  {
    var k := PlaceOf(t, now, hours);
    AlignedIsFloor(t, BucketSeconds(hours));
    AtMeans(now, hours, k, i);
    AtMeans(now, hours, i, k);
    AtMeans(now, hours, i + 1, k);
    AtMeans(now, hours, k + 1, i);
    hide AlignedBucket, At;
  }

  /** A bucket of the grid holds the flows from its first instant, or the cutoff, to the next bucket's. */
  lemma {:induction false} BucketHolds(flows: seq<Flow>, matching: Flow -> bool, now: int, hours: int, i: int)
    requires AllowedHours(hours)
    ensures BucketTally(flows, matching, now, hours, At(now, hours, i))
            == Between(flows, matching, Max(Cutoff(now, hours), InstantAt(now, hours, i)), InstantAt(now, hours, i + 1))
  {
    if flows != [] {
      var f := flows[|flows| - 1];
      BucketHolds(flows[..|flows| - 1], matching, now, hours, i);
      hide BucketTally, Between;
      if Cutoff(now, hours) <= f.start {
        InBucketIff(f.start, now, hours, i);
      }
      BucketTallyLast(flows, matching, now, hours, At(now, hours, i));
      BetweenLast(flows, matching, Max(Cutoff(now, hours), InstantAt(now, hours, i)), InstantAt(now, hours, i + 1));
    }
  }

  lemma RangeIff(t: int, now: int, hours: int, n: nat)
    requires AllowedHours(hours) && At(now, hours, n - 1) == Final(now, hours) && Cutoff(now, hours) <= t
    ensures InRange(t, now, hours) <==> t < InstantAt(now, hours, n)
  {
    var k := PlaceOf(t, now, hours);
    AlignedIsFloor(t, BucketSeconds(hours));
    AlignedInOrder(Cutoff(now, hours), t, BucketSeconds(hours));
    AtMeans(now, hours, k, n - 1);
    AtMeans(now, hours, n, k);
    AtMeans(now, hours, n - 1, k);
    hide AlignedBucket, At;
  }

  lemma {:induction false} GridSum(flows: seq<Flow>, matching: Flow -> bool, now: int, hours: int, n: nat)
    requires AllowedHours(hours) && At(now, hours, n - 1) == Final(now, hours)
    ensures SumTo(i => BucketTally(flows, matching, now, hours, At(now, hours, i)), n)
            == Between(flows, matching, Cutoff(now, hours), InstantAt(now, hours, n))
  {
    if flows == [] {
      SumToZero(i => BucketTally(flows, matching, now, hours, At(now, hours, i)), n);
    } else {
      var front, f := flows[..|flows| - 1], flows[|flows| - 1];
      GridSum(front, matching, now, hours, n);
      var before := b => BucketTally(front, matching, now, hours, b);
      var after := b => BucketTally(flows, matching, now, hours, b);
      if Asked(f, matching, now, hours) {
        RangeIff(f.start, now, hours, n);
        GridRaised(before, after, now, hours, n, f.start, TotalsOf(f));
        SameSum(i => before(At(now, hours, i)), i => BucketTally(front, matching, now, hours, At(now, hours, i)), n);
        SameSum(i => after(At(now, hours, i)), i => BucketTally(flows, matching, now, hours, At(now, hours, i)), n);
      } else {
        SameSum(i => BucketTally(front, matching, now, hours, At(now, hours, i)),
                i => BucketTally(flows, matching, now, hours, At(now, hours, i)), n);
      }
    }
  }

  /**
   * The series adds up to the matching flows from the cutoff to the end of the current bucket; every point is
   * the sum of the flows of its own interval.
   */
  lemma SeriesCountsFlows(flows: seq<Flow>, matching: Flow -> bool, now: int, hours: int, series: seq<Point>)
    requires AllowedHours(hours)
    requires Filled(series, now, hours, b => BucketTally(flows, matching, now, hours, b))
    ensures SumOf(series)
            == Between(flows, matching, Cutoff(now, hours),
                       FirstInstant(Final(now, hours) + BucketSeconds(hours) * SECOND))
    ensures forall i :: 0 <= i < |series| ==>
              series[i].totals
              == Between(flows, matching, Max(Cutoff(now, hours), FirstInstant(series[i].bucket)),
                         FirstInstant(series[i].bucket + BucketSeconds(hours) * SECOND))
  {
    GridSum(flows, matching, now, hours, |series|);
    SumOfIsSumTo(series, i => BucketTally(flows, matching, now, hours, At(now, hours, i)));
    AtMeans(now, hours, |series| - 1, 0);
    hide At, BucketTally, Between, First, Final, BucketSeconds;
    forall i | 0 <= i < |series|
      ensures series[i].totals
              == Between(flows, matching, Max(Cutoff(now, hours), FirstInstant(series[i].bucket)),
                         FirstInstant(series[i].bucket + BucketSeconds(hours) * SECOND))
    {
      BucketHolds(flows, matching, now, hours, i);
      AtMeans(now, hours, i, 0);
    }
  }
}
