/** Rebuilding, extending and trimming the hourly and daily flow aggregates. */
module Aggregation {
  import opened Common
  import opened Buckets
  import opened Flows

  /** The unique key of the aggregate table. */
  datatype RowKey = RowKey(granularity: Granularity, bucket: int, dims: Dimensions)

  type AggregateTable = map<RowKey, Totals>

  predicate InRange(k: RowKey, g: Granularity, lo: int, hi: int) {
    k.granularity == g && lo <= k.bucket < hi
  }

  function KeyOf(f: Flow, g: Granularity, services: ServiceMap): RowKey {
    RowKey(g, FloorBucket(f.start, g), DimensionsOf(f, services))
  }

  /** What the flows of one row's bucket and dimensions add up to. */
  ghost function TallyKey(flows: seq<Flow>, k: RowKey, services: ServiceMap): Totals {
    Tally(flows, k.bucket, k.bucket + Step(k.granularity), services, k.dims)
  }

  /** One direct group-by of the flows with `lo <= start < hi`, for bucket boundaries `lo` and `hi`. */
  ghost function Grouped(flows: seq<Flow>, g: Granularity, lo: int, hi: int, services: ServiceMap): AggregateTable {
    map k | k in (set f | f in flows && lo <= f.start < hi :: KeyOf(f, g, services)) :: TallyKey(flows, k, services)
  }

  ghost function Without(table: AggregateTable, g: Granularity, lo: int, hi: int): AggregateTable {
    map k | k in table && !InRange(k, g, lo, hi) :: table[k]
  }

  /** The table whose rows in `[lo, hi)` have been replaced by a direct group-by. */
  ghost function Rebuilt(
    table: AggregateTable, flows: seq<Flow>, g: Granularity, lo: int, hi: int, services: ServiceMap): AggregateTable
  {
    Without(table, g, lo, hi) + Grouped(flows, g, lo, hi, services)
  }

  ghost function RowsIn(table: AggregateTable, g: Granularity, lo: int, hi: int): set<RowKey> {
    set k | k in table && InRange(k, g, lo, hi)
  }

  /** Row `k` says exactly what `t` says; an empty total has no row. */
  predicate Cell(table: AggregateTable, k: RowKey, t: Totals) {
    (k in table <==> t.records > 0) && (k in table ==> table[k] == t)
  }

  // ----- what a direct group-by holds

  /** A group-by has a row for exactly the buckets and dimensions that some flow has. */
  lemma GroupedCell(flows: seq<Flow>, g: Granularity, lo: int, hi: int, services: ServiceMap, k: RowKey)
    requires Aligned(lo, g) && Aligned(hi, g)
    ensures InRange(k, g, lo, hi) && Aligned(k.bucket, g)
            ==> Cell(Grouped(flows, g, lo, hi, services), k, TallyKey(flows, k, services))
    ensures k in Grouped(flows, g, lo, hi, services) ==> InRange(k, g, lo, hi) && Aligned(k.bucket, g)
  {
    hide Tally, DimensionsOf, FloorBucket, Aligned;
    var grouped := Grouped(flows, g, lo, hi, services);
    if k in grouped {
      var f :| f in flows && lo <= f.start < hi && KeyOf(f, g, services) == k;
      FloorIsGreatestBoundary(f.start, g);
      TallyPresence(flows, k.bucket, k.bucket + Step(g), services, k.dims);
    }
    if InRange(k, g, lo, hi) && Aligned(k.bucket, g) {
      TallyPresence(flows, k.bucket, k.bucket + Step(g), services, k.dims);
      AlignedApart(k.bucket, hi, g);
      if f :| f in flows && Counts(f, k.bucket, k.bucket + Step(g), services, k.dims) {
        FloorUnique(f.start, k.bucket, g);
        assert KeyOf(f, g, services) == k;
      }
    }
  }

  /** A table is the rebuilt one iff it is unchanged outside the range and exact inside it. */
  lemma RebuiltCharacterized(
    table: AggregateTable, after: AggregateTable, flows: seq<Flow>,
    g: Granularity, lo: int, hi: int, services: ServiceMap)
    requires Aligned(lo, g) && Aligned(hi, g)
    ensures after == Rebuilt(table, flows, g, lo, hi, services) <==>
            && (forall k :: !InRange(k, g, lo, hi) ==>
                  (k in after <==> k in table) && (k in table ==> after[k] == table[k]))
            && (forall k :: InRange(k, g, lo, hi) && Aligned(k.bucket, g) ==>
                  Cell(after, k, TallyKey(flows, k, services)))
            && (forall k :: InRange(k, g, lo, hi) && !Aligned(k.bucket, g) ==> k !in after)
  {
    var rebuilt := Rebuilt(table, flows, g, lo, hi, services);
    forall k
      ensures !InRange(k, g, lo, hi) ==>
                (k in rebuilt <==> k in table) && (k in table ==> rebuilt[k] == table[k])
      ensures InRange(k, g, lo, hi) && Aligned(k.bucket, g) ==> Cell(rebuilt, k, TallyKey(flows, k, services))
      ensures InRange(k, g, lo, hi) && !Aligned(k.bucket, g) ==> k !in rebuilt
    {
      GroupedCell(flows, g, lo, hi, services, k);
    }
    if && (forall k :: !InRange(k, g, lo, hi) ==>
             (k in after <==> k in table) && (k in table ==> after[k] == table[k]))
       && (forall k :: InRange(k, g, lo, hi) && Aligned(k.bucket, g) ==>
             Cell(after, k, TallyKey(flows, k, services)))
       && (forall k :: InRange(k, g, lo, hi) && !Aligned(k.bucket, g) ==> k !in after)
    {
      forall k ensures (k in after <==> k in rebuilt) && (k in after ==> after[k] == rebuilt[k]) {
        assert InRange(k, g, lo, hi) || !InRange(k, g, lo, hi);
      }
      assert after.Keys == rebuilt.Keys;
      assert after == rebuilt;
    }
  }

  // ----- laws of rebuilding

  lemma RebuildIdempotent(
    table: AggregateTable, flows: seq<Flow>, g: Granularity, lo: int, hi: int, services: ServiceMap)
    requires Aligned(lo, g) && Aligned(hi, g)
    ensures var once := Rebuilt(table, flows, g, lo, hi, services);
            Rebuilt(once, flows, g, lo, hi, services) == once
  {
    var once := Rebuilt(table, flows, g, lo, hi, services);
    RebuiltCharacterized(table, once, flows, g, lo, hi, services);
    RebuiltCharacterized(once, once, flows, g, lo, hi, services);
  }

  /** Rebuilding two adjacent ranges one after the other is rebuilding their union at once. */
  lemma RebuildTiles(
    table: AggregateTable, flows: seq<Flow>, g: Granularity, lo: int, mid: int, hi: int, services: ServiceMap)
    requires Aligned(lo, g) && Aligned(mid, g) && Aligned(hi, g)
    requires lo <= mid <= hi
    ensures Rebuilt(Rebuilt(table, flows, g, lo, mid, services), flows, g, mid, hi, services)
            == Rebuilt(table, flows, g, lo, hi, services)
  {
    var first := Rebuilt(table, flows, g, lo, mid, services);
    var both := Rebuilt(first, flows, g, mid, hi, services);
    RebuiltCharacterized(table, first, flows, g, lo, mid, services);
    RebuiltCharacterized(first, both, flows, g, mid, hi, services);
    RebuiltCharacterized(table, both, flows, g, lo, hi, services);
    forall k | InRange(k, g, lo, hi) && Aligned(k.bucket, g)
      ensures Cell(both, k, TallyKey(flows, k, services))
    {
      assert InRange(k, g, lo, mid) || InRange(k, g, mid, hi);
    }
  }

  /** Row counts of adjacent ranges add up, whatever the table. */
  lemma RowsInSplit(table: AggregateTable, g: Granularity, lo: int, mid: int, hi: int)
    requires lo <= mid <= hi
    ensures |RowsIn(table, g, lo, hi)| == |RowsIn(table, g, lo, mid)| + |RowsIn(table, g, mid, hi)|
  {
    var left, right := RowsIn(table, g, lo, mid), RowsIn(table, g, mid, hi);
    assert left !! right;
    assert RowsIn(table, g, lo, hi) == left + right;
  }

  // ----- a daily row is the sum of its 24 hourly rows

  function At(table: AggregateTable, k: RowKey): Totals {
    if k in table then table[k] else ZERO
  }

  /** The hourly rows from `lo` until `hi`, one every hour, added up. */
  ghost function HourlySum(table: AggregateTable, lo: int, hi: int, d: Dimensions): Totals
    decreases hi - lo
  {
    if hi <= lo then ZERO
    else At(table, RowKey(Hourly, lo, d)).Plus(HourlySum(table, lo + 3_600_000_000, hi, d))
  }

  lemma HourlySumStep(table: AggregateTable, lo: int, hi: int, d: Dimensions)
    ensures HourlySum(table, lo, hi, d) == if hi <= lo then ZERO
            else At(table, RowKey(Hourly, lo, d)).Plus(HourlySum(table, lo + 3_600_000_000, hi, d))
  {
  }

  lemma {:induction false} HourlySumIsTally(
    table: AggregateTable, flows: seq<Flow>, services: ServiceMap, lo: int, hi: int, d: Dimensions)
    requires Aligned(lo, Hourly) && Aligned(hi, Hourly) && lo <= hi
    requires forall k :: InRange(k, Hourly, lo, hi) && Aligned(k.bucket, Hourly) ==>
              Cell(table, k, TallyKey(flows, k, services))
    ensures HourlySum(table, lo, hi, d) == Tally(flows, lo, hi, services, d)
    decreases hi - lo
  {
    HourlySumStep(table, lo, hi, d);
    hide HourlySum;
    if lo == hi {
      TallyOfNothing(flows, lo, services, d);
    } else {
      var k, next := RowKey(Hourly, lo, d), lo + 3_600_000_000;
      AlignedApart(lo, hi, Hourly);
      AlignedNext(lo, Hourly);
      HourlySumIsTally(table, flows, services, next, hi, d);
      assert At(table, k) == Tally(flows, lo, next, services, d) by {
        assert Cell(table, k, TallyKey(flows, k, services));
        TallyPresence(flows, lo, next, services, d);
      }
      TallySplit(flows, lo, next, hi, services, d);
    }
  }

  /** Where the hourly rows of a day and its daily row are exact, the daily row is the sum of the 24 hourly ones. */
  lemma DailyRowIsSumOfHours(table: AggregateTable, flows: seq<Flow>, services: ServiceMap, day: int, d: Dimensions)
    requires Aligned(day, Daily)
    requires forall k :: InRange(k, Hourly, day, day + DAY) && Aligned(k.bucket, Hourly) ==>
              Cell(table, k, TallyKey(flows, k, services))
    requires Cell(table, RowKey(Daily, day, d), TallyKey(flows, RowKey(Daily, day, d), services))
    ensures At(table, RowKey(Daily, day, d)) == HourlySum(table, day, day + DAY, d)
  {
    hide HourlySum, Tally;
    DayIsHourAligned(day);
    AlignedNext(day, Daily);
    DayIsHourAligned(day + DAY);
    hide Aligned;
    HourlySumIsTally(table, flows, services, day, day + DAY, d);
    TallyPresence(flows, day, day + Step(Daily), services, d);
  }

  lemma RebuiltBothExact(
    table: AggregateTable, flows: seq<Flow>, services: ServiceMap, lo: int, hi: int, k: RowKey)
    requires Aligned(lo, Daily) && Aligned(hi, Daily) && lo <= k.bucket < hi && Aligned(k.bucket, k.granularity)
    ensures var hourly := Rebuilt(table, flows, Hourly, lo, hi, services);
            Cell(Rebuilt(hourly, flows, Daily, lo, hi, services), k, TallyKey(flows, k, services))
  {
    var hourly := Rebuilt(table, flows, Hourly, lo, hi, services);
    hide TallyKey, Aligned, FloorBucket, Grouped;
    DayIsHourAligned(lo);
    DayIsHourAligned(hi);
    GroupedCell(flows, Daily, lo, hi, services, k);
    GroupedCell(flows, Hourly, lo, hi, services, k);
  }

  /** Rebuilding both granularities with one service map leaves each daily row equal to its hourly rows' sum. */
  lemma RebuiltDailyIsSumOfHours(
    table: AggregateTable, flows: seq<Flow>, services: ServiceMap, lo: int, hi: int, day: int, d: Dimensions)
    requires Aligned(lo, Daily) && Aligned(hi, Daily) && Aligned(day, Daily) && lo <= day < hi
    ensures var hourly := Rebuilt(table, flows, Hourly, lo, hi, services);
            var both := Rebuilt(hourly, flows, Daily, lo, hi, services);
            At(both, RowKey(Daily, day, d)) == HourlySum(both, day, day + DAY, d)
  {
    hide HourlySum;
    hide Tally;
    hide Rebuilt;
    var hourly := Rebuilt(table, flows, Hourly, lo, hi, services);
    var both := Rebuilt(hourly, flows, Daily, lo, hi, services);
    AlignedApart(day, hi, Daily);
    forall k | InRange(k, Hourly, day, day + DAY) && Aligned(k.bucket, Hourly)
      ensures Cell(both, k, TallyKey(flows, k, services))
    {
      RebuiltBothExact(table, flows, services, lo, hi, k);
    }
    RebuiltBothExact(table, flows, services, lo, hi, RowKey(Daily, day, d));
    DailyRowIsSumOfHours(both, flows, services, day, d);
  }
}
