/** The flow tables, and the jobs that rewrite them in place. */
module FlowStore {
  import opened Common
  import opened Buckets
  import opened Flows
  import opened Aggregation

  /** One row of the aggregate-state table. */
  datatype Coverage = Coverage(coverageStart: Option<int>, coverageEnd: Option<int>, lastSuccess: Option<int>)

  const NO_COVERAGE := Coverage(None, None, None)

  datatype Settings = Settings(flowRetentionDays: int, hourlyRetentionDays: int, dailyRetentionDays: int)

  /** The group-by of one slice, computed in one pass over the raw flows. */
  method GroupBySlice(flows: seq<Flow>, lo: int, hi: int, services: ServiceMap)
    returns (groups: map<Dimensions, Totals>)
    ensures forall d :: d in groups <==> exists f :: f in flows && Counts(f, lo, hi, services, d)
    ensures forall d :: d in groups ==> groups[d] == Tally(flows, lo, hi, services, d)
  {
    groups := map[];
    for i := 0 to |flows|
      invariant forall d :: d in groups <==> Tally(flows[..i], lo, hi, services, d).records > 0
      invariant forall d :: d in groups ==> groups[d] == Tally(flows[..i], lo, hi, services, d)
    {
      var f := flows[i];
      assert flows[..i + 1][..i] == flows[..i];
      if lo <= f.start < hi {
        var key := DimensionsOf(f, services);
        TallyPresence(flows[..i], lo, hi, services, key);
        groups := groups[key := if key in groups then groups[key].Plus(TotalsOf(f)) else TotalsOf(f)];
      }
    }
    assert flows[..|flows|] == flows;
    forall d ensures d in groups <==> exists f :: f in flows && Counts(f, lo, hi, services, d) {
      TallyPresence(flows, lo, hi, services, d);
    }
  }

  /** What the rebuild loop has done so far: buckets before `bucket` are finished, `bucket` is done up to `slice`. */
  ghost predicate Progress(
    before: AggregateTable, table: AggregateTable, flows: seq<Flow>, g: Granularity,
    lo: int, hi: int, bucket: int, slice: int, services: ServiceMap)
  {
    && (forall k :: !InRange(k, g, lo, hi) ==>
          (k in table <==> k in before) && (k in before ==> table[k] == before[k]))
    && (forall k :: InRange(k, g, lo, hi) && (!Aligned(k.bucket, g) || bucket < k.bucket) ==> k !in table)
    && (forall k :: InRange(k, g, lo, hi) && Aligned(k.bucket, g) && k.bucket < bucket ==>
          Cell(table, k, TallyKey(flows, k, services)))
    && (forall k :: InRange(k, g, lo, hi) && k.bucket == bucket ==>
          Cell(table, k, Tally(flows, bucket, slice, services, k.dims)))
  }

  /** The effect of inserting one slice's groups into a bucket, adding to the rows that are already there. */
  ghost predicate Inserted(
    before: AggregateTable, after: AggregateTable, g: Granularity, bucket: int, groups: map<Dimensions, Totals>)
  {
    && (forall k: RowKey :: k.granularity == g && k.bucket == bucket && k.dims in groups ==>
          k in after && after[k] == At(before, k).Plus(groups[k.dims]))
    && (forall k: RowKey :: !(k.granularity == g && k.bucket == bucket && k.dims in groups) ==>
          (k in after <==> k in before) && (k in after ==> after[k] == before[k]))
  }

  lemma OtherBucketsUntouched(
    table: AggregateTable, after: AggregateTable, g: Granularity, bucket: int, groups: map<Dimensions, Totals>)
    requires Inserted(table, after, g, bucket, groups)
    ensures forall k: RowKey :: !(k.granularity == g && k.bucket == bucket) ==>
              (k in after <==> k in table) && (k in table ==> after[k] == table[k])
  {
  }

  lemma SameRowSameCell(table: AggregateTable, after: AggregateTable, k: RowKey, t: Totals)
    requires Cell(table, k, t) && (k in after <==> k in table) && (k in table ==> after[k] == table[k])
    ensures Cell(after, k, t)
  {
  }

  lemma CellPlus(table: AggregateTable, after: AggregateTable, k: RowKey, t: Totals, more: Totals)
    requires Cell(table, k, t) && t.records >= 0 && more.records >= 0
    requires (t.records == 0 ==> t == ZERO) && (more.records == 0 ==> more == ZERO)
    requires if more.records > 0 then k in after && after[k] == At(table, k).Plus(more)
             else (k in after <==> k in table) && (k in after ==> after[k] == table[k])
    ensures Cell(after, k, t.Plus(more))
  {
  }

  /** A row of the bucket after one more slice has been inserted. */
  lemma InsertedCell(
    table: AggregateTable, after: AggregateTable, flows: seq<Flow>, bucket: int, slice: int, sliceEnd: int,
    groups: map<Dimensions, Totals>, services: ServiceMap, k: RowKey)
    requires bucket <= slice <= sliceEnd && k.bucket == bucket
    requires Cell(table, k, Tally(flows, bucket, slice, services, k.dims))
    requires k.dims in groups <==> exists f :: f in flows && Counts(f, slice, sliceEnd, services, k.dims)
    requires k.dims in groups ==> groups[k.dims] == Tally(flows, slice, sliceEnd, services, k.dims)
    requires Inserted(table, after, k.granularity, bucket, groups)
    ensures Cell(after, k, Tally(flows, bucket, sliceEnd, services, k.dims))
  {
    var more := Tally(flows, slice, sliceEnd, services, k.dims);
    hide Tally, Counts, Cell, Totals.Plus;
    TallyPresence(flows, slice, sliceEnd, services, k.dims);
    TallyPresence(flows, bucket, slice, services, k.dims);
    TallySplit(flows, bucket, slice, sliceEnd, services, k.dims);
    CellPlus(table, after, k, Tally(flows, bucket, slice, services, k.dims), more);
  }

  lemma ProgressNextSlice(
    before: AggregateTable, table: AggregateTable, after: AggregateTable, flows: seq<Flow>, g: Granularity,
    lo: int, hi: int, bucket: int, slice: int, sliceEnd: int,
    groups: map<Dimensions, Totals>, services: ServiceMap)
    requires lo <= bucket < hi && Aligned(bucket, g) && bucket <= slice <= sliceEnd
    requires Progress(before, table, flows, g, lo, hi, bucket, slice, services)
    requires forall d :: d in groups <==> exists f :: f in flows && Counts(f, slice, sliceEnd, services, d)
    requires forall d :: d in groups ==> groups[d] == Tally(flows, slice, sliceEnd, services, d)
    requires Inserted(table, after, g, bucket, groups)
    ensures Progress(before, after, flows, g, lo, hi, bucket, sliceEnd, services)
  {
    hide Cell, Tally, Inserted, Aligned, Counts;
    OtherBucketsUntouched(table, after, g, bucket, groups);
    forall k | InRange(k, g, lo, hi) && k.bucket == bucket
      ensures Cell(after, k, Tally(flows, bucket, sliceEnd, services, k.dims))
    {
      InsertedCell(table, after, flows, bucket, slice, sliceEnd, groups, services, k);
    }
    forall k | InRange(k, g, lo, hi) && Aligned(k.bucket, g) && k.bucket < bucket
      ensures Cell(after, k, TallyKey(flows, k, services))
    {
      SameRowSameCell(table, after, k, TallyKey(flows, k, services));
    }
  }

  /** Before its first slice a bucket has no row, so a plain insert cannot violate the unique key. */
  lemma NoRowYet(
    before: AggregateTable, table: AggregateTable, flows: seq<Flow>, g: Granularity,
    lo: int, hi: int, bucket: int, services: ServiceMap)
    requires lo <= bucket < hi
    requires Progress(before, table, flows, g, lo, hi, bucket, bucket, services)
    ensures forall d :: RowKey(g, bucket, d) !in table
  {
    forall d ensures RowKey(g, bucket, d) !in table {
      TallyOfNothing(flows, bucket, services, d);
      assert Cell(table, RowKey(g, bucket, d), Tally(flows, bucket, bucket, services, d));
    }
  }

  lemma ProgressNextBucket(
    before: AggregateTable, table: AggregateTable, flows: seq<Flow>, g: Granularity,
    lo: int, hi: int, bucket: int, services: ServiceMap)
    requires Aligned(lo, g) && Aligned(hi, g) && Aligned(bucket, g) && lo <= bucket < hi
    requires Progress(before, table, flows, g, lo, hi, bucket, bucket + Step(g), services)
    ensures Progress(before, table, flows, g, lo, hi, bucket + Step(g), bucket + Step(g), services)
  {
    var next := bucket + Step(g);
    AlignedNext(bucket, g);
    forall k | InRange(k, g, lo, hi) && Aligned(k.bucket, g) && k.bucket < next
      ensures Cell(table, k, TallyKey(flows, k, services))
    {
      if bucket < k.bucket {
        AlignedApart(bucket, k.bucket, g);
      }
    }
    forall k | InRange(k, g, lo, hi) && k.bucket == next
      ensures Cell(table, k, Tally(flows, next, next, services, k.dims))
    {
      TallyOfNothing(flows, next, services, k.dims);
    }
  }

  lemma ProgressStart(
    before: AggregateTable, flows: seq<Flow>, g: Granularity, lo: int, hi: int, services: ServiceMap)
    ensures Progress(before, Without(before, g, lo, hi), flows, g, lo, hi, lo, lo, services)
  {
    forall d ensures Tally(flows, lo, lo, services, d) == ZERO {
      TallyOfNothing(flows, lo, services, d);
    }
  }

  lemma ProgressDone(
    before: AggregateTable, table: AggregateTable, flows: seq<Flow>, g: Granularity,
    lo: int, hi: int, services: ServiceMap)
    requires Aligned(lo, g) && Aligned(hi, g)
    requires Progress(before, table, flows, g, lo, hi, hi, hi, services)
    ensures table == Rebuilt(before, flows, g, lo, hi, services)
  {
    RebuiltCharacterized(before, table, flows, g, lo, hi, services);
  }

  // ----- what the jobs do, as functions on the tables

  datatype Database = Database(flows: seq<Flow>, aggregates: AggregateTable, states: map<Granularity, Coverage>)

  function MinStart(flows: seq<Flow>): (e: int)
    requires flows != []
    ensures exists f :: f in flows && f.start == e
    ensures forall f :: f in flows ==> e <= f.start
  {
    var n := |flows| - 1;
    assert flows == flows[..n] + [flows[n]];
    if n == 0 then flows[0].start else Min(MinStart(flows[..n]), flows[n].start)
  }

  /** How far back a later run rebuilds. */
  function Overlap(g: Granularity): int {
    if g.Daily? then 2 * DAY else 3 * HOUR
  }

  function CoverageOf(states: map<Granularity, Coverage>, g: Granularity): Coverage {
    if g in states then states[g] else NO_COVERAGE
  }

  function WindowStart(earliest: int, c: Coverage, g: Granularity, now: int): int {
    FloorBucket(if c.lastSuccess.Some? then Max(earliest, now - Overlap(g)) else earliest, g)
  }

  function WindowEnd(g: Granularity, now: int): int {
    FloorBucket(now, g) + Step(g)
  }

  function Extended(c: Coverage, lo: int, hi: int, now: int): Coverage {
    Coverage(
      Some(if c.coverageStart.Some? then Min(c.coverageStart.value, lo) else lo),
      Some(if c.coverageEnd.Some? then Max(c.coverageEnd.value, hi) else hi),
      Some(now))
  }

  /** One granularity's share of an update: a single rebuild of its window. */
  ghost function Advanced(db: Database, g: Granularity, earliest: int, now: int, services: ServiceMap): Database {
    var c := CoverageOf(db.states, g);
    var lo, hi := WindowStart(earliest, c, g, now), WindowEnd(g, now);
    db.(aggregates := Rebuilt(db.aggregates, db.flows, g, lo, hi, services),
        states := db.states[g := Extended(c, lo, hi, now)])
  }

  ghost function Updated(db: Database, now: int, services: ServiceMap): Database {
    if db.flows == [] then db
    else
      var earliest := MinStart(db.flows);
      Advanced(Advanced(db, Hourly, earliest, now, services), Daily, earliest, now, services)
  }

  function AggregateCutoff(g: Granularity, settings: Settings, now: int): int {
    FloorBucket(now - (if g.Daily? then settings.dailyRetentionDays else settings.hourlyRetentionDays) * DAY, g)
  }

  function RawCutoff(settings: Settings, now: int): int {
    now - settings.flowRetentionDays * DAY
  }

  predicate Covers(c: Coverage, cutoff: int) {
    && c.lastSuccess.Some? && c.coverageStart.Some? && c.coverageEnd.Some?
    && c.coverageStart.value <= cutoff <= c.coverageEnd.value
  }

  predicate MayDropRaw(states: map<Granularity, Coverage>, cutoff: int) {
    Covers(CoverageOf(states, Hourly), cutoff) && Covers(CoverageOf(states, Daily), cutoff)
  }

  ghost function Cleaned(db: Database, settings: Settings, now: int): Database {
    var cutoff := RawCutoff(settings, now);
    db.(aggregates := map k | k in db.aggregates && AggregateCutoff(k.granularity, settings, now) <= k.bucket ::
          db.aggregates[k],
        flows := if MayDropRaw(db.states, cutoff) then StartingFrom(db.flows, cutoff) else db.flows)
  }

  /** Counting rows chunk by chunk while rebuilding gives the number of rows of the whole range. */
  lemma ChunkStep(
    table: AggregateTable, flows: seq<Flow>, g: Granularity, lo: int, mid: int, hi: int, services: ServiceMap)
    requires Aligned(lo, g) && Aligned(mid, g) && Aligned(hi, g) && lo <= mid <= hi
    ensures var first := Rebuilt(table, flows, g, lo, mid, services);
            var both := Rebuilt(first, flows, g, mid, hi, services);
            && both == Rebuilt(table, flows, g, lo, hi, services)
            && |RowsIn(both, g, lo, hi)| == |RowsIn(first, g, lo, mid)| + |RowsIn(both, g, mid, hi)|
  {
    var first := Rebuilt(table, flows, g, lo, mid, services);
    var both := Rebuilt(first, flows, g, mid, hi, services);
    RebuildTiles(table, flows, g, lo, mid, hi, services);
    RowsInSplit(both, g, lo, mid, hi);
    RebuiltCharacterized(first, both, flows, g, mid, hi, services);
    assert RowsIn(both, g, lo, mid) == RowsIn(first, g, lo, mid);
  }

  lemma WindowAligned(earliest: int, c: Coverage, g: Granularity, now: int)
    ensures Aligned(WindowStart(earliest, c, g, now), g) && Aligned(WindowEnd(g, now), g)
  {
    FloorIsGreatestBoundary(now, g);
    AlignedNext(FloorBucket(now, g), g);
    FloorIsGreatestBoundary(if c.lastSuccess.Some? then Max(earliest, now - Overlap(g)) else earliest, g);
  }

  /** Rebuilding daily rows leaves the hourly ones in place. */
  lemma DailyLeavesHourly(
    table: AggregateTable, flows: seq<Flow>, lo: int, hi: int, services: ServiceMap, from: int, to: int)
    requires Aligned(lo, Daily) && Aligned(hi, Daily)
    ensures RowsIn(Rebuilt(table, flows, Daily, lo, hi, services), Hourly, from, to) == RowsIn(table, Hourly, from, to)
  {
    RebuiltCharacterized(table, Rebuilt(table, flows, Daily, lo, hi, services), flows, Daily, lo, hi, services);
  }

  lemma ChunkAligned(at: int, chunk: int, g: Granularity)
    requires Aligned(at, g)
    requires chunk == if g.Hourly? then DAY else 7 * DAY
    ensures Aligned(at + chunk, g)
  {
  }

  lemma EmptyWindow(table: AggregateTable, flows: seq<Flow>, g: Granularity, lo: int, hi: int, services: ServiceMap)
    requires Aligned(lo, g) && Aligned(hi, g) && hi <= lo
    ensures Rebuilt(table, flows, g, lo, hi, services) == table == Rebuilt(table, flows, g, lo, lo, services)
    ensures RowsIn(table, g, lo, hi) == {} == RowsIn(table, g, lo, lo)
  {
    RebuiltCharacterized(table, table, flows, g, lo, hi, services);
    RebuiltCharacterized(table, table, flows, g, lo, lo, services);
  }

  class FlowTables {
    var flows: seq<Flow>
    var aggregates: AggregateTable
    var states: map<Granularity, Coverage>

    constructor ()
      ensures flows == [] && aggregates == map[] && states == map[]
    {
      flows, aggregates, states := [], map[], map[];
    }

    /**
     * INSERT … SELECT of one slice. The plain insert of the hourly granularity would violate the
     * unique key if a row existed; the daily one adds to it.
     */
    method InsertGroups(g: Granularity, bucket: int, groups: map<Dimensions, Totals>)
      requires g.Hourly? ==> forall d :: d in groups ==> RowKey(g, bucket, d) !in aggregates
      modifies this`aggregates
      ensures Inserted(old(aggregates), aggregates, g, bucket, groups)
    {
      aggregates := aggregates +
        map d | d in groups :: RowKey(g, bucket, d) := At(aggregates, RowKey(g, bucket, d)).Plus(groups[d]);
    }

    method RebuildAggregateRange(g: Granularity, start: int, end: int, services: ServiceMap) returns (count: nat)
      modifies this`aggregates
      ensures aggregates == Rebuilt(old(aggregates), flows, g, FloorBucket(start, g), FloorBucket(end, g), services)
      ensures count == |RowsIn(aggregates, g, FloorBucket(start, g), FloorBucket(end, g))|
    {
      var lo, hi := FloorBucket(start, g), FloorBucket(end, g);
      FloorIsGreatestBoundary(start, g);
      FloorIsGreatestBoundary(end, g);
      if hi <= lo {
        RebuiltCharacterized(aggregates, aggregates, flows, g, lo, hi, services);
        assert RowsIn(aggregates, g, lo, hi) == {};
        return 0;
      }
      aggregates := map k | k in aggregates && !InRange(k, g, lo, hi) :: aggregates[k];
      var bucket := lo;
      ProgressStart(old(aggregates), flows, g, lo, hi, services);
      while bucket < hi
        invariant lo <= bucket <= hi && Aligned(bucket, g)
        invariant Progress(old(aggregates), aggregates, flows, g, lo, hi, bucket, bucket, services)
        decreases hi - bucket
      {
        AlignedApart(bucket, hi, g);
        AlignedNext(bucket, g);
        var bucketEnd := Min(bucket + Step(g), hi);
        var slice := bucket;
        while slice < bucketEnd
          invariant bucket <= slice <= bucketEnd && (g.Hourly? ==> slice == bucket || slice == bucketEnd)
          invariant Progress(old(aggregates), aggregates, flows, g, lo, hi, bucket, slice, services)
          decreases bucketEnd - slice
        {
          var sliceEnd := Min(slice + HOUR, bucketEnd);
          var groups := GroupBySlice(flows, slice, sliceEnd, services);
          if g.Hourly? {
            NoRowYet(old(aggregates), aggregates, flows, g, lo, hi, bucket, services);
          }
          ghost var table := aggregates;
          InsertGroups(g, bucket, groups);
          ProgressNextSlice(old(aggregates), table, aggregates, flows, g, lo, hi, bucket, slice, sliceEnd, groups,
                            services);
          slice := sliceEnd;
        }
        ProgressNextBucket(old(aggregates), aggregates, flows, g, lo, hi, bucket, services);
        bucket := bucketEnd;
      }
      ProgressDone(old(aggregates), aggregates, flows, g, lo, hi, services);
      count := |set k | k in aggregates && InRange(k, g, lo, hi)|;
    }

    ghost function Tables(): Database
      reads this
    {
      Database(flows, aggregates, states)
    }

    /** One granularity of an update, rebuilt in chunks of a day or a week. */
    method UpdateGranularity(g: Granularity, earliest: int, now: int, services: ServiceMap) returns (count: nat)
      modifies this
      ensures Tables() == Advanced(old(Tables()), g, earliest, now, services)
      ensures var lo, hi := WindowStart(earliest, CoverageOf(old(states), g), g, now), WindowEnd(g, now);
              count == |RowsIn(aggregates, g, lo, hi)|
    {
      var state := CoverageOf(states, g);
      var processedStart := WindowStart(earliest, state, g, now);
      var final := WindowEnd(g, now);
      WindowAligned(earliest, state, g, now);
      var current := processedStart;
      var chunk := if g.Hourly? then DAY else 7 * DAY;
      count := 0;
      EmptyWindow(aggregates, flows, g, current, current, services);
      while current < final
        invariant processedStart <= current && (current <= final || current == processedStart) && Aligned(current, g)
        invariant flows == old(flows) && states == old(states)
        invariant aggregates == Rebuilt(old(aggregates), flows, g, processedStart, current, services)
        invariant count == |RowsIn(aggregates, g, processedStart, current)|
        decreases final - current
      {
        ChunkAligned(current, chunk, g);
        var chunkEnd := Min(current + chunk, final);
        var rows := RebuildAggregateRange(g, current, chunkEnd, services);
        FloorOfAligned(current, g);
        FloorOfAligned(chunkEnd, g);
        ChunkStep(old(aggregates), flows, g, processedStart, current, chunkEnd, services);
        count := count + rows;
        current := chunkEnd;
      }
      if final < current {
        EmptyWindow(old(aggregates), flows, g, current, final, services);
      }
      states := states[g := Extended(state, processedStart, final, now)];
    }

    method UpdateFlowAggregates(now: int, services: ServiceMap) returns (counts: map<Granularity, nat>)
      modifies this
      ensures Tables() == Updated(old(Tables()), now, services)
      ensures counts.Keys == {Hourly, Daily}
      ensures flows == [] ==> counts == map[Hourly := 0, Daily := 0]
      ensures flows != [] ==> forall g :: g in counts ==>
        var lo, hi := WindowStart(MinStart(flows), CoverageOf(old(states), g), g, now), WindowEnd(g, now);
        counts[g] == |RowsIn(aggregates, g, lo, hi)|
    {
      hide Rebuilt, RowsIn, WindowStart, WindowEnd, Extended, Aligned;
      if flows == [] {
        return map[Hourly := 0, Daily := 0];
      }
      var earliest := MinStart(flows);
      var hourly := UpdateGranularity(Hourly, earliest, now, services);
      ghost var table := aggregates;
      ghost var lo, hi := WindowStart(earliest, CoverageOf(states, Daily), Daily, now), WindowEnd(Daily, now);
      var daily := UpdateGranularity(Daily, earliest, now, services);
      WindowAligned(earliest, CoverageOf(old(states), Daily), Daily, now);
      DailyLeavesHourly(table, flows, lo, hi, services,
                        WindowStart(earliest, CoverageOf(old(states), Hourly), Hourly, now), WindowEnd(Hourly, now));
      counts := map[Hourly := hourly, Daily := daily];
    }

    method CleanupFlowData(settings: Settings, now: int)
      modifies this
      ensures Tables() == Cleaned(old(Tables()), settings, now)
    {
      var hourlyCutoff := AggregateCutoff(Hourly, settings, now);
      var dailyCutoff := AggregateCutoff(Daily, settings, now);
      aggregates := map k | k in aggregates &&
        !((k.granularity.Hourly? && k.bucket < hourlyCutoff) || (k.granularity.Daily? && k.bucket < dailyCutoff))
        :: aggregates[k];
      var rawCutoff := RawCutoff(settings, now);
      if MayDropRaw(states, rawCutoff) {
        flows := StartingFrom(flows, rawCutoff);
      }
    }
  }
}
