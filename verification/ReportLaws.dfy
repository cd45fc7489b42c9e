/** What a report says about the flows behind the aggregate rows. */
module ReportLaws {
  import opened Common
  import opened Buckets
  import opened Flows
  import opened Aggregation
  import opened FlowHistory
  import opened Reports
  import opened Ordering

  /** The services that were known when a bucket was last rebuilt. */
  type Stamp = int -> ServiceMap

  function RowOf(f: Flow, g: Granularity, stamp: Stamp): RowKey {
    KeyOf(f, g, stamp(FloorBucket(f.start, g)))
  }

  /** Every bucket of the range is the group-by of the flows, each under its own bucket's services. */
  ghost predicate ExactRange(table: AggregateTable, flows: seq<Flow>, g: Granularity, lo: int, hi: int, stamp: Stamp) {
    forall k :: InRange(k, g, lo, hi) ==>
      if Aligned(k.bucket, g) then Cell(table, k, TallyKey(flows, k, stamp(k.bucket))) else k !in table
  }

  /** A flow counts when it starts in the range, and its own dimensions pass the filters and meet the criterion. */
  predicate FlowCounts(f: Flow, g: Granularity, stamp: Stamp, lo: int, hi: int, ctx: Context, c: Criterion) {
    lo <= f.start < hi && Matches(ctx, RowOf(f, g, stamp).dims) && Meets(ctx, c, RowOf(f, g, stamp))
  }

  ghost function FlowSum(
    flows: seq<Flow>, g: Granularity, stamp: Stamp, lo: int, hi: int, ctx: Context, c: Criterion): Totals
  {
    if flows == [] then ZERO
    else
      var n := |flows| - 1;
      var rest := FlowSum(flows[..n], g, stamp, lo, hi, ctx, c);
      if FlowCounts(flows[n], g, stamp, lo, hi, ctx, c) then rest.Plus(TotalsOf(flows[n])) else rest
  }

  /** The flows whose row is one of `keys`, added up. */
  ghost function KeyedSum(flows: seq<Flow>, g: Granularity, stamp: Stamp, keys: set<RowKey>): Totals {
    if flows == [] then ZERO
    else
      var n := |flows| - 1;
      var rest := KeyedSum(flows[..n], g, stamp, keys);
      if RowOf(flows[n], g, stamp) in keys then rest.Plus(TotalsOf(flows[n])) else rest
  }

  lemma {:induction false} KeyedSumOfNone(flows: seq<Flow>, g: Granularity, stamp: Stamp)
    ensures KeyedSum(flows, g, stamp, {}) == ZERO
  {
    if flows != [] {
      KeyedSumOfNone(flows[..|flows| - 1], g, stamp);
    }
  }

  lemma FlowBelongs(f: Flow, g: Granularity, stamp: Stamp, k: RowKey)
    requires k.granularity == g && Aligned(k.bucket, g)
    ensures RowOf(f, g, stamp) == k <==> Counts(f, k.bucket, k.bucket + Step(g), stamp(k.bucket), k.dims)
  {
    FloorUnique(f.start, k.bucket, g);
  }

  /** One more row brings in exactly that row's flows. */
  lemma {:induction false} KeyedSumAdd(flows: seq<Flow>, g: Granularity, stamp: Stamp, keys: set<RowKey>, k: RowKey)
    requires k.granularity == g && Aligned(k.bucket, g) && k !in keys
    ensures KeyedSum(flows, g, stamp, keys + {k})
            == KeyedSum(flows, g, stamp, keys).Plus(TallyKey(flows, k, stamp(k.bucket)))
  {
    if flows != [] {
      KeyedSumAdd(flows[..|flows| - 1], g, stamp, keys, k);
      FlowBelongs(flows[|flows| - 1], g, stamp, k);
    }
  }

  ghost function Meeting(rows: seq<RowKey>, ctx: Context, c: Criterion): set<RowKey> {
    set k | k in rows && Meets(ctx, c, k)
  }

  lemma {:induction false} RowSumIsKeyedSum(
    rows: seq<RowKey>, table: AggregateTable, flows: seq<Flow>, g: Granularity, stamp: Stamp, ctx: Context,
    c: Criterion)
    requires Distinct(rows)
    requires forall k :: k in rows ==>
      && k.granularity == g && Aligned(k.bucket, g) && k in table && table[k] == TallyKey(flows, k, stamp(k.bucket))
    ensures RowSum(rows, table, ctx, c) == KeyedSum(flows, g, stamp, Meeting(rows, ctx, c))
  {
    if rows == [] {
      assert Meeting(rows, ctx, c) == {};
      KeyedSumOfNone(flows, g, stamp);
    } else {
      var n := |rows| - 1;
      var k := rows[n];
      assert rows == rows[..n] + [k];
      assert k !in rows[..n] && k in rows;
      RowSumIsKeyedSum(rows[..n], table, flows, g, stamp, ctx, c);
      hide KeyedSum, Meets, Tally;
      if Meets(ctx, c, k) {
        assert Meeting(rows, ctx, c) == Meeting(rows[..n], ctx, c) + {k};
        KeyedSumAdd(flows, g, stamp, Meeting(rows[..n], ctx, c), k);
      } else {
        assert Meeting(rows, ctx, c) == Meeting(rows[..n], ctx, c);
      }
    }
  }

  lemma {:induction false} KeyedSumIsFlowSum(
    part: seq<Flow>, keys: set<RowKey>, g: Granularity, stamp: Stamp, lo: int, hi: int, ctx: Context, c: Criterion)
    requires forall f :: f in part ==> (RowOf(f, g, stamp) in keys <==> FlowCounts(f, g, stamp, lo, hi, ctx, c))
    ensures KeyedSum(part, g, stamp, keys) == FlowSum(part, g, stamp, lo, hi, ctx, c)
  {
    if part != [] {
      var n := |part| - 1;
      assert part == part[..n] + [part[n]];
      KeyedSumIsFlowSum(part[..n], keys, g, stamp, lo, hi, ctx, c);
    }
  }

  /** The first bucket boundary that is not before an instant. */
  function CeilBucket(value: int, g: Granularity): int {
    if Aligned(value, g) then value else FloorBucket(value, g) + Step(g)
  }

  lemma CeilBounds(value: int, g: Granularity)
    ensures Aligned(CeilBucket(value, g), g) && value <= CeilBucket(value, g) < value + Step(g)
    ensures forall b :: Aligned(b, g) ==> (b < value <==> b < CeilBucket(value, g))
  {
    FloorIsGreatestBoundary(value, g);
    AlignedNext(FloorBucket(value, g), g);
    forall b | Aligned(b, g) ensures b < value <==> b < CeilBucket(value, g) {
      if value <= b < CeilBucket(value, g) {
        AlignedApart(b, CeilBucket(value, g), g);
      }
    }
  }

  lemma FlowInSelection(
    f: Flow, rows: seq<RowKey>, table: AggregateTable, flows: seq<Flow>, g: Granularity,
    lo: int, end: int, stamp: Stamp, ctx: Context, c: Criterion)
    requires Aligned(lo, g) && f in flows
    requires Selection(rows, table, g, lo, end, ctx) && ExactRange(table, flows, g, lo, end, stamp)
    ensures RowOf(f, g, stamp) in Meeting(rows, ctx, c) <==> FlowCounts(f, g, stamp, lo, CeilBucket(end, g), ctx, c)
  {
    var k := RowOf(f, g, stamp);
    FloorIsGreatestBoundary(f.start, g);
    CeilBounds(end, g);
    if lo <= f.start && f.start < CeilBucket(end, g) {
      FloorMonotone(lo, f.start, g);
      FloorOfAligned(lo, g);
      assert InRange(k, g, lo, end);
      FlowBelongs(f, g, stamp, k);
      TallyPresence(flows, k.bucket, k.bucket + Step(g), stamp(k.bucket), k.dims);
      assert k in table;
    } else if k.bucket < end && lo <= k.bucket {
      AlignedApart(k.bucket, CeilBucket(end, g), g);
    }
  }

  /** Some flow is behind every selected row. */
  lemma RowHasFlow(
    rows: seq<RowKey>, table: AggregateTable, flows: seq<Flow>, g: Granularity, lo: int, end: int, stamp: Stamp,
    ctx: Context, k: RowKey) returns (f: Flow)
    requires Selection(rows, table, g, lo, end, ctx) && ExactRange(table, flows, g, lo, end, stamp) && k in rows
    ensures f in flows && RowOf(f, g, stamp) == k
  {
    assert InRange(k, g, lo, end);
    TallyPresence(flows, k.bucket, k.bucket + Step(g), stamp(k.bucket), k.dims);
    hide Tally, Matches;
    f :| f in flows && Counts(f, k.bucket, k.bucket + Step(g), stamp(k.bucket), k.dims);
    FlowBelongs(f, g, stamp, k);
  }

  /**
   * Filtering commutes with aggregation: over exact rows, a report's sum for any filters and any criterion is
   * the sum over the flows that start between the floor of its start and the ceiling of its end, each judged by
   * its own dimensions.
   */
  lemma ReportSumsFlows(
    rows: seq<RowKey>, table: AggregateTable, flows: seq<Flow>, g: Granularity,
    lo: int, end: int, stamp: Stamp, ctx: Context, c: Criterion)
    requires Aligned(lo, g)
    requires Selection(rows, table, g, lo, end, ctx) && ExactRange(table, flows, g, lo, end, stamp)
    ensures RowSum(rows, table, ctx, c) == FlowSum(flows, g, stamp, lo, CeilBucket(end, g), ctx, c)
  {
    forall k | k in rows
      ensures k.granularity == g && Aligned(k.bucket, g)
      ensures k in table && table[k] == TallyKey(flows, k, stamp(k.bucket))
    {
      assert InRange(k, g, lo, end);
    }
    RowSumIsKeyedSum(rows, table, flows, g, stamp, ctx, c);
    forall f | f in flows
      ensures RowOf(f, g, stamp) in Meeting(rows, ctx, c) <==> FlowCounts(f, g, stamp, lo, CeilBucket(end, g), ctx, c)
    {
      FlowInSelection(f, rows, table, flows, g, lo, end, stamp, ctx, c);
    }
    KeyedSumIsFlowSum(flows, Meeting(rows, ctx, c), g, stamp, lo, CeilBucket(end, g), ctx, c);
  }

  // ----- tables that partition the rows

  ghost function EntrySum(entries: seq<Entry>): Totals {
    if entries == [] then ZERO else EntrySum(entries[..|entries| - 1]).Plus(entries[|entries| - 1].totals)
  }

  /** The sums of several entries of one table, added up. */
  ghost function IdSum(ids: seq<string>, rows: seq<RowKey>, table: AggregateTable, ctx: Context, kind: Kind): Totals {
    if ids == [] then ZERO
    else IdSum(ids[..|ids| - 1], rows, table, ctx, kind).Plus(RowSum(rows, table, ctx, Hits(kind, ids[|ids| - 1])))
  }

  lemma RowSumLast(rows: seq<RowKey>, k: RowKey, table: AggregateTable, ctx: Context, c: Criterion)
    ensures RowSum(rows + [k], table, ctx, c)
            == if Meets(ctx, c, k) then RowSum(rows, table, ctx, c).Plus(At(table, k)) else RowSum(rows, table, ctx, c)
  {
    assert (rows + [k])[..|rows|] == rows;
  }

  lemma {:induction false} IdSumNextRow(
    ids: seq<string>, rows: seq<RowKey>, k: RowKey, key: string, table: AggregateTable, ctx: Context, kind: Kind)
    requires Distinct(ids) && KeysOf(ctx, kind, k.dims) == {key}
    ensures IdSum(ids, rows + [k], table, ctx, kind)
            == if key in ids then IdSum(ids, rows, table, ctx, kind).Plus(At(table, k))
               else IdSum(ids, rows, table, ctx, kind)
  {
    hide KeysOf, RowSum;
    if ids != [] {
      var n := |ids| - 1;
      assert ids == ids[..n] + [ids[n]];
      IdSumNextRow(ids[..n], rows, k, key, table, ctx, kind);
      RowSumLast(rows, k, table, ctx, Hits(kind, ids[n]));
    }
  }

  lemma {:induction false} IdSumOfNoRows(ids: seq<string>, table: AggregateTable, ctx: Context, kind: Kind)
    ensures IdSum(ids, [], table, ctx, kind) == ZERO
  {
    if ids != [] {
      IdSumOfNoRows(ids[..|ids| - 1], table, ctx, kind);
    }
  }

  lemma {:induction false} Partition(
    ids: seq<string>, rows: seq<RowKey>, table: AggregateTable, ctx: Context, kind: Kind)
    requires Distinct(ids)
    requires forall k :: k in rows ==> exists key :: key in ids && KeysOf(ctx, kind, k.dims) == {key}
    ensures IdSum(ids, rows, table, ctx, kind) == RowSum(rows, table, ctx, Everything)
  {
    if rows == [] {
      IdSumOfNoRows(ids, table, ctx, kind);
    } else {
      var n := |rows| - 1;
      assert rows == rows[..n] + [rows[n]];
      assert rows[n] in rows;
      var key :| key in ids && KeysOf(ctx, kind, rows[n].dims) == {key};
      Partition(ids, rows[..n], table, ctx, kind);
      IdSumNextRow(ids, rows[..n], rows[n], key, table, ctx, kind);
    }
  }

  function Ids(entries: seq<Entry>): seq<string> {
    seq(|entries|, i requires 0 <= i < |entries| => entries[i].id)
  }

  lemma {:induction false} EntrySumIsIdSum(
    entries: seq<Entry>, rows: seq<RowKey>, table: AggregateTable, ctx: Context, kind: Kind)
    requires forall i :: 0 <= i < |entries| ==> entries[i].totals == RowSum(rows, table, ctx, Hits(kind, entries[i].id))
    ensures EntrySum(entries) == IdSum(Ids(entries), rows, table, ctx, kind)
  {
    if entries != [] {
      var n := |entries| - 1;
      assert Ids(entries)[..n] == Ids(entries[..n]);
      EntrySumIsIdSum(entries[..n], rows, table, ctx, kind);
    }
  }

  predicate Partitions(kind: Kind) {
    kind.Pairs? || kind.Categories? || kind.Protocols? || kind.Ports? || kind.Resolutions?
  }

  lemma OneKeyEach(ctx: Context, kind: Kind, d: Dimensions)
    requires Partitions(kind)
    ensures exists key :: key in KeysOf(ctx, kind, d) && KeysOf(ctx, kind, d) == {key}
  {
    var key :| key in KeysOf(ctx, kind, d);
    assert KeysOf(ctx, kind, d) == {key};
  }

  lemma BeforeIrreflexive(a: string, t: Totals)
    ensures !Before(a, t, a, t)
  {
    LessIrreflexive(a);
  }

  ghost function KeysHit(rows: seq<RowKey>, ctx: Context, kind: Kind): set<string> {
    set k, key | k in rows && key in KeysOf(ctx, kind, k.dims) :: key
  }

  lemma TopIsDistinct(entries: seq<Entry>, values: map<string, Totals>, labels: map<string, string>, limit: nat)
    requires IsTop(entries, values, labels, limit)
    ensures Distinct(Ids(entries))
  {
    forall i, j | 0 <= i < j < |entries| ensures entries[i].id != entries[j].id {
      assert Before(entries[i].id, entries[i].totals, entries[j].id, entries[j].totals);
      BeforeIrreflexive(entries[i].id, entries[i].totals);
    }
  }

  lemma {:induction false} DistinctCount(s: seq<string>)
    requires Distinct(s)
    ensures |set x | x in s| == |s|
  {
    if s != [] {
      var n := |s| - 1;
      DistinctCount(s[..n]);
      assert s == s[..n] + [s[n]];
      assert (set x | x in s) == (set x | x in s[..n]) + {s[n]};
    }
  }

  lemma SubsetOfSameSize(a: set<string>, b: set<string>)
    requires a <= b && |a| == |b|
    ensures a == b
  {
    assert |b - a| == |b| - |a|;
  }

  /** A table that is not cut short lists every key. */
  lemma UntruncatedListsAll(entries: seq<Entry>, values: map<string, Totals>, labels: map<string, string>, limit: nat)
    requires IsTop(entries, values, labels, limit) && |values| <= limit
    ensures forall key :: key in values ==> key in Ids(entries)
  {
    TopIsDistinct(entries, values, labels, limit);
    DistinctCount(Ids(entries));
    var ids := set id | id in Ids(entries);
    assert ids <= values.Keys;
    SubsetOfSameSize(ids, values.Keys);
  }

  lemma RowsHaveListedKeys(
    rows: seq<RowKey>, ids: seq<string>, ctx: Context, kind: Kind)
    requires Partitions(kind) && forall key :: key in KeysHit(rows, ctx, kind) ==> key in ids
    ensures forall k :: k in rows ==> exists key :: key in ids && KeysOf(ctx, kind, k.dims) == {key}
  {
    hide KeysOf;
    forall k | k in rows ensures exists key :: key in ids && KeysOf(ctx, kind, k.dims) == {key} {
      OneKeyEach(ctx, kind, k.dims);
      var key :| key in KeysOf(ctx, kind, k.dims) && KeysOf(ctx, kind, k.dims) == {key};
      assert key in KeysHit(rows, ctx, kind);
    }
  }

  lemma TableSumsToTotals(
    entries: seq<Entry>, values: map<string, Totals>, names: map<string, string>, limit: nat,
    rows: seq<RowKey>, table: AggregateTable, ctx: Context, kind: Kind)
    requires Accumulated(values, rows, table, ctx, kind) && IsTop(entries, values, names, limit)
    requires Partitions(kind) && |KeysHit(rows, ctx, kind)| <= limit
    ensures EntrySum(entries) == RowSum(rows, table, ctx, Everything)
  {
    hide RowSum, IdSum, KeysOf;
    assert values.Keys == KeysHit(rows, ctx, kind);
    assert Distinct(Ids(entries)) by {
      TopIsDistinct(entries, values, names, limit);
    }
    assert forall k :: k in rows ==> exists key :: key in Ids(entries) && KeysOf(ctx, kind, k.dims) == {key} by {
      UntruncatedListsAll(entries, values, names, limit);
      RowsHaveListedKeys(rows, Ids(entries), ctx, kind);
    }
    assert EntrySum(entries) == IdSum(Ids(entries), rows, table, ctx, kind) by {
      EntrySumIsIdSum(entries, rows, table, ctx, kind);
    }
    Partition(Ids(entries), rows, table, ctx, kind);
  }

  /** The pair table and every distribution that is not cut short add up to the report's totals. */
  lemma UntruncatedTablesSumToTotals(
    report: Report, rows: seq<RowKey>, table: AggregateTable, start: int, end: int, ctx: Context,
    serviceNames: map<string, string>, limit: nat, kind: Kind)
    requires ReportOf(report, rows, table, start, end, ctx, serviceNames, limit)
    requires Partitions(kind) && |KeysHit(rows, ctx, kind)| <= limit
    ensures EntrySum(report.rankings[kind]) == report.totals
  {
    hide RowSum, Filled, Selection, IsTop, Accumulated, EntrySum;
    var names := NamesFor(kind, ctx, serviceNames);
    var values :| Accumulated(values, rows, table, ctx, kind) && IsTop(report.rankings[kind], values, names, limit);
    TableSumsToTotals(report.rankings[kind], values, names, limit, rows, table, ctx, kind);
  }

  // ----- the filled series

  /** Exactly one of two criteria holds of a row that meets the whole, and none of one that does not. */
  predicate SplitsRow(ctx: Context, whole: Criterion, left: Criterion, right: Criterion, k: RowKey) {
    && (Meets(ctx, whole, k) <==> Meets(ctx, left, k) || Meets(ctx, right, k))
    && !(Meets(ctx, left, k) && Meets(ctx, right, k))
  }

  lemma {:induction false} RowSumSplit(
    rows: seq<RowKey>, table: AggregateTable, ctx: Context, whole: Criterion, left: Criterion, right: Criterion)
    requires forall i :: 0 <= i < |rows| ==> SplitsRow(ctx, whole, left, right, rows[i])
    ensures RowSum(rows, table, ctx, whole) == RowSum(rows, table, ctx, left).Plus(RowSum(rows, table, ctx, right))
    decreases |rows|
  {
    hide Meets, Totals.Plus;
    if rows == [] {
      PlusRegroups(ZERO, ZERO, ZERO);
    } else {
      var n := |rows| - 1;
      var k, before := rows[n], rows[..n];
      RowSumSplit(before, table, ctx, whole, left, right);
      assert SplitsRow(ctx, whole, left, right, k);
      var l, r := RowSum(before, table, ctx, left), RowSum(before, table, ctx, right);
      PlusRegroups(l, r, At(table, k));
    }
  }

  ghost function SeriesSum(series: seq<(int, Totals)>): Totals {
    if series == [] then ZERO else SeriesSum(series[..|series| - 1]).Plus(series[|series| - 1].1)
  }

  /** On bucket boundaries, the rows of `[lo, hi)` are those before its last bucket and those of that bucket. */
  lemma LastBucketSplit(
    rows: seq<RowKey>, table: AggregateTable, ctx: Context, g: Granularity, lo: int, last: int)
    requires forall k :: k in rows ==> Aligned(k.bucket, g)
    requires Aligned(last, g) && lo <= last
    ensures RowSum(rows, table, ctx, Between(lo, last + Step(g)))
            == RowSum(rows, table, ctx, Between(lo, last)).Plus(RowSum(rows, table, ctx, InBucket(last)))
  {
    forall k | k in rows ensures Meets(ctx, InBucket(last), k) <==> last <= k.bucket < last + Step(g) {
      if last < k.bucket {
        AlignedApart(last, k.bucket, g);
      }
    }
    RowSumSplit(rows, table, ctx, Between(lo, last + Step(g)), Between(lo, last), InBucket(last));
  }

  lemma {:induction false} SeriesSumIsRange(
    series: seq<(int, Totals)>, rows: seq<RowKey>, table: AggregateTable, ctx: Context, g: Granularity, lo: int,
    hi: int)
    requires forall k :: k in rows ==> Aligned(k.bucket, g)
    requires Aligned(lo, g) && Contiguous(series, g, lo, hi)
    requires forall i :: 0 <= i < |series| ==> series[i].1 == RowSum(rows, table, ctx, InBucket(series[i].0))
    ensures SeriesSum(series) == RowSum(rows, table, ctx, Between(lo, hi)) && lo <= hi && Aligned(hi, g)
  {
    hide Aligned, RowSum;
    if series == [] {
      NoHitNoSum(rows, table, ctx, Between(lo, hi));
    } else {
      var n := |series| - 1;
      SeriesSumIsRange(series[..n], rows, table, ctx, g, lo, series[n].0);
      AlignedNext(series[n].0, g);
      LastBucketSplit(rows, table, ctx, g, lo, series[n].0);
    }
  }

  lemma SelectionBounds(
    rows: seq<RowKey>, table: AggregateTable, flows: seq<Flow>, g: Granularity, lo: int, end: int, stamp: Stamp,
    ctx: Context, k: RowKey)
    requires Selection(rows, table, g, lo, end, ctx) && ExactRange(table, flows, g, lo, end, stamp) && k in rows
    ensures Aligned(k.bucket, g) && lo <= k.bucket <= FloorBucket(end, g)
    ensures Aligned(end, g) ==> k.bucket < FloorBucket(end, g)
  {
    assert InRange(k, g, lo, end);
    FloorIsGreatestBoundary(end, g);
  }

  lemma EmptySeriesSum()
    ensures SeriesSum([]) == ZERO
  {
  }

  /**
   * The series leaves out exactly the bucket of the report's end: it adds up to the totals less that bucket,
   * and that bucket is empty when the end is a bucket boundary.
   */
  lemma SeriesLeavesOutLastBucket(
    report: Report, rows: seq<RowKey>, table: AggregateTable, flows: seq<Flow>, stamp: Stamp,
    start: int, end: int, ctx: Context, serviceNames: map<string, string>, limit: nat)
    requires ReportOf(report, rows, table, start, end, ctx, serviceNames, limit)
    requires ExactRange(table, flows, report.granularity, FloorBucket(start, report.granularity), end, stamp)
    ensures var partial := RowSum(rows, table, ctx, InBucket(FloorBucket(end, report.granularity)));
            && report.totals == SeriesSum(report.series).Plus(partial)
            && (Aligned(end, report.granularity) ==> partial == ZERO)
  {
    hide RowSum, FloorBucket, Aligned, ExactRange, Selection, IsTop, Accumulated, SeriesSum, Totals.Plus;
    var g := report.granularity;
    var lo, hi := FloorBucket(start, g), FloorBucket(end, g);
    FloorIsGreatestBoundary(start, g);
    forall k | k in rows ensures Aligned(k.bucket, g) && lo <= k.bucket <= hi && (Aligned(end, g) ==> k.bucket < hi) {
      SelectionBounds(rows, table, flows, g, lo, end, stamp, ctx, k);
    }
    RowSumSplit(rows, table, ctx, Everything, Between(lo, hi), InBucket(hi));
    assert SeriesSum(report.series) == RowSum(rows, table, ctx, Between(lo, hi)) by {
      if hi <= lo {
        NoHitNoSum(rows, table, ctx, Between(lo, hi));
        EmptySeriesSum();
      } else {
        SeriesSumIsRange(report.series, rows, table, ctx, g, lo, hi);
      }
    }
    if Aligned(end, g) {
      NoHitNoSum(rows, table, ctx, InBucket(hi));
    }
  }

  // ----- reports after whole runs

  ghost function StampsOf(passes: seq<Pass>, g: Granularity): Stamp {
    bucket => StampOf(passes, g, bucket)
  }

  lemma LedgerIsExact(l: Ledger, g: Granularity, lo: int, hi: int)
    requires Inv(l) && l.Kept(g, lo)
    ensures ExactRange(l.db.aggregates, l.Seen(), g, lo, hi, StampsOf(l.passes, g))
  {
    forall k | InRange(k, g, lo, hi) && Aligned(k.bucket, g)
      ensures Cell(l.db.aggregates, k, TallyKey(l.Seen(), k, StampsOf(l.passes, g)(k.bucket)))
    {
      assert Exact(l, k);
    }
  }

  /**
   * A report made after any admissible run counts every aggregated flow that its filters select, including
   * flows whose raw rows are gone, as long as its range has not been dropped by aggregate retention.
   */
  lemma ReportAfterAnyRun(
    clock: int, events: seq<Event>, report: Report, rows: seq<RowKey>, start: int, end: int, ctx: Context,
    serviceNames: map<string, string>, limit: nat)
    requires AdmissibleRun(Initial(clock), events)
    requires ReportOf(report, rows, Run(Initial(clock), events).db.aggregates, start, end, ctx, serviceNames, limit)
    requires Run(Initial(clock), events).Kept(report.granularity, FloorBucket(start, report.granularity))
    ensures Run(Initial(clock), events).aggregated <= |Run(Initial(clock), events).history|
    ensures var l := Run(Initial(clock), events);
            var g := report.granularity;
            report.totals == FlowSum(l.Seen(), g, StampsOf(l.passes, g), FloorBucket(start, g), CeilBucket(end, g),
                                     ctx, Everything)
    ensures var l := Run(Initial(clock), events);
            var g := report.granularity;
            forall kind, i :: kind in KINDS && 0 <= i < |report.rankings[kind]| ==>
              report.rankings[kind][i].totals ==
              FlowSum(l.Seen(), g, StampsOf(l.passes, g), FloorBucket(start, g), CeilBucket(end, g), ctx,
                      Hits(kind, report.rankings[kind][i].id))
    ensures var l := Run(Initial(clock), events);
            var g := report.granularity;
            forall i :: 0 <= i < |report.series| ==>
              report.series[i].1 ==
              FlowSum(l.Seen(), g, StampsOf(l.passes, g), FloorBucket(start, g), CeilBucket(end, g), ctx,
                      InBucket(report.series[i].0))
  {
    var l := Run(Initial(clock), events);
    var g := report.granularity;
    var stamp := StampsOf(l.passes, g);
    RunInv(clock, events);
    FloorIsGreatestBoundary(start, g);
    LedgerIsExact(l, g, FloorBucket(start, g), end);
    ReportSumsFlows(rows, l.db.aggregates, l.Seen(), g, FloorBucket(start, g), end, stamp, ctx, Everything);
    forall i | 0 <= i < |report.series|
      ensures report.series[i].1 ==
              FlowSum(l.Seen(), g, stamp, FloorBucket(start, g), CeilBucket(end, g), ctx, InBucket(report.series[i].0))
    {
      ReportSumsFlows(rows, l.db.aggregates, l.Seen(), g, FloorBucket(start, g), end, stamp, ctx,
                      InBucket(report.series[i].0));
    }
    forall kind, i | kind in KINDS && 0 <= i < |report.rankings[kind]|
      ensures report.rankings[kind][i].totals ==
              FlowSum(l.Seen(), g, stamp, FloorBucket(start, g), CeilBucket(end, g), ctx,
                      Hits(kind, report.rankings[kind][i].id))
    {
      var values :| Accumulated(values, rows, l.db.aggregates, ctx, kind)
                    && IsTop(report.rankings[kind], values, NamesFor(kind, ctx, serviceNames), limit);
      ReportSumsFlows(rows, l.db.aggregates, l.Seen(), g, FloorBucket(start, g), end, stamp, ctx,
                      Hits(kind, report.rankings[kind][i].id));
    }
  }
}
