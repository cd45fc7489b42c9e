/** Network reports: filtering aggregate rows and accumulating totals, a filled series and ranked tables. */
module Reports {
  import opened Common
  import opened Buckets
  import opened Flows
  import opened Aggregation
  import opened Ordering
  import opened Texts

  /** A saved view's filters, already parsed; an empty text or `None` does not filter. */
  datatype Filters = Filters(
    category: string, protocol: Option<int>, port: Option<int>, resolution: string,
    source: string, destination: string)

  /** What a report is evaluated against: filters, device names, and the case folding of the host language. */
  datatype Context = Context(filters: Filters, labels: map<string, string>, fold: string -> string)

  datatype Kind = Devices | Pairs | Services | Categories | Protocols | Ports | Resolutions

  /** Which rows a total is taken over. */
  datatype Criterion = Everything | Hits(kind: Kind, key: string) | Between(lo: int, hi: int)

  const KINDS: set<Kind> := {Devices, Pairs, Services, Categories, Protocols, Ports, Resolutions}

  /** The rows of one bucket. */
  function InBucket(bucket: int): Criterion {
    Between(bucket, bucket + 1)
  }

  datatype Entry = Entry(id: string, name: string, totals: Totals)

  datatype Report = Report(
    granularity: Granularity, totals: Totals, series: seq<(int, Totals)>, rankings: map<Kind, seq<Entry>>)

  // ----- rows and what they contribute to

  predicate OccursAt(text: string, term: string, i: int) {
    0 <= i <= |text| - |term| && text[i..i + |term|] == term
  }

  predicate Contains(text: string, term: string) {
    exists i :: 0 <= i <= |text| && OccursAt(text, term, i)
  }

  function LabelOf(labels: map<string, string>, id: string, default: string): string {
    if id in labels then labels[id] else default
  }

  predicate SideMatches(ctx: Context, term: string, device: string, raw: string) {
    ctx.fold(term) == ""
    || Contains(ctx.fold(device + " " + raw + " " + LabelOf(ctx.labels, device, "")), ctx.fold(term))
  }

  /** Whether a row passes the filters. */
  predicate Matches(ctx: Context, d: Dimensions) {
    var f := ctx.filters;
    && (f.category != "" ==> d.category == f.category)
    && (f.protocol.Some? ==> d.protocol == f.protocol.value)
    && (f.port.Some? ==> f.port.value == d.sourcePort || f.port.value == d.destinationPort)
    && (f.resolution == "resolved" ==> d.resolved)
    && (f.resolution == "unresolved" ==> !d.resolved)
    && SideMatches(ctx, f.source, d.sourceDevice, d.sourceRaw)
    && SideMatches(ctx, f.destination, d.destinationDevice, d.destinationRaw)
  }

  function NumberKey(n: int): string {
    if n >= 0 then Decimal(n) else "not reported"
  }

  function EndpointLabel(ctx: Context, device: string, raw: string): string {
    if device != "" then LabelOf(ctx.labels, device, device)
    else if raw != "" then raw else "unresolved"
  }

  /** The entries of a ranked table that a row adds to. */
  function KeysOf(ctx: Context, kind: Kind, d: Dimensions): set<string> {
    match kind
    case Devices => {d.sourceDevice, d.destinationDevice} - {""}
    case Pairs => {EndpointLabel(ctx, d.sourceDevice, d.sourceRaw) + " \U{2192} "
                   + EndpointLabel(ctx, d.destinationDevice, d.destinationRaw)}
    case Services => {d.sourceService, d.destinationService} - {""}
    case Categories => {d.category}
    case Protocols => {NumberKey(d.protocol)}
    case Ports => {NumberKey(d.destinationPort)}
    case Resolutions => {if d.resolved then "resolved" else "unresolved"}
  }

  predicate Meets(ctx: Context, c: Criterion, k: RowKey) {
    match c
    case Everything => true
    case Hits(kind, key) => key in KeysOf(ctx, kind, k.dims)
    case Between(lo, hi) => lo <= k.bucket < hi
  }

  /** The selected rows that meet a criterion, added up. */
  ghost function RowSum(rows: seq<RowKey>, table: AggregateTable, ctx: Context, c: Criterion): Totals {
    if rows == [] then ZERO
    else
      var n := |rows| - 1;
      var rest := RowSum(rows[..n], table, ctx, c);
      if Meets(ctx, c, rows[n]) then rest.Plus(At(table, rows[n])) else rest
  }

  lemma RowSumNext(rows: seq<RowKey>, i: nat, table: AggregateTable, ctx: Context, c: Criterion)
    requires i < |rows|
    ensures RowSum(rows[..i + 1], table, ctx, c)
            == if Meets(ctx, c, rows[i]) then RowSum(rows[..i], table, ctx, c).Plus(At(table, rows[i]))
               else RowSum(rows[..i], table, ctx, c)
  {
    assert rows[..i + 1][..i] == rows[..i];
  }

  /** The rows a report reads: the range and the filters decide, in some order, each row once. */
  ghost predicate Selection(
    rows: seq<RowKey>, table: AggregateTable, g: Granularity, lo: int, hi: int, ctx: Context)
  {
    Distinct(rows) && forall k :: k in rows <==> k in table && InRange(k, g, lo, hi) && Matches(ctx, k.dims)
  }

  // ----- ranking

  predicate Before(a: string, aTotals: Totals, b: string, bTotals: Totals) {
    aTotals.bytes > bTotals.bytes || (aTotals.bytes == bTotals.bytes && Less(a, b))
  }

  lemma BeforeTransitive(a: string, at: Totals, b: string, bt: Totals, c: string, ct: Totals)
    requires Before(a, at, b, bt) && Before(b, bt, c, ct)
    ensures Before(a, at, c, ct)
  {
    if Less(a, b) && Less(b, c) {
      LessTransitive(a, b, c);
    }
  }

  lemma BeforeTotal(a: string, at: Totals, b: string, bt: Totals)
    requires a != b
    ensures Before(a, at, b, bt) || Before(b, bt, a, at)
  {
    LessTotal(a, b);
  }

  predicate Ordered(keys: seq<string>, values: map<string, Totals>) {
    && (forall key :: key in keys ==> key in values)
    && (forall i, j :: 0 <= i < j < |keys| ==> Before(keys[i], values[keys[i]], keys[j], values[keys[j]]))
  }

  /** Places one more key into an ordered list. */
  method InsertKey(keys: seq<string>, key: string, values: map<string, Totals>) returns (more: seq<string>)
    requires Ordered(keys, values) && key in values && key !in keys
    ensures Ordered(more, values)
    ensures |more| == |keys| + 1
    ensures forall x :: x in more <==> x == key || x in keys
  {
    hide Before;
    var i := 0;
    while i < |keys| && Before(keys[i], values[keys[i]], key, values[key])
      invariant 0 <= i <= |keys|
      invariant forall j :: 0 <= j < i ==> Before(keys[j], values[keys[j]], key, values[key])
    {
      i := i + 1;
    }
    more := keys[..i] + [key] + keys[i..];
    if i < |keys| {
      BeforeTotal(keys[i], values[keys[i]], key, values[key]);
      forall j | i < j < |keys| ensures Before(key, values[key], keys[j], values[keys[j]]) {
        BeforeTransitive(key, values[key], keys[i], values[keys[i]], keys[j], values[keys[j]]);
      }
    }
    assert keys == keys[..i] + keys[i..];
  }

  function NameFor(labels: map<string, string>, key: string): string {
    LabelOf(labels, key, if key == "" then "Unresolved" else key)
  }

  predicate NotListed(key: string, entries: seq<Entry>) {
    forall j :: 0 <= j < |entries| ==> entries[j].id != key
  }

  /** The best `limit` keys: more bytes first, equal bytes by key, and nothing left out ranks before anything kept. */
  ghost predicate IsTop(entries: seq<Entry>, values: map<string, Totals>, labels: map<string, string>, limit: nat) {
    && |entries| == Min(limit, |values|)
    && (forall i :: 0 <= i < |entries| ==>
          && entries[i].id in values && entries[i].totals == values[entries[i].id]
          && entries[i].name == NameFor(labels, entries[i].id))
    && (forall i, j :: 0 <= i < j < |entries| ==>
          Before(entries[i].id, entries[i].totals, entries[j].id, entries[j].totals))
    && (forall key, i :: key in values && 0 <= i < |entries| && NotListed(key, entries) ==>
          Before(entries[i].id, entries[i].totals, key, values[key]))
  }

  function EntryFor(key: string, values: map<string, Totals>, labels: map<string, string>): Entry
    requires key in values
  {
    Entry(key, NameFor(labels, key), values[key])
  }

  lemma OmittedComeAfter(
    keys: seq<string>, values: map<string, Totals>, labels: map<string, string>, entries: seq<Entry>)
    requires Ordered(keys, values) && |entries| <= |keys|
    requires forall x :: x in keys <==> x in values
    requires forall i :: 0 <= i < |entries| ==> keys[i] in keys && entries[i] == EntryFor(keys[i], values, labels)
    ensures forall key, i :: key in values && 0 <= i < |entries| && NotListed(key, entries) ==>
      Before(entries[i].id, entries[i].totals, key, values[key])
  {
    hide Before;
    forall key, i | key in values && 0 <= i < |entries| && NotListed(key, entries)
      ensures Before(entries[i].id, entries[i].totals, key, values[key])
    {
      var j :| 0 <= j < |keys| && keys[j] == key;
      assert entries[i].id == keys[i];
    }
  }

  method Rank(values: map<string, Totals>, labels: map<string, string>, limit: nat) returns (entries: seq<Entry>)
    ensures IsTop(entries, values, labels, limit)
  {
    hide Before;
    var left := values.Keys;
    var keys: seq<string> := [];
    while left != {}
      invariant left <= values.Keys && Ordered(keys, values)
      invariant forall x :: x in keys <==> x in values && x !in left
      invariant |keys| + |left| == |values|
      decreases |left|
    {
      var key :| key in left;
      keys := InsertKey(keys, key, values);
      left := left - {key};
    }
    var top := Min(limit, |keys|);
    entries := seq(top, i requires 0 <= i < |keys| && Ordered(keys, values) && keys[i] in keys =>
      EntryFor(keys[i], values, labels));
    OmittedComeAfter(keys, values, labels, entries);
  }

  // ----- building a report

  /** Adds a row's totals to each of its entries in one table. */
  function Bump(values: map<string, Totals>, keys: set<string>, t: Totals): map<string, Totals> {
    values + map key | key in keys :: (if key in values then values[key] else ZERO).Plus(t)
  }

  /** A table of one kind after the rows so far: an entry for every key some row has, holding those rows' sum. */
  ghost predicate Accumulated(
    values: map<string, Totals>, rows: seq<RowKey>, table: AggregateTable, ctx: Context, kind: Kind)
  {
    && (forall key :: key in values <==> exists k :: k in rows && key in KeysOf(ctx, kind, k.dims))
    && (forall key :: key in values ==> values[key] == RowSum(rows, table, ctx, Hits(kind, key)))
  }

  lemma {:induction false} NoHitNoSum(rows: seq<RowKey>, table: AggregateTable, ctx: Context, c: Criterion)
    requires forall k :: k in rows ==> !Meets(ctx, c, k)
    ensures RowSum(rows, table, ctx, c) == ZERO
  {
    if rows != [] {
      var n := |rows| - 1;
      assert rows[n] in rows && forall k :: k in rows[..n] ==> k in rows;
      NoHitNoSum(rows[..n], table, ctx, c);
    }
  }

  lemma AccumulatedNext(
    values: map<string, Totals>, rows: seq<RowKey>, i: nat, table: AggregateTable, ctx: Context, kind: Kind)
    requires i < |rows| && rows[i] in table
    requires Accumulated(values, rows[..i], table, ctx, kind)
    ensures Accumulated(Bump(values, KeysOf(ctx, kind, rows[i].dims), table[rows[i]]), rows[..i + 1], table, ctx, kind)
  {
    hide KeysOf, RowSum;
    var after := Bump(values, KeysOf(ctx, kind, rows[i].dims), table[rows[i]]);
    assert rows[..i + 1] == rows[..i] + [rows[i]];
    forall key ensures key in after <==> exists k :: k in rows[..i + 1] && key in KeysOf(ctx, kind, k.dims) {
      assert rows[i] in rows[..i + 1];
      assert forall k :: k in rows[..i] ==> k in rows[..i + 1];
    }
    forall key | key in after ensures after[key] == RowSum(rows[..i + 1], table, ctx, Hits(kind, key)) {
      RowSumNext(rows, i, table, ctx, Hits(kind, key));
      if key !in values {
        NoHitNoSum(rows[..i], table, ctx, Hits(kind, key));
      }
    }
  }

  /** The points of a series are the buckets from `lo` until `hi`, in order, none missing. */
  ghost predicate Contiguous(series: seq<(int, Totals)>, g: Granularity, lo: int, hi: int) {
    if series == [] then lo == hi
    else
      var n := |series| - 1;
      series[n].0 + Step(g) == hi && Contiguous(series[..n], g, lo, series[n].0)
  }

  /** The filled series: one point for each bucket from `at` until `end`, zero where there is no row. */
  ghost predicate Filled(
    series: seq<(int, Totals)>, rows: seq<RowKey>, table: AggregateTable, ctx: Context,
    g: Granularity, lo: int, hi: int)
  {
    && (if hi <= lo then series == [] else Contiguous(series, g, lo, hi))
    && (forall i :: 0 <= i < |series| ==> series[i].1 == RowSum(rows, table, ctx, InBucket(series[i].0)))
  }

  method FillSeries(buckets: map<int, Totals>, g: Granularity, lo: int, hi: int) returns (series: seq<(int, Totals)>)
    requires Aligned(lo, g) && Aligned(hi, g)
    ensures if hi <= lo then series == [] else Contiguous(series, g, lo, hi)
    ensures forall i :: 0 <= i < |series| ==>
      series[i].1 == if series[i].0 in buckets then buckets[series[i].0] else ZERO
  {
    series := [];
    var bucket := lo;
    while bucket < hi
      invariant Aligned(bucket, g) && lo <= bucket && (bucket <= hi || series == []) && (hi <= lo ==> series == [])
      invariant Contiguous(series, g, lo, bucket)
      invariant forall i :: 0 <= i < |series| ==>
        series[i].1 == if series[i].0 in buckets then buckets[series[i].0] else ZERO
      decreases hi - bucket
    {
      AlignedApart(bucket, hi, g);
      AlignedNext(bucket, g);
      ghost var before := series;
      series := series + [(bucket, if bucket in buckets then buckets[bucket] else ZERO)];
      assert series[..|series| - 1] == before;
      bucket := bucket + Step(g);
    }
  }

  /** Per-bucket sums of the rows so far; a bucket without an entry has none. */
  ghost predicate Bucketed(buckets: map<int, Totals>, rows: seq<RowKey>, table: AggregateTable, ctx: Context) {
    forall b :: (if b in buckets then buckets[b] else ZERO) == RowSum(rows, table, ctx, InBucket(b))
  }

  lemma BucketedNext(buckets: map<int, Totals>, rows: seq<RowKey>, i: nat, table: AggregateTable, ctx: Context)
    requires i < |rows| && rows[i] in table && Bucketed(buckets, rows[..i], table, ctx)
    ensures var at := rows[i].bucket;
            var sum := (if at in buckets then buckets[at] else ZERO).Plus(table[rows[i]]);
            Bucketed(buckets[at := sum], rows[..i + 1], table, ctx)
  {
    forall b
      ensures RowSum(rows[..i + 1], table, ctx, InBucket(b))
              == if b == rows[i].bucket then RowSum(rows[..i], table, ctx, InBucket(b)).Plus(table[rows[i]])
                 else RowSum(rows[..i], table, ctx, InBucket(b))
    {
      RowSumNext(rows, i, table, ctx, InBucket(b));
    }
  }

  function NamesFor(kind: Kind, ctx: Context, serviceNames: map<string, string>): map<string, string> {
    match kind
    case Devices => ctx.labels
    case Services => serviceNames
    case _ => map[]
  }

  /** Everything a report says, in terms of the rows it was computed from. */
  ghost predicate ReportOf(
    report: Report, rows: seq<RowKey>, table: AggregateTable, start: int, end: int, ctx: Context,
    serviceNames: map<string, string>, limit: nat)
  {
    && report.granularity == (if end - start > 7_776_000_000_000 then Daily else Hourly)
    && Selection(rows, table, report.granularity, FloorBucket(start, report.granularity), end, ctx)
    && report.totals == RowSum(rows, table, ctx, Everything)
    && Filled(report.series, rows, table, ctx, report.granularity,
              FloorBucket(start, report.granularity), FloorBucket(end, report.granularity))
    && report.rankings.Keys == KINDS
    && (forall kind :: kind in report.rankings ==> exists values ::
          && Accumulated(values, rows, table, ctx, kind)
          && IsTop(report.rankings[kind], values, NamesFor(kind, ctx, serviceNames), limit))
  }

  method SelectRows(table: AggregateTable, g: Granularity, lo: int, hi: int, ctx: Context) returns (rows: seq<RowKey>)
    ensures Selection(rows, table, g, lo, hi, ctx)
  {
    rows := [];
    var left := table.Keys;
    while left != {}
      invariant left <= table.Keys && Distinct(rows)
      invariant forall k :: k in rows <==> k in table && k !in left && InRange(k, g, lo, hi) && Matches(ctx, k.dims)
      decreases |left|
    {
      var k :| k in left;
      if InRange(k, g, lo, hi) && Matches(ctx, k.dims) {
        rows := rows + [k];
      }
      left := left - {k};
    }
  }

  /** The accumulation loop: grand totals, per-bucket totals and one table for each kind. */
  method Accumulate(table: AggregateTable, rows: seq<RowKey>, ctx: Context)
    returns (totals: Totals, buckets: map<int, Totals>, tables: map<Kind, map<string, Totals>>)
    requires forall k :: k in rows ==> k in table
    ensures totals == RowSum(rows, table, ctx, Everything)
    ensures Bucketed(buckets, rows, table, ctx)
    ensures tables.Keys == KINDS
    ensures forall kind :: kind in KINDS ==> Accumulated(tables[kind], rows, table, ctx, kind)
  {
    totals, buckets, tables := ZERO, map[], map kind | kind in KINDS :: map[];
    for i := 0 to |rows|
      invariant totals == RowSum(rows[..i], table, ctx, Everything)
      invariant Bucketed(buckets, rows[..i], table, ctx)
      invariant tables.Keys == KINDS
      invariant forall kind :: kind in KINDS ==> Accumulated(tables[kind], rows[..i], table, ctx, kind)
    {
      var k := rows[i];
      RowSumNext(rows, i, table, ctx, Everything);
      BucketedNext(buckets, rows, i, table, ctx);
      forall kind | kind in KINDS
        ensures Accumulated(Bump(tables[kind], KeysOf(ctx, kind, k.dims), table[k]), rows[..i + 1], table, ctx, kind)
      {
        AccumulatedNext(tables[kind], rows, i, table, ctx, kind);
      }
      totals := totals.Plus(table[k]);
      buckets := buckets[k.bucket := (if k.bucket in buckets then buckets[k.bucket] else ZERO).Plus(table[k])];
      tables := map kind | kind in KINDS :: Bump(tables[kind], KeysOf(ctx, kind, k.dims), table[k]);
    }
    assert rows[..|rows|] == rows;
  }

  method RankTables(
    tables: map<Kind, map<string, Totals>>, ctx: Context, serviceNames: map<string, string>, limit: nat)
    returns (rankings: map<Kind, seq<Entry>>)
    requires tables.Keys == KINDS
    ensures rankings.Keys == KINDS
    ensures forall kind :: kind in KINDS ==>
              IsTop(rankings[kind], tables[kind], NamesFor(kind, ctx, serviceNames), limit)
  {
    hide IsTop;
    rankings := map[];
    var left := KINDS;
    while left != {}
      invariant left <= KINDS && rankings.Keys == KINDS - left
      invariant forall kind :: kind in rankings ==>
        IsTop(rankings[kind], tables[kind], NamesFor(kind, ctx, serviceNames), limit)
      decreases |left|
    {
      var kind :| kind in left;
      var entries := Rank(tables[kind], NamesFor(kind, ctx, serviceNames), limit);
      rankings := rankings[kind := entries];
      left := left - {kind};
    }
  }

  method AggregateReportData(
    table: AggregateTable, start: int, end: int, ctx: Context, serviceNames: map<string, string>, limit: nat)
    returns (report: Report)
    ensures exists rows :: ReportOf(report, rows, table, start, end, ctx, serviceNames, limit)
  {
    var g := if end - start > 7_776_000_000_000 then Daily else Hourly;
    FloorIsGreatestBoundary(start, g);
    FloorIsGreatestBoundary(end, g);
    var rows := SelectRows(table, g, FloorBucket(start, g), end, ctx);
    var totals, buckets, tables := Accumulate(table, rows, ctx);
    var series := FillSeries(buckets, g, FloorBucket(start, g), FloorBucket(end, g));
    var rankings := RankTables(tables, ctx, serviceNames, limit);
    report := Report(g, totals, series, rankings);
    assert ReportOf(report, rows, table, start, end, ctx, serviceNames, limit);
  }
}
