/** What reports say, by the columns of rows and of flows. */
module ReportMeaning {
  import opened Common
  import opened Buckets
  import opened Flows
  import opened Aggregation
  import opened FlowHistory
  import opened FlowMeaning
  import opened Ordering
  import opened Reports
  import opened ReportLaws
  import opened Texts

  // ----- filters

  /** The text is the term with something, or nothing, before and after it. */
  ghost predicate Holds(text: string, term: string) {
    exists before: string, after: string :: text == before + term + after
  }

  /** The term, if there is one, is part of the device's id, the address or the device's label, in any letter case. */
  ghost predicate Finds(ctx: Context, term: string, device: string, address: string) {
    var name := if device in ctx.labels then ctx.labels[device] else "";
    ctx.fold(term) == "" || Holds(ctx.fold(device + " " + address + " " + name), ctx.fold(term))
  }

  lemma HoldsIff(text: string, term: string)
    ensures Contains(text, term) <==> Holds(text, term)
  {
    if before: string, after: string :| text == before + term + after {
      assert OccursAt(text, term, |before|);
    }
    if i :| 0 <= i <= |text| && OccursAt(text, term, i) {
      assert text == text[..i] + term + text[i + |term|..];
    }
  }

  lemma FindsIff(ctx: Context, term: string, device: string, address: string)
    ensures SideMatches(ctx, term, device, address) <==> Finds(ctx, term, device, address)
  {
    hide Contains, Holds;
    var name := if device in ctx.labels then ctx.labels[device] else "";
    HoldsIff(ctx.fold(device + " " + address + " " + name), ctx.fold(term));
  }

  /**
   * The selected rows are those of the granularity and the range whose own columns pass every filter that is set:
   * category, protocol, either port, whether both ends are known, and each side's search term.
   */
  lemma SelectedIff(rows: seq<RowKey>, table: AggregateTable, g: Granularity, lo: int, hi: int, ctx: Context, k: RowKey)
    requires Selection(rows, table, g, lo, hi, ctx)
    ensures var f := ctx.filters;
            k in rows <==>
              && k in table && k.granularity == g && lo <= k.bucket < hi
              && (f.category == "" || k.dims.category == f.category)
              && (f.protocol.None? || k.dims.protocol == f.protocol.value)
              && (f.port.None? || f.port.value in {k.dims.sourcePort, k.dims.destinationPort})
              && (f.resolution == "resolved" ==> k.dims.resolved)
              && (f.resolution == "unresolved" ==> !k.dims.resolved)
              && Finds(ctx, f.source, k.dims.sourceDevice, k.dims.sourceRaw)
              && Finds(ctx, f.destination, k.dims.destinationDevice, k.dims.destinationRaw)
  {
    FindsIff(ctx, ctx.filters.source, k.dims.sourceDevice, k.dims.sourceRaw);
    FindsIff(ctx, ctx.filters.destination, k.dims.destinationDevice, k.dims.destinationRaw);
    hide SideMatches, Finds;
  }

  predicate Known(device: Option<string>) {
    device.Some? && device.value != ""
  }

  /** A flow whose own columns pass every filter that is set. */
  ghost predicate Passes(f: Flow, ctx: Context) {
    var wanted := ctx.filters;
    && (wanted.category == "" || Coalesces(f.category, "unknown", wanted.category))
    && (wanted.protocol.None? || Coalesces(f.protocol, -1, wanted.protocol.value))
    && (wanted.port.Some? ==>
          Coalesces(f.sourcePort, -1, wanted.port.value) || Coalesces(f.destinationPort, -1, wanted.port.value))
    && (wanted.resolution == "resolved" ==> Known(f.sourceDevice) && Known(f.destinationDevice))
    && (wanted.resolution == "unresolved" ==> !(Known(f.sourceDevice) && Known(f.destinationDevice)))
    && Finds(ctx, wanted.source, f.sourceDevice.GetOr(""), f.source.GetOr(""))
    && Finds(ctx, wanted.destination, f.destinationDevice.GetOr(""), f.destination.GetOr(""))
  }

  lemma PassesIff(f: Flow, g: Granularity, stamp: Stamp, ctx: Context)
    ensures Matches(ctx, RowOf(f, g, stamp).dims) <==> Passes(f, ctx)
  {
    FindsIff(ctx, ctx.filters.source, f.sourceDevice.GetOr(""), f.source.GetOr(""));
    FindsIff(ctx, ctx.filters.destination, f.destinationDevice.GetOr(""), f.destination.GetOr(""));
    hide SideMatches, Finds;
  }

  // ----- what a flow adds to

  /** How one end of a flow is called: by its device's label or id, else by its address. */
  function EndName(ctx: Context, device: Option<string>, address: Option<string>): string {
    if Known(device) then if device.value in ctx.labels then ctx.labels[device.value] else device.value
    else if Known(address) then address.value
    else "unresolved"
  }

  function NumberName(n: Option<int>): string {
    if n.Some? && n.value >= 0 then Decimal(n.value) else "not reported"
  }

  predicate IsService(key: string, device: Option<string>, address: Option<string>, services: ServiceMap) {
    key != "" && !Known(device) && address.Some? && address.value in services && services[address.value] == key
  }

  /** The flow counts for an entry of a table. */
  predicate AddsTo(f: Flow, kind: Kind, key: string, ctx: Context, services: ServiceMap) {
    match kind
    case Devices => key != "" && (f.sourceDevice == Some(key) || f.destinationDevice == Some(key))
    case Pairs =>
      key == EndName(ctx, f.sourceDevice, f.source) + " \U{2192} " + EndName(ctx, f.destinationDevice, f.destination)
    case Services =>
      IsService(key, f.sourceDevice, f.source, services) || IsService(key, f.destinationDevice, f.destination, services)
    case Categories => Coalesces(f.category, "unknown", key)
    case Protocols => key == NumberName(f.protocol)
    case Ports => key == NumberName(f.destinationPort)
    case Resolutions =>
      key == if Known(f.sourceDevice) && Known(f.destinationDevice) then "resolved" else "unresolved"
  }

  lemma AddsToIff(f: Flow, kind: Kind, key: string, g: Granularity, stamp: Stamp, ctx: Context)
    ensures key in KeysOf(ctx, kind, RowOf(f, g, stamp).dims)
            <==> AddsTo(f, kind, key, ctx, stamp(FloorBucket(f.start, g)))
  {
    hide FloorBucket, Decimal;
  }

  // ----- sums over flows

  lemma NothingAddsUp(counts: Flow -> bool)
    ensures AddsUp(ZERO, [], counts)
  {
  }

  lemma {:induction false} FlowSumAddsUp(
    flows: seq<Flow>, g: Granularity, stamp: Stamp, lo: int, hi: int, ctx: Context, c: Criterion, counts: Flow -> bool)
    requires forall f :: counts(f) <==> FlowCounts(f, g, stamp, lo, hi, ctx, c)
    ensures AddsUp(FlowSum(flows, g, stamp, lo, hi, ctx, c), flows, counts)
    decreases |flows|
  {
    hide FlowCounts, AddsUp;
    if flows == [] {
      NothingAddsUp(counts);
    } else {
      var n := |flows| - 1;
      FlowSumAddsUp(flows[..n], g, stamp, lo, hi, ctx, c, counts);
      AddsUpNext(FlowSum(flows[..n], g, stamp, lo, hi, ctx, c), flows[..n], flows[n], counts);
      assert flows == flows[..n] + [flows[n]];
    }
  }

  /** The flows from the hour or day of the report's start to the last one that begins before its end. */
  ghost function Counted(start: int, end: int, g: Granularity, ctx: Context): Flow -> bool {
    (f: Flow) => FloorBucket(start, g) <= f.start < CeilBucket(end, g) && Passes(f, ctx)
  }

  /** Those among them that count for an entry, each under the services known when its hour or day was last rebuilt. */
  ghost function CountedFor(
    start: int, end: int, g: Granularity, ctx: Context, kind: Kind, key: string, passes: seq<Pass>): Flow -> bool
  {
    (f: Flow) =>
      && Counted(start, end, g, ctx)(f)
      && AddsTo(f, kind, key, ctx, StampOf(passes, g, FloorBucket(f.start, g)))
  }

  lemma CountedIff(f: Flow, start: int, end: int, g: Granularity, ctx: Context, passes: seq<Pass>)
    ensures Counted(start, end, g, ctx)(f)
            <==> FlowCounts(f, g, StampsOf(passes, g), FloorBucket(start, g), CeilBucket(end, g), ctx, Everything)
  {
    PassesIff(f, g, StampsOf(passes, g), ctx);
    hide Matches, Passes, RowOf, FloorBucket, StampOf, CeilBucket;
  }

  lemma CountedForIff(
    f: Flow, start: int, end: int, g: Granularity, ctx: Context, kind: Kind, key: string, passes: seq<Pass>)
    ensures CountedFor(start, end, g, ctx, kind, key, passes)(f)
            <==> FlowCounts(f, g, StampsOf(passes, g), FloorBucket(start, g), CeilBucket(end, g), ctx, Hits(kind, key))
  {
    CountedIff(f, start, end, g, ctx, passes);
    AddsToIff(f, kind, key, g, StampsOf(passes, g), ctx);
    hide Matches, Counted, KeysOf, AddsTo, RowOf, FloorBucket, StampOf, CeilBucket;
    assert StampsOf(passes, g)(FloorBucket(f.start, g)) == StampOf(passes, g, FloorBucket(f.start, g));
  }

  /** Those of them in one hour or day. */
  ghost function CountedIn(start: int, end: int, g: Granularity, ctx: Context, bucket: int): Flow -> bool {
    (f: Flow) => Counted(start, end, g, ctx)(f) && FloorBucket(f.start, g) == bucket
  }

  lemma CountedInIff(f: Flow, start: int, end: int, g: Granularity, ctx: Context, bucket: int, passes: seq<Pass>)
    ensures CountedIn(start, end, g, ctx, bucket)(f)
            <==> FlowCounts(f, g, StampsOf(passes, g), FloorBucket(start, g), CeilBucket(end, g), ctx, InBucket(bucket))
  {
    CountedIff(f, start, end, g, ctx, passes);
    hide Matches, Counted, FloorBucket, StampOf, CeilBucket, DimensionsOf;
  }

  // ----- rankings

  /** More bytes, or as many and the text that comes first. */
  ghost predicate Ranks(a: string, aBytes: int, b: string, bBytes: int) {
    aBytes > bBytes || (aBytes == bBytes && exists i: nat :: DecidedAt(a, b, i))
  }

  lemma RanksIff(a: string, at: Totals, b: string, bt: Totals)
    ensures Before(a, at, b, bt) <==> Ranks(a, at.bytes, b, bt.bytes)
  {
    LessIff(a, b);
    hide Less;
  }

  /**
   * A ranked table lists as many keys as it may, those with more bytes first and among equals those whose text comes
   * first, each under its name; no key that is left out has more bytes than one that is listed, or as many and the
   * earlier text.
   */
  lemma RankingMeans(entries: seq<Entry>, values: map<string, Totals>, names: map<string, string>, limit: nat)
    requires IsTop(entries, values, names, limit)
    ensures |entries| == if |values| < limit then |values| else limit
    ensures forall i :: 0 <= i < |entries| ==>
              && entries[i].id in values && entries[i].totals == values[entries[i].id]
              && entries[i].name == (if entries[i].id in names then names[entries[i].id]
                                     else if entries[i].id == "" then "Unresolved" else entries[i].id)
    ensures forall i, j :: 0 <= i < j < |entries| ==>
              Ranks(entries[i].id, entries[i].totals.bytes, entries[j].id, entries[j].totals.bytes)
    ensures forall key, i :: key in values && 0 <= i < |entries| && NotListed(key, entries) ==>
              Ranks(entries[i].id, entries[i].totals.bytes, key, values[key].bytes)
  {
    hide Before, Ranks;
    forall i, j | 0 <= i < j < |entries|
      ensures Ranks(entries[i].id, entries[i].totals.bytes, entries[j].id, entries[j].totals.bytes)
    {
      RanksIff(entries[i].id, entries[i].totals, entries[j].id, entries[j].totals);
    }
    forall key, i | key in values && 0 <= i < |entries| && NotListed(key, entries)
      ensures Ranks(entries[i].id, entries[i].totals.bytes, key, values[key].bytes)
    {
      RanksIff(entries[i].id, entries[i].totals, key, values[key]);
    }
  }

  // ----- tables

  /** What a table calls a key: by the names of devices or services, if it is about these. */
  function EntryName(kind: Kind, key: string, ctx: Context, serviceNames: map<string, string>): string {
    if kind == Devices && key in ctx.labels then ctx.labels[key]
    else if kind == Services && key in serviceNames then serviceNames[key]
    else if key == "" then "Unresolved" else key
  }

  ghost function Bytes(flows: seq<Flow>, chosen: Flow -> bool): int {
    SumWhere(flows, chosen, (f: Flow) => f.txBytes) + SumWhere(flows, chosen, (f: Flow) => f.rxBytes)
  }

  /**
   * A table of the flows that count for each key: an entry is named, some flow counts for it, and it holds their sum;
   * more bytes come first, and equal bytes by text; a key that some flow counts for is left out only if the table is
   * full and every entry comes before it.
   */
  ghost predicate TableOf(
    entries: seq<Entry>, flows: seq<Flow>, counts: string -> Flow -> bool, name: string -> string, limit: nat)
  {
    && |entries| <= limit
    && (forall i :: 0 <= i < |entries| ==>
          && entries[i].name == name(entries[i].id)
          && (exists f :: f in flows && counts(entries[i].id)(f))
          && AddsUp(entries[i].totals, flows, counts(entries[i].id)))
    && (forall i, j :: 0 <= i < j < |entries| ==>
          Ranks(entries[i].id, entries[i].totals.bytes, entries[j].id, entries[j].totals.bytes))
    && (forall key, f :: f in flows && counts(key)(f) && NotListed(key, entries) ==>
          && |entries| == limit
          && forall i :: 0 <= i < |entries| ==>
               Ranks(entries[i].id, entries[i].totals.bytes, key, Bytes(flows, counts(key))))
  }

  /** A table holds exactly the keys that some flow counts for, each with the sum of these flows. */
  lemma TableHolds(
    rows: seq<RowKey>, table: AggregateTable, flows: seq<Flow>, g: Granularity, lo: int, end: int, stamp: Stamp,
    ctx: Context, kind: Kind, values: map<string, Totals>, key: string)
    requires Aligned(lo, g) && Selection(rows, table, g, lo, end, ctx)
    requires ExactRange(table, flows, g, lo, end, stamp) && Accumulated(values, rows, table, ctx, kind)
    ensures key in values <==>
            exists f :: f in flows && FlowCounts(f, g, stamp, lo, CeilBucket(end, g), ctx, Hits(kind, key))
    ensures key in values ==>
              values[key] == FlowSum(flows, g, stamp, lo, CeilBucket(end, g), ctx, Hits(kind, key))
  {
    var c, hi := Hits(kind, key), CeilBucket(end, g);
    hide Selection, ExactRange, RowOf, FlowCounts, KeysOf, RowSum, CeilBucket;
    if key in values {
      ReportSumsFlows(rows, table, flows, g, lo, end, stamp, ctx, c);
      var k :| k in rows && key in KeysOf(ctx, kind, k.dims);
      var f := RowHasFlow(rows, table, flows, g, lo, end, stamp, ctx, k);
      FlowInSelection(f, rows, table, flows, g, lo, end, stamp, ctx, c);
    }
    if f :| f in flows && FlowCounts(f, g, stamp, lo, hi, ctx, c) {
      FlowInSelection(f, rows, table, flows, g, lo, end, stamp, ctx, c);
      assert RowOf(f, g, stamp) in rows;
    }
  }

  lemma AllListed(entries: seq<Entry>, values: map<string, Totals>, names: map<string, string>, limit: nat, key: string)
    requires IsTop(entries, values, names, limit) && key in values && NotListed(key, entries)
    ensures |entries| == limit
  {
    if |entries| < limit {
      assert |entries| == |values|;
      TopIsDistinct(entries, values, names, limit);
      UntruncatedListsAll(entries, values, names, limit);
    }
  }

  lemma NameIs(kind: Kind, key: string, ctx: Context, serviceNames: map<string, string>)
    ensures NameFor(NamesFor(kind, ctx, serviceNames), key) == EntryName(kind, key, ctx, serviceNames)
  {
  }

  lemma TopIsTable(
    entries: seq<Entry>, values: map<string, Totals>, flows: seq<Flow>, counts: string -> Flow -> bool, kind: Kind,
    ctx: Context, serviceNames: map<string, string>, limit: nat)
    requires IsTop(entries, values, NamesFor(kind, ctx, serviceNames), limit)
    requires forall key :: key in values <==> exists f :: f in flows && counts(key)(f)
    requires forall key :: key in values ==> AddsUp(values[key], flows, counts(key))
    ensures TableOf(entries, flows, counts, key => EntryName(kind, key, ctx, serviceNames), limit)
  {
    var names := NamesFor(kind, ctx, serviceNames);
    hide Ranks, Before, NamesFor, EntryName;
    RankingMeans(entries, values, names, limit);
    forall i | 0 <= i < |entries| ensures entries[i].name == EntryName(kind, entries[i].id, ctx, serviceNames) {
      NameIs(kind, entries[i].id, ctx, serviceNames);
    }
    forall key, f | f in flows && counts(key)(f) && NotListed(key, entries)
      ensures |entries| == limit
      ensures forall i :: 0 <= i < |entries| ==>
                Ranks(entries[i].id, entries[i].totals.bytes, key, Bytes(flows, counts(key)))
    {
      AllListed(entries, values, names, limit, key);
      assert values[key].bytes == Bytes(flows, counts(key));
    }
  }

  // ----- series

  /** The hours or days from `lo` until `hi`, in order. */
  predicate Covers(series: seq<(int, Totals)>, g: Granularity, lo: int, hi: int) {
    && |series| * Step(g) == Max(0, hi - lo)
    && forall i :: 0 <= i < |series| ==> series[i].0 == lo + i * Step(g)
  }

  lemma {:induction false} ContiguousCovers(series: seq<(int, Totals)>, g: Granularity, lo: int, hi: int)
    requires Contiguous(series, g, lo, hi)
    ensures hi == lo + |series| * Step(g) && forall i :: 0 <= i < |series| ==> series[i].0 == lo + i * Step(g)
    decreases |series|
  {
    if series != [] {
      var n := |series| - 1;
      ContiguousCovers(series[..n], g, lo, series[n].0);
    }
  }

  // ----- reports

  /** The flows that count for each key of a table. */
  ghost function CountsFor(
    start: int, end: int, g: Granularity, ctx: Context, kind: Kind, passes: seq<Pass>): string -> Flow -> bool
  {
    (key: string) => CountedFor(start, end, g, ctx, kind, key, passes)
  }

  lemma ValuesAre(
    l: Ledger, rows: seq<RowKey>, g: Granularity, start: int, end: int, ctx: Context, kind: Kind,
    values: map<string, Totals>, key: string)
    requires Inv(l) && l.Kept(g, FloorBucket(start, g))
    requires Selection(rows, l.db.aggregates, g, FloorBucket(start, g), end, ctx)
    requires Accumulated(values, rows, l.db.aggregates, ctx, kind)
    ensures var counts := CountsFor(start, end, g, ctx, kind, l.passes)(key);
            && (key in values <==> exists f :: f in l.Seen() && counts(f))
            && (key in values ==> AddsUp(values[key], l.Seen(), counts))
  {
    var stamp, lo, hi := StampsOf(l.passes, g), FloorBucket(start, g), CeilBucket(end, g);
    LedgerIsExact(l, g, lo, end);
    FloorIsGreatestBoundary(start, g);
    hide Inv, FlowSum, FlowCounts, AddsUp, FloorBucket, CeilBucket, CountedFor, Selection, Accumulated, ExactRange;
    TableHolds(rows, l.db.aggregates, l.Seen(), g, lo, end, stamp, ctx, kind, values, key);
    var counts := CountsFor(start, end, g, ctx, kind, l.passes)(key);
    forall f ensures counts(f) <==> FlowCounts(f, g, stamp, lo, hi, ctx, Hits(kind, key)) {
      CountedForIff(f, start, end, g, ctx, kind, key, l.passes);
    }
    FlowSumAddsUp(l.Seen(), g, stamp, lo, hi, ctx, Hits(kind, key), counts);
  }

  lemma TableMeans(
    l: Ledger, rows: seq<RowKey>, g: Granularity, start: int, end: int, ctx: Context,
    serviceNames: map<string, string>, limit: nat, kind: Kind, entries: seq<Entry>, values: map<string, Totals>)
    requires Inv(l) && l.Kept(g, FloorBucket(start, g))
    requires Selection(rows, l.db.aggregates, g, FloorBucket(start, g), end, ctx)
    requires Accumulated(values, rows, l.db.aggregates, ctx, kind)
    requires IsTop(entries, values, NamesFor(kind, ctx, serviceNames), limit)
    ensures TableOf(entries, l.Seen(), CountsFor(start, end, g, ctx, kind, l.passes),
                    key => EntryName(kind, key, ctx, serviceNames), limit)
  {
    var flows, counts := l.Seen(), CountsFor(start, end, g, ctx, kind, l.passes);
    hide Inv, AddsUp, FloorBucket, Selection, Accumulated, IsTop, CountsFor, TableOf, NamesFor;
    forall key
      ensures key in values <==> exists f :: f in flows && counts(key)(f)
      ensures key in values ==> AddsUp(values[key], flows, counts(key))
    {
      ValuesAre(l, rows, g, start, end, ctx, kind, values, key);
    }
    TopIsTable(entries, values, flows, counts, kind, ctx, serviceNames, limit);
  }

  lemma SumMeans(
    l: Ledger, rows: seq<RowKey>, g: Granularity, start: int, end: int, ctx: Context, c: Criterion,
    counts: Flow -> bool)
    requires Inv(l) && l.Kept(g, FloorBucket(start, g))
    requires Selection(rows, l.db.aggregates, g, FloorBucket(start, g), end, ctx)
    requires forall f :: counts(f)
               <==> FlowCounts(f, g, StampsOf(l.passes, g), FloorBucket(start, g), CeilBucket(end, g), ctx, c)
    ensures AddsUp(RowSum(rows, l.db.aggregates, ctx, c), l.Seen(), counts)
  {
    var stamp, lo, hi := StampsOf(l.passes, g), FloorBucket(start, g), CeilBucket(end, g);
    LedgerIsExact(l, g, lo, end);
    FloorIsGreatestBoundary(start, g);
    hide Inv, FlowSum, FlowCounts, AddsUp, FloorBucket, CeilBucket, Selection, RowSum, ExactRange;
    ReportSumsFlows(rows, l.db.aggregates, l.Seen(), g, lo, end, stamp, ctx, c);
    FlowSumAddsUp(l.Seen(), g, stamp, lo, hi, ctx, c, counts);
  }

  lemma TotalsMean(l: Ledger, rows: seq<RowKey>, g: Granularity, start: int, end: int, ctx: Context)
    requires Inv(l) && l.Kept(g, FloorBucket(start, g))
    requires Selection(rows, l.db.aggregates, g, FloorBucket(start, g), end, ctx)
    ensures AddsUp(RowSum(rows, l.db.aggregates, ctx, Everything), l.Seen(), Counted(start, end, g, ctx))
  {
    hide Inv, FlowCounts, AddsUp, FloorBucket, CeilBucket, Counted, Selection, RowSum;
    forall f { CountedIff(f, start, end, g, ctx, l.passes); }
    SumMeans(l, rows, g, start, end, ctx, Everything, Counted(start, end, g, ctx));
  }

  lemma PointMeans(l: Ledger, rows: seq<RowKey>, g: Granularity, start: int, end: int, ctx: Context, bucket: int)
    requires Inv(l) && l.Kept(g, FloorBucket(start, g))
    requires Selection(rows, l.db.aggregates, g, FloorBucket(start, g), end, ctx)
    ensures AddsUp(RowSum(rows, l.db.aggregates, ctx, InBucket(bucket)), l.Seen(),
                   CountedIn(start, end, g, ctx, bucket))
  {
    hide Inv, FlowCounts, AddsUp, FloorBucket, CeilBucket, CountedIn, Selection, RowSum;
    forall f { CountedInIff(f, start, end, g, ctx, bucket, l.passes); }
    SumMeans(l, rows, g, start, end, ctx, InBucket(bucket), CountedIn(start, end, g, ctx, bucket));
  }

  /** A report over the flows aggregated so far. */
  ghost predicate ReportsOn(
    report: Report, l: Ledger, start: int, end: int, ctx: Context, serviceNames: map<string, string>, limit: nat)
    requires l.aggregated <= |l.history|
  {
    var g, flows := report.granularity, l.history[..l.aggregated];
    && g == (if end - start > 90 * DAY then Daily else Hourly)
    && AddsUp(report.totals, flows, Counted(start, end, g, ctx))
    && report.rankings.Keys == KINDS
    && (forall kind :: kind in report.rankings ==>
          TableOf(report.rankings[kind], flows, CountsFor(start, end, g, ctx, kind, l.passes),
                  key => EntryName(kind, key, ctx, serviceNames), limit))
    && Covers(report.series, g, FloorBucket(start, g), FloorBucket(end, g))
    && forall i :: 0 <= i < |report.series| ==>
         AddsUp(report.series[i].1, flows, CountedIn(start, end, g, ctx, report.series[i].0))
  }

  lemma SeriesCovers(
    report: Report, rows: seq<RowKey>, table: AggregateTable, start: int, end: int, ctx: Context,
    serviceNames: map<string, string>, limit: nat)
    requires ReportOf(report, rows, table, start, end, ctx, serviceNames, limit)
    ensures var g := report.granularity; Covers(report.series, g, FloorBucket(start, g), FloorBucket(end, g))
  {
    var g := report.granularity;
    hide FloorBucket, Selection, Accumulated, IsTop, RowSum;
    if FloorBucket(start, g) < FloorBucket(end, g) {
      ContiguousCovers(report.series, g, FloorBucket(start, g), FloorBucket(end, g));
    }
  }

  lemma ReportLedger(
    l: Ledger, report: Report, rows: seq<RowKey>, start: int, end: int, ctx: Context,
    serviceNames: map<string, string>, limit: nat)
    requires Inv(l) && l.Kept(report.granularity, FloorBucket(start, report.granularity))
    requires l.aggregated <= |l.history|
    requires ReportOf(report, rows, l.db.aggregates, start, end, ctx, serviceNames, limit)
    ensures ReportsOn(report, l, start, end, ctx, serviceNames, limit)
  {
    var g := report.granularity;
    SeriesCovers(report, rows, l.db.aggregates, start, end, ctx, serviceNames, limit);
    hide Inv, AddsUp, FloorBucket, Counted, CountedFor, CountsFor, CountedIn, Covers, Contiguous;
    hide Selection, Accumulated, IsTop, RowSum, TableOf, EntryName;
    TotalsMean(l, rows, g, start, end, ctx);
    forall i | 0 <= i < |report.series|
      ensures AddsUp(report.series[i].1, l.Seen(), CountedIn(start, end, g, ctx, report.series[i].0))
    {
      PointMeans(l, rows, g, start, end, ctx, report.series[i].0);
    }
    forall kind | kind in report.rankings
      ensures TableOf(report.rankings[kind], l.Seen(), CountsFor(start, end, g, ctx, kind, l.passes),
                      key => EntryName(kind, key, ctx, serviceNames), limit)
    {
      var values :| Accumulated(values, rows, l.db.aggregates, ctx, kind)
                    && IsTop(report.rankings[kind], values, NamesFor(kind, ctx, serviceNames), limit);
      TableMeans(l, rows, g, start, end, ctx, serviceNames, limit, kind, report.rankings[kind], values);
    }
  }

  /**
   * After any admissible run, the totals of a report are what exactly the aggregated flows of its range sent and
   * received whose own columns pass its filters; each of its tables is that of the flows among them that count for
   * each key; and its series has a point for each hour or day until that of the end, which is what those in it sent
   * and received.
   */
  lemma ReportMeans(
    clock: int, events: seq<Event>, report: Report, rows: seq<RowKey>, start: int, end: int, ctx: Context,
    serviceNames: map<string, string>, limit: nat)
    requires AdmissibleRun(Initial(clock), events)
    requires ReportOf(report, rows, Run(Initial(clock), events).db.aggregates, start, end, ctx, serviceNames, limit)
    requires Run(Initial(clock), events).Kept(report.granularity, FloorBucket(start, report.granularity))
    ensures var l := Run(Initial(clock), events);
            l.aggregated <= |l.history| && ReportsOn(report, l, start, end, ctx, serviceNames, limit)
  {
    RunInv(clock, events);
    var l := Run(Initial(clock), events);
    assert l.aggregated <= |l.history| && l.Seen() == l.history[..l.aggregated];
    hide Run, AdmissibleRun, Inv;
    ReportLedger(l, report, rows, start, end, ctx, serviceNames, limit);
  }
}
