/** The live ranking of devices, a union over raw flows, and why it agrees with the device table of reports. */
module LiveRanking {
  import opened Common
  import opened Buckets
  import opened Flows
  import opened Aggregation
  import opened FlowMeaning
  import opened Ordering
  import opened ReportLaws
  import opened Reports

  // ----- one device

  datatype EndpointRow = EndpointRow(device: string, totals: Totals)

  /** One row for each flow with a known source device. */
  function SourceRows(flows: seq<Flow>): seq<EndpointRow> {
    if flows == [] then []
    else
      var f := flows[|flows| - 1];
      SourceRows(flows[..|flows| - 1])
      + if f.sourceDevice.Some? then [EndpointRow(f.sourceDevice.value, TotalsOf(f))] else []
  }

  /** One row for each flow with a known destination device, unless it is also the source. */
  function DestinationRows(flows: seq<Flow>): seq<EndpointRow> {
    if flows == [] then []
    else
      var f := flows[|flows| - 1];
      DestinationRows(flows[..|flows| - 1])
      + if f.destinationDevice.Some? && (f.sourceDevice.None? || f.destinationDevice.value != f.sourceDevice.value)
        then [EndpointRow(f.destinationDevice.value, TotalsOf(f))] else []
  }

  ghost function DeviceSum(rows: seq<EndpointRow>, device: string): Totals {
    if rows == [] then ZERO
    else
      var n := |rows| - 1;
      var rest := DeviceSum(rows[..n], device);
      if rows[n].device == device then rest.Plus(rows[n].totals) else rest
  }

  lemma {:induction false} DeviceSumAppend(a: seq<EndpointRow>, b: seq<EndpointRow>, device: string)
    ensures DeviceSum(a + b, device) == DeviceSum(a, device).Plus(DeviceSum(b, device))
  {
    if b == [] {
      assert a + b == a;
    } else {
      var whole, n := a + b, |b| - 1;
      DeviceSumAppend(a, b[..n], device);
      assert whole[..|whole| - 1] == a + b[..n] && whole[|whole| - 1] == b[n];
    }
  }

  lemma DeviceSumOne(r: EndpointRow, device: string)
    ensures DeviceSum([r], device) == if r.device == device then r.totals else ZERO
  {
    assert [r][..0] == [];
    assert ZERO.Plus(r.totals) == r.totals;
  }

  lemma NoEndpointRows(device: string)
    ensures DeviceSum([], device) == ZERO
  {
  }

  /** What one flow adds to a device over its source row and its destination row. */
  lemma FlowAddsOnce(f: Flow, d: Dimensions, ctx: Context, device: string)
    requires device != ""
    requires d.sourceDevice == f.sourceDevice.GetOr("") && d.destinationDevice == f.destinationDevice.GetOr("")
    ensures DeviceSum(SourceRows([f]), device).Plus(DeviceSum(DestinationRows([f]), device))
            == if device in KeysOf(ctx, Devices, d) then TotalsOf(f) else ZERO
  {
    hide DeviceSum;
    assert [f][..0] == [];
    DeviceSumOne(EndpointRow(d.sourceDevice, TotalsOf(f)), device);
    DeviceSumOne(EndpointRow(d.destinationDevice, TotalsOf(f)), device);
    NoEndpointRows(device);
    var source := f.sourceDevice.Some? && f.sourceDevice.value == device;
    assert DeviceSum(SourceRows([f]), device) == if source then TotalsOf(f) else ZERO by {
      assert SourceRows([f]) == if f.sourceDevice.Some? then [EndpointRow(d.sourceDevice, TotalsOf(f))] else [];
    }
    var destination := f.destinationDevice.Some? && f.destinationDevice.value == device && !source;
    assert DeviceSum(DestinationRows([f]), device) == if destination then TotalsOf(f) else ZERO by {
      if f.destinationDevice.Some? && (f.sourceDevice.None? || f.destinationDevice.value != f.sourceDevice.value) {
        assert DestinationRows([f]) == [EndpointRow(d.destinationDevice, TotalsOf(f))];
      } else {
        assert DestinationRows([f]) == [];
      }
    }
    assert device in KeysOf(ctx, Devices, d) <==> source || destination;
  }

  lemma EndpointRowsNext(rest: seq<Flow>, f: Flow)
    ensures SourceRows(rest + [f]) == SourceRows(rest) + SourceRows([f])
    ensures DestinationRows(rest + [f]) == DestinationRows(rest) + DestinationRows([f])
  {
    assert (rest + [f])[..|rest|] == rest && [f][..0] == [];
  }

  /**
   * The union of source and destination rows gives a device the sum of the flows that a report counts for it: each
   * flow once, however many of its endpoints the device is.
   */
  lemma {:induction false} DeviceSumsAgree(
    flows: seq<Flow>, g: Granularity, stamp: Stamp, lo: int, hi: int, ctx: Context, device: string)
    requires device != ""
    requires forall f :: f in flows ==> FlowCounts(f, g, stamp, lo, hi, ctx, Everything)
    ensures DeviceSum(SourceRows(flows) + DestinationRows(flows), device)
            == FlowSum(flows, g, stamp, lo, hi, ctx, Hits(Devices, device))
  {
    hide DeviceSum, KeysOf, Matches;
    if flows == [] {
      assert SourceRows(flows) + DestinationRows(flows) == [];
      NoEndpointRows(device);
    } else {
      var n := |flows| - 1;
      var f, rest := flows[n], flows[..n];
      assert flows == rest + [f];
      DeviceSumsAgree(rest, g, stamp, lo, hi, ctx, device);
      EndpointRowsNext(rest, f);
      DeviceSumAppend(SourceRows(rest), DestinationRows(rest), device);
      DeviceSumAppend(SourceRows(rest), SourceRows([f]), device);
      DeviceSumAppend(DestinationRows(rest), DestinationRows([f]), device);
      DeviceSumAppend(SourceRows(flows), DestinationRows(flows), device);
      FlowAddsOnce(f, RowOf(f, g, stamp).dims, ctx, device);
      assert FlowCounts(f, g, stamp, lo, hi, ctx, Everything);
      assert FlowCounts(f, g, stamp, lo, hi, ctx, Hits(Devices, device))
          <==> device in KeysOf(ctx, Devices, RowOf(f, g, stamp).dims);
    }
  }

  // ----- which devices there are

  function DevicesOf(rows: seq<EndpointRow>): set<string> {
    set r | r in rows :: r.device
  }

  /** What the query groups: every device of the union with the sum of its rows. */
  ghost function LiveSums(flows: seq<Flow>): map<string, Totals> {
    var rows := SourceRows(flows) + DestinationRows(flows);
    map device | device in DevicesOf(rows) :: DeviceSum(rows, device)
  }

  predicate Touches(f: Flow, device: string) {
    f.sourceDevice == Some(device) || f.destinationDevice == Some(device)
  }

  lemma {:induction false} SourceDevices(flows: seq<Flow>, device: string)
    ensures device in DevicesOf(SourceRows(flows)) <==> exists f :: f in flows && f.sourceDevice == Some(device)
  {
    if flows != [] {
      var n := |flows| - 1;
      SourceDevices(flows[..n], device);
      assert flows == flows[..n] + [flows[n]];
    }
  }

  lemma {:induction false} DestinationDevices(flows: seq<Flow>, device: string)
    ensures device in DevicesOf(DestinationRows(flows))
            <==> exists f :: f in flows && f.destinationDevice == Some(device) && f.sourceDevice != Some(device)
  {
    if flows != [] {
      var n := |flows| - 1;
      DestinationDevices(flows[..n], device);
      assert flows == flows[..n] + [flows[n]];
    }
  }

  lemma LiveDevices(flows: seq<Flow>, device: string)
    ensures device in LiveSums(flows) <==> exists f :: f in flows && Touches(f, device)
  {
    SourceDevices(flows, device);
    DestinationDevices(flows, device);
    hide SourceRows, DestinationRows, DeviceSum;
    var s, d := SourceRows(flows), DestinationRows(flows);
    assert device in DevicesOf(s + d) <==> device in DevicesOf(s) || device in DevicesOf(d) by {
      assert forall r :: r in s + d <==> r in s || r in d;
    }
  }

  // ----- the report's table

  /** Devices have names. */
  predicate NamedDevices(flows: seq<Flow>) {
    forall f :: f in flows ==> f.sourceDevice != Some("") && f.destinationDevice != Some("")
  }

  lemma Nameless(flows: seq<Flow>)
    requires NamedDevices(flows)
    ensures forall f :: f in flows ==> !Touches(f, "")
  {
  }

  lemma RowDevices(f: Flow, g: Granularity, stamp: Stamp, ctx: Context, device: string)
    requires f.sourceDevice != Some("") && f.destinationDevice != Some("")
    ensures device in KeysOf(ctx, Devices, RowOf(f, g, stamp).dims) <==> Touches(f, device)
  {
  }

  lemma ReportDevices(
    rows: seq<RowKey>, table: AggregateTable, flows: seq<Flow>, g: Granularity, lo: int, end: int, stamp: Stamp,
    ctx: Context, values: map<string, Totals>, device: string)
    requires Aligned(lo, g) && NamedDevices(flows)
    requires Selection(rows, table, g, lo, end, ctx) && ExactRange(table, flows, g, lo, end, stamp)
    requires forall f :: f in flows ==> FlowCounts(f, g, stamp, lo, CeilBucket(end, g), ctx, Everything)
    requires Accumulated(values, rows, table, ctx, Devices)
    ensures device in values <==> exists f :: f in flows && Touches(f, device)
  {
    hide Selection, ExactRange, RowOf, Matches, Touches, KeysOf, RowSum;
    if device in values {
      var k :| k in rows && device in KeysOf(ctx, Devices, k.dims);
      var f := RowHasFlow(rows, table, flows, g, lo, end, stamp, ctx, k);
      RowDevices(f, g, stamp, ctx, device);
    }
    if f :| f in flows && Touches(f, device) {
      FlowInSelection(f, rows, table, flows, g, lo, end, stamp, ctx, Everything);
      RowDevices(f, g, stamp, ctx, device);
      assert RowOf(f, g, stamp) in rows;
    }
  }

  /** Over the same flows the report's device table and what the live query groups are the same. */
  lemma TablesAgree(
    rows: seq<RowKey>, table: AggregateTable, flows: seq<Flow>, g: Granularity, lo: int, end: int, stamp: Stamp,
    ctx: Context, values: map<string, Totals>)
    requires Aligned(lo, g) && NamedDevices(flows)
    requires Selection(rows, table, g, lo, end, ctx) && ExactRange(table, flows, g, lo, end, stamp)
    requires forall f :: f in flows ==> FlowCounts(f, g, stamp, lo, CeilBucket(end, g), ctx, Everything)
    requires Accumulated(values, rows, table, ctx, Devices)
    ensures values == LiveSums(flows)
  {
    hide Selection, ExactRange, FlowCounts, RowSum, DeviceSum, Touches;
    forall device ensures device in values <==> device in LiveSums(flows) {
      LiveDevices(flows, device);
      ReportDevices(rows, table, flows, g, lo, end, stamp, ctx, values, device);
    }
    forall device | device in values ensures values[device] == LiveSums(flows)[device] {
      ReportDevices(rows, table, flows, g, lo, end, stamp, ctx, values, device);
      Nameless(flows);
      ReportSumsFlows(rows, table, flows, g, lo, end, stamp, ctx, Hits(Devices, device));
      DeviceSumsAgree(flows, g, stamp, lo, CeilBucket(end, g), ctx, device);
    }
  }

  // ----- by the columns of flows

  lemma OneFlowTouches(f: Flow, device: string)
    requires device != "" && f.sourceDevice != Some("") && f.destinationDevice != Some("")
    ensures DeviceSum(SourceRows([f]), device).Plus(DeviceSum(DestinationRows([f]), device))
            == if Touches(f, device) then TotalsOf(f) else ZERO
  {
    var ctx := Context(Filters("", None, None, "", "", ""), map[], s => s);
    var stamp: Stamp := at => map[];
    RowDevices(f, Hourly, stamp, ctx, device);
    var d := RowOf(f, Hourly, stamp).dims;
    assert d.sourceDevice == f.sourceDevice.GetOr("") && d.destinationDevice == f.destinationDevice.GetOr("");
    hide RowOf, DeviceSum, SourceRows, DestinationRows, KeysOf, Touches;
    FlowAddsOnce(f, d, ctx, device);
  }

  lemma DeviceSumNext(flows: seq<Flow>, f: Flow, device: string)
    requires device != "" && f.sourceDevice != Some("") && f.destinationDevice != Some("")
    ensures var before := DeviceSum(SourceRows(flows) + DestinationRows(flows), device);
            DeviceSum(SourceRows(flows + [f]) + DestinationRows(flows + [f]), device)
            == if Touches(f, device) then before.Plus(TotalsOf(f)) else before
  {
    hide DeviceSum, SourceRows, DestinationRows, Touches, TotalsOf;
    OneFlowTouches(f, device);
    EndpointRowsNext(flows, f);
    DeviceSumAppend(SourceRows(flows), DestinationRows(flows), device);
    DeviceSumAppend(SourceRows(flows), SourceRows([f]), device);
    DeviceSumAppend(DestinationRows(flows), DestinationRows([f]), device);
    DeviceSumAppend(SourceRows(flows + [f]), DestinationRows(flows + [f]), device);
  }

  lemma {:induction false} DeviceAddsUp(flows: seq<Flow>, device: string)
    requires device != "" && NamedDevices(flows)
    ensures AddsUp(DeviceSum(SourceRows(flows) + DestinationRows(flows), device), flows, f => Touches(f, device))
    decreases |flows|
  {
    if flows == [] {
      assert SourceRows(flows) + DestinationRows(flows) == [];
    } else {
      var n := |flows| - 1;
      assert flows == flows[..n] + [flows[n]];
      DeviceAddsUp(flows[..n], device);
      hide DeviceSum, SourceRows, DestinationRows, Touches, AddsUp;
      DeviceSumNext(flows[..n], flows[n], device);
      AddsUpNext(DeviceSum(SourceRows(flows[..n]) + DestinationRows(flows[..n]), device), flows[..n], flows[n],
                 f => Touches(f, device));
    }
  }

  /** The live query lists exactly the devices that some flow comes from or goes to, each with what these flows add. */
  lemma LiveSumsAre(flows: seq<Flow>, device: string)
    requires NamedDevices(flows)
    ensures device in LiveSums(flows) <==> exists f :: f in flows && Touches(f, device)
    ensures device in LiveSums(flows) ==> AddsUp(LiveSums(flows)[device], flows, f => Touches(f, device))
  {
    LiveDevices(flows, device);
    Nameless(flows);
    hide DeviceSum, SourceRows, DestinationRows, Touches, AddsUp;
    if device in LiveSums(flows) {
      DeviceAddsUp(flows, device);
    }
  }

  // ----- one ranking, whoever makes it

  lemma BeforeIsStrict(a: string, at: Totals, b: string, bt: Totals)
    requires Before(a, at, b, bt)
    ensures !Before(b, bt, a, at)
  {
    if Less(a, b) && Less(b, a) {
      LessTransitive(a, b, a);
    }
    LessIrreflexive(a);
  }

  /** What is at a place of one ranking does not come later, or not at all, in another that agrees before it. */
  lemma ComesAt(
    a: seq<Entry>, b: seq<Entry>, values: map<string, Totals>, aNames: map<string, string>,
    bNames: map<string, string>, m: nat, n: nat, i: nat)
    requires IsTop(a, values, aNames, m) && IsTop(b, values, bNames, n) && i < |a| && i < |b|
    requires forall j :: 0 <= j < i ==> a[j].id == b[j].id
    requires a[i].id != b[i].id
    ensures Before(b[i].id, values[b[i].id], a[i].id, values[a[i].id])
  {
    hide Before, NameFor;
    if !NotListed(a[i].id, b) {
      var j :| 0 <= j < |b| && b[j].id == a[i].id;
      if j < i {
        BeforeIsStrict(a[j].id, a[j].totals, a[i].id, a[i].totals);
      }
    }
  }

  /** Two rankings of the same sums list the same keys with the same sums, as far as both go. */
  lemma {:induction false} RankingIsUnique(
    a: seq<Entry>, b: seq<Entry>, values: map<string, Totals>, aNames: map<string, string>,
    bNames: map<string, string>, m: nat, n: nat, i: nat)
    requires IsTop(a, values, aNames, m) && IsTop(b, values, bNames, n) && i < |a| && i < |b|
    ensures a[i].id == b[i].id && a[i].totals == b[i].totals
  {
    forall j | 0 <= j < i ensures a[j].id == b[j].id {
      RankingIsUnique(a, b, values, aNames, bNames, m, n, j);
    }
    if a[i].id != b[i].id {
      hide IsTop, Before;
      ComesAt(a, b, values, aNames, bNames, m, n, i);
      ComesAt(b, a, values, bNames, aNames, n, m, i);
      BeforeIsStrict(a[i].id, values[a[i].id], b[i].id, values[b[i].id]);
    }
  }

  /**
   * Over the same flows the live ranking and the device table of a report list the same devices with the same sums
   * in the same order, as far as their limits go.
   */
  lemma LiveRankingAgreesWithReport(
    live: seq<Entry>, limit: nat, report: seq<Entry>, names: map<string, string>, reportLimit: nat,
    rows: seq<RowKey>, table: AggregateTable, flows: seq<Flow>, g: Granularity, lo: int, end: int, stamp: Stamp,
    ctx: Context, values: map<string, Totals>)
    requires Aligned(lo, g) && NamedDevices(flows)
    requires Selection(rows, table, g, lo, end, ctx) && ExactRange(table, flows, g, lo, end, stamp)
    requires forall f :: f in flows ==> FlowCounts(f, g, stamp, lo, CeilBucket(end, g), ctx, Everything)
    requires Accumulated(values, rows, table, ctx, Devices) && IsTop(report, values, names, reportLimit)
    requires IsTop(live, LiveSums(flows), map[], limit)
    ensures |live| == Min(limit, |values|) && |report| == Min(reportLimit, |values|)
    ensures forall i :: 0 <= i < |live| && i < |report| ==>
              live[i].id == report[i].id && live[i].totals == report[i].totals
  {
    TablesAgree(rows, table, flows, g, lo, end, stamp, ctx, values);
    hide Selection, ExactRange, FlowCounts, Accumulated, LiveSums;
    forall i | 0 <= i < |live| && i < |report|
      ensures live[i].id == report[i].id && live[i].totals == report[i].totals
    {
      hide IsTop;
      RankingIsUnique(live, report, values, map[], names, limit, reportLimit, i);
    }
  }
}
