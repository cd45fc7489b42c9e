/** Raw flow rows, the dimensions they are grouped by, and the totals of a set of them. */
module Flows {
  import opened Common

  /** A row of the raw flow table, reduced to the columns that aggregation and reporting read. */
  datatype Flow = Flow(
    id: int,
    sourceDevice: Option<string>, destinationDevice: Option<string>,
    source: Option<string>, destination: Option<string>,
    category: Option<string>, protocol: Option<int>,
    sourcePort: Option<int>, destinationPort: Option<int>,
    txBytes: int, rxBytes: int, txPackets: int, rxPackets: int,
    start: int)

  /** The columns of an aggregate row that identify it, apart from granularity and bucket. */
  datatype Dimensions = Dimensions(
    sourceDevice: string, destinationDevice: string,
    sourceRaw: string, destinationRaw: string,
    sourceService: string, destinationService: string,
    category: string, protocol: int,
    sourcePort: int, destinationPort: int,
    resolved: bool)

  /** Address of a present service to its id. */
  type ServiceMap = map<string, string>

  function ServiceOf(device: string, address: Option<string>, services: ServiceMap): string {
    if device == "" && address.Some? && address.value in services then services[address.value] else ""
  }

  function DimensionsOf(f: Flow, services: ServiceMap): Dimensions {
    var source := f.sourceDevice.GetOr("");
    var destination := f.destinationDevice.GetOr("");
    Dimensions(
      source, destination, f.source.GetOr(""), f.destination.GetOr(""),
      ServiceOf(source, f.source, services), ServiceOf(destination, f.destination, services),
      f.category.GetOr("unknown"), f.protocol.GetOr(-1),
      f.sourcePort.GetOr(-1), f.destinationPort.GetOr(-1),
      source != "" && destination != "")
  }

  /** The three measures every aggregate and every report carries. */
  datatype Totals = Totals(bytes: int, packets: int, records: int) {
    function Plus(other: Totals): Totals {
      Totals(bytes + other.bytes, packets + other.packets, records + other.records)
    }
  }

  const ZERO := Totals(0, 0, 0)

  lemma PlusRegroups(a: Totals, b: Totals, t: Totals)
    ensures a.Plus(b).Plus(t) == a.Plus(t).Plus(b) == a.Plus(b.Plus(t))
    ensures a.Plus(ZERO) == a
  {
  }

  function TotalsOf(f: Flow): Totals {
    Totals(f.txBytes + f.rxBytes, f.txPackets + f.rxPackets, 1)
  }

  predicate Counts(f: Flow, lo: int, hi: int, services: ServiceMap, d: Dimensions) {
    lo <= f.start < hi && DimensionsOf(f, services) == d
  }

  /** What the flows with `lo <= start < hi` and dimensions `d` add up to. */
  ghost function Tally(flows: seq<Flow>, lo: int, hi: int, services: ServiceMap, d: Dimensions): Totals {
    if flows == [] then ZERO
    else
      var n := |flows| - 1;
      var rest := Tally(flows[..n], lo, hi, services, d);
      if Counts(flows[n], lo, hi, services, d) then rest.Plus(TotalsOf(flows[n])) else rest
  }

  lemma {:induction false} TallyPresence(flows: seq<Flow>, lo: int, hi: int, services: ServiceMap, d: Dimensions)
    ensures Tally(flows, lo, hi, services, d).records >= 0
    ensures Tally(flows, lo, hi, services, d).records > 0
            <==> exists f :: f in flows && Counts(f, lo, hi, services, d)
    ensures Tally(flows, lo, hi, services, d).records == 0 ==> Tally(flows, lo, hi, services, d) == ZERO
  {
    if flows != [] {
      var n := |flows| - 1;
      TallyPresence(flows[..n], lo, hi, services, d);
      assert flows == flows[..n] + [flows[n]];
    }
  }

  lemma {:induction false} TallyOfNothing(flows: seq<Flow>, at: int, services: ServiceMap, d: Dimensions)
    ensures Tally(flows, at, at, services, d) == ZERO
  {
    if flows != [] {
      TallyOfNothing(flows[..|flows| - 1], at, services, d);
    }
  }

  /** Adjacent intervals add up. */
  lemma {:induction false} TallySplit(
    flows: seq<Flow>, lo: int, mid: int, hi: int, services: ServiceMap, d: Dimensions)
    requires lo <= mid <= hi
    ensures Tally(flows, lo, hi, services, d)
            == Tally(flows, lo, mid, services, d).Plus(Tally(flows, mid, hi, services, d))
  {
    if flows != [] {
      TallySplit(flows[..|flows| - 1], lo, mid, hi, services, d);
    }
  }

  lemma {:induction false} TallyAppend(
    a: seq<Flow>, b: seq<Flow>, lo: int, hi: int, services: ServiceMap, d: Dimensions)
    ensures Tally(a + b, lo, hi, services, d)
            == Tally(a, lo, hi, services, d).Plus(Tally(b, lo, hi, services, d))
  {
    if b == [] {
      assert a + b == a;
    } else {
      var n := |b| - 1;
      TallyAppend(a, b[..n], lo, hi, services, d);
      var whole := a + b;
      assert whole[..|whole| - 1] == a + b[..n] && whole[|whole| - 1] == b[n];
      var rest := Tally(a + b[..n], lo, hi, services, d);
      assert Tally(whole, lo, hi, services, d)
          == if Counts(b[n], lo, hi, services, d) then rest.Plus(TotalsOf(b[n])) else rest;
    }
  }

  /** Flows that start at `floor` or later. */
  function StartingFrom(flows: seq<Flow>, floor: int): seq<Flow> {
    if flows == [] then []
    else
      var n := |flows| - 1;
      StartingFrom(flows[..n], floor) + if flows[n].start < floor then [] else [flows[n]]
  }

  lemma {:induction false} StartingFromMember(flows: seq<Flow>, floor: int)
    ensures forall f :: f in StartingFrom(flows, floor) <==> f in flows && f.start >= floor
  {
    if flows != [] {
      var n := |flows| - 1;
      StartingFromMember(flows[..n], floor);
      assert flows == flows[..n] + [flows[n]];
    }
  }

  lemma {:induction false} StartingFromAppend(a: seq<Flow>, b: seq<Flow>, floor: int)
    ensures StartingFrom(a + b, floor) == StartingFrom(a, floor) + StartingFrom(b, floor)
  {
    if b == [] {
      assert a + b == a;
    } else {
      var n := |b| - 1;
      StartingFromAppend(a, b[..n], floor);
      assert (a + b)[..|a + b| - 1] == a + b[..n];
    }
  }

  lemma {:induction false} StartingFromAll(flows: seq<Flow>, floor: int)
    requires forall f :: f in flows ==> f.start >= floor
    ensures StartingFrom(flows, floor) == flows
  {
    if flows != [] {
      var n := |flows| - 1;
      assert flows == flows[..n] + [flows[n]];
      forall f | f in flows[..n] ensures f.start >= floor {
        assert f in flows;
      }
      StartingFromAll(flows[..n], floor);
    }
  }

  lemma {:induction false} StartingFromTwice(flows: seq<Flow>, floor: int, later: int)
    ensures StartingFrom(StartingFrom(flows, floor), later) == StartingFrom(flows, Max(floor, later))
  {
    if flows != [] {
      var n := |flows| - 1;
      StartingFromTwice(flows[..n], floor, later);
      StartingFromAppend(StartingFrom(flows[..n], floor),
                         if flows[n].start < floor then [] else [flows[n]], later);
    }
  }

  /** Dropping flows that start before the interval does not change its tally. */
  lemma {:induction false} TallyStartingFrom(
    flows: seq<Flow>, floor: int, lo: int, hi: int, services: ServiceMap, d: Dimensions)
    requires floor <= lo
    ensures Tally(StartingFrom(flows, floor), lo, hi, services, d) == Tally(flows, lo, hi, services, d)
  {
    if flows != [] {
      var n := |flows| - 1;
      TallyStartingFrom(flows[..n], floor, lo, hi, services, d);
      TallyAppend(StartingFrom(flows[..n], floor),
                  if flows[n].start < floor then [] else [flows[n]], lo, hi, services, d);
    }
  }
}
