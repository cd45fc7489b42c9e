/** What aggregate rows say in terms of the columns of flows, and which of them the retention settings keep. */
module FlowMeaning {
  import opened Common
  import opened Buckets
  import opened Flows
  import opened Aggregation
  import opened FlowStore
  import opened FlowHistory

  // ----- which flows belong to a row

  /** A nullable column and what a row holds for it. */
  predicate Coalesces<T(==)>(column: Option<T>, missing: T, held: T) {
    column == Some(held) || (column == None && held == missing)
  }

  /** A service stands for an endpoint whose device is unknown and whose address is one of the service's. */
  predicate ServiceStands(device: string, address: Option<string>, services: ServiceMap, held: string) {
    if device == "" && address.Some? && address.value in services then held == services[address.value] else held == ""
  }

  /** Column by column, the row's dimensions are those of the flow. */
  predicate SameColumns(f: Flow, d: Dimensions, services: ServiceMap) {
    && Coalesces(f.sourceDevice, "", d.sourceDevice) && Coalesces(f.destinationDevice, "", d.destinationDevice)
    && Coalesces(f.source, "", d.sourceRaw) && Coalesces(f.destination, "", d.destinationRaw)
    && ServiceStands(d.sourceDevice, f.source, services, d.sourceService)
    && ServiceStands(d.destinationDevice, f.destination, services, d.destinationService)
    && Coalesces(f.category, "unknown", d.category) && Coalesces(f.protocol, -1, d.protocol)
    && Coalesces(f.sourcePort, -1, d.sourcePort) && Coalesces(f.destinationPort, -1, d.destinationPort)
    && (d.resolved <==> d.sourceDevice != "" && d.destinationDevice != "")
  }

  /** The flow starts in the row's hour or day and has its dimensions. */
  predicate Belongs(f: Flow, k: RowKey, services: ServiceMap) {
    && k.bucket <= f.start < k.bucket + (if k.granularity == Daily then DAY else HOUR)
    && SameColumns(f, k.dims, services)
  }

  lemma BelongsIff(f: Flow, k: RowKey, services: ServiceMap)
    ensures Counts(f, k.bucket, k.bucket + Step(k.granularity), services, k.dims) <==> Belongs(f, k, services)
  {
  }

  // ----- what a row adds up

  /** A measure of some of the flows, added up. */
  ghost function SumWhere(flows: seq<Flow>, chosen: Flow -> bool, measure: Flow -> int): int {
    if flows == [] then 0
    else
      var n := |flows| - 1;
      SumWhere(flows[..n], chosen, measure) + if chosen(flows[n]) then measure(flows[n]) else 0
  }

  /** The bytes and packets that the chosen flows sent and received, and how many they are. */
  ghost predicate AddsUp(t: Totals, flows: seq<Flow>, chosen: Flow -> bool) {
    && t.bytes == SumWhere(flows, chosen, (f: Flow) => f.txBytes) + SumWhere(flows, chosen, (f: Flow) => f.rxBytes)
    && t.packets
       == SumWhere(flows, chosen, (f: Flow) => f.txPackets) + SumWhere(flows, chosen, (f: Flow) => f.rxPackets)
    && t.records == SumWhere(flows, chosen, (f: Flow) => 1)
  }

  lemma AddsUpNext(t: Totals, front: seq<Flow>, f: Flow, chosen: Flow -> bool)
    requires AddsUp(t, front, chosen)
    ensures AddsUp(if chosen(f) then t.Plus(TotalsOf(f)) else t, front + [f], chosen)
  {
    assert (front + [f])[..|front|] == front;
  }

  lemma {:induction false} TallyAddsUp(flows: seq<Flow>, k: RowKey, services: ServiceMap)
    ensures AddsUp(TallyKey(flows, k, services), flows, f => Belongs(f, k, services))
  {
    if flows != [] {
      var n := |flows| - 1;
      TallyAddsUp(flows[..n], k, services);
      BelongsIff(flows[n], k, services);
      hide AddsUp, Counts, Belongs;
      AddsUpNext(TallyKey(flows[..n], k, services), flows[..n], flows[n], f => Belongs(f, k, services));
      assert flows == flows[..n] + [flows[n]];
    }
  }

  // ----- which rows cleanup keeps

  /** The row's hour or day was not over when the retention of its granularity ended. */
  predicate Outlives(k: RowKey, settings: Settings, now: int) {
    match k.granularity
    case Hourly => now - settings.hourlyRetentionDays * DAY < k.bucket + HOUR
    case Daily => now - settings.dailyRetentionDays * DAY < k.bucket + DAY
  }

  lemma OutlivesIff(k: RowKey, settings: Settings, now: int)
    requires Aligned(k.bucket, k.granularity)
    ensures AggregateCutoff(k.granularity, settings, now) <= k.bucket <==> Outlives(k, settings, now)
  {
    var x := now - (if k.granularity.Daily? then settings.dailyRetentionDays else settings.hourlyRetentionDays) * DAY;
    hide Aligned, FloorBucket;
    FloorIsGreatestBoundary(x, k.granularity);
    if FloorBucket(x, k.granularity) > k.bucket {
      AlignedApart(k.bucket, FloorBucket(x, k.granularity), k.granularity);
    }
  }

  /** Both granularities have succeeded and cover an instant. */
  predicate BothCover(db: Database, at: int) {
    forall g :: g in {Hourly, Daily} ==>
      && g in db.states && db.states[g].lastSuccess.Some?
      && db.states[g].coverageStart.Some? && db.states[g].coverageEnd.Some?
      && db.states[g].coverageStart.value <= at <= db.states[g].coverageEnd.value
  }

  /**
   * A cleanup keeps, unchanged, exactly the aggregate rows that outlive the retention of their own granularity, and
   * exactly the raw flows from the raw cutoff on, or all of them unless both granularities cover that cutoff.
   */
  lemma CleanupKeepsIff(db: Database, settings: Settings, now: int, k: RowKey, f: Flow)
    requires Aligned(k.bucket, k.granularity)
    ensures var r := Cleaned(db, settings, now);
            && (k in r.aggregates <==> k in db.aggregates && Outlives(k, settings, now))
            && (k in r.aggregates ==> r.aggregates[k] == db.aggregates[k])
            && r.states == db.states
    ensures var raw := now - settings.flowRetentionDays * DAY;
            f in Cleaned(db, settings, now).flows <==> f in db.flows && (BothCover(db, raw) ==> raw <= f.start)
  {
    OutlivesIff(k, settings, now);
    var raw := now - settings.flowRetentionDays * DAY;
    assert BothCover(db, raw) <==> MayDropRaw(db.states, raw);
    hide StartingFrom, FloorBucket;
    StartingFromMember(db.flows, raw);
  }

  // ----- carried to runs

  /** Every cleanup of a run kept the row. */
  ghost predicate KeptByAll(events: seq<Event>, k: RowKey) {
    forall i :: 0 <= i < |events| && events[i].Cleanup? ==> Outlives(k, events[i].settings, events[i].now)
  }

  lemma KeptByAllNext(front: seq<Event>, e: Event, k: RowKey)
    ensures KeptByAll(front + [e], k) <==> KeptByAll(front, k) && (e.Cleanup? ==> Outlives(k, e.settings, e.now))
  {
    var all := front + [e];
    assert all[|front|] == e && forall i :: 0 <= i < |front| ==> all[i] == front[i];
    hide Outlives;
  }

  lemma {:induction false} KeptIff(clock: int, events: seq<Event>, k: RowKey)
    requires Aligned(k.bucket, k.granularity)
    ensures Run(Initial(clock), events).Kept(k.granularity, k.bucket) <==> KeptByAll(events, k)
    decreases |events|
  {
    if events != [] {
      var n := |events| - 1;
      var e := events[n];
      KeptIff(clock, events[..n], k);
      KeptByAllNext(events[..n], e, k);
      assert events == events[..n] + [e];
      if e.Cleanup? {
        OutlivesIff(k, e.settings, e.now);
      }
      hide KeptByAll, Outlives, Aligned, AggregateCutoff, Updated, PassOf, Cleaned;
    }
  }

  /**
   * After any admissible run, a row of an hour or a day that no cleanup's retention has passed is there iff some
   * flow that was ever aggregated belongs to it, and holds what exactly these flows sent and received, whether or not
   * their raw rows still exist.
   */
  lemma RowsHoldTheirFlows(clock: int, events: seq<Event>, k: RowKey)
    requires AdmissibleRun(Initial(clock), events) && Aligned(k.bucket, k.granularity) && KeptByAll(events, k)
    ensures Run(Initial(clock), events).aggregated <= |Run(Initial(clock), events).history|
    ensures var l := Run(Initial(clock), events);
            var seen := l.history[..l.aggregated];
            var services := StampOf(l.passes, k.granularity, k.bucket);
            && (k in l.db.aggregates <==> exists f :: f in seen && Belongs(f, k, services))
            && (k in l.db.aggregates ==> AddsUp(l.db.aggregates[k], seen, f => Belongs(f, k, services)))
  {
    var l := Run(Initial(clock), events);
    hide Run, AdmissibleRun, Tally, StampOf, Belongs, Counts, Aligned, KeptByAll, AddsUp;
    KeptIff(clock, events, k);
    EveryFlowCountedOnce(clock, events, k);
    var seen, services := l.history[..l.aggregated], StampOf(l.passes, k.granularity, k.bucket);
    TallyAddsUp(seen, k, services);
    TallyPresence(seen, k.bucket, k.bucket + Step(k.granularity), services, k.dims);
    forall f { BelongsIff(f, k, services); }
  }

  // ----- the window of a pass

  /**
   * A pass rebuilds whole buckets from the one that holds the earliest raw flow, but once it has succeeded not from
   * further back than three hours or two days, up to and with the bucket that holds the present; coverage grows by
   * this window.
   */
  lemma PassRebuilds(db: Database, now: int, services: ServiceMap, g: Granularity) returns (earliest: int)
    requires db.flows != []
    ensures (exists f :: f in db.flows && f.start == earliest) && forall f :: f in db.flows ==> earliest <= f.start
    ensures var p, before := PassOf(db, now, services), CoverageOf(db.states, g);
            var from := if before.lastSuccess.None? then earliest
                        else Max(earliest, now - if g == Daily then 2 * DAY else 3 * HOUR);
            && Aligned(p.Lo(g), g) && p.Lo(g) <= from < p.Lo(g) + Step(g)
            && Aligned(p.Hi(g), g) && p.Hi(g) - Step(g) <= now < p.Hi(g)
    ensures var p, before := PassOf(db, now, services), CoverageOf(db.states, g);
            var after := CoverageOf(Updated(db, now, services).states, g);
            && after.lastSuccess == Some(now) && after.coverageStart.Some? && after.coverageEnd.Some?
            && after.coverageStart.value == Min(before.coverageStart.GetOr(p.Lo(g)), p.Lo(g))
            && after.coverageEnd.value == Max(before.coverageEnd.GetOr(p.Hi(g)), p.Hi(g))
  {
    earliest := MinStart(db.flows);
    UpdatedCoverage(db, now, services, g);
    WindowAligned(earliest, CoverageOf(db.states, g), g, now);
    var c := CoverageOf(db.states, g);
    FloorIsGreatestBoundary(if c.lastSuccess.Some? then Max(earliest, now - Overlap(g)) else earliest, g);
    FloorIsGreatestBoundary(now, g);
    hide FloorBucket, Aligned, Updated;
  }
}
