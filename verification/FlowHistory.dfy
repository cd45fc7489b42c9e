/** Whole runs of ingestion, aggregation and cleanup, and what the aggregates say about every flow ever ingested. */
module FlowHistory {
  import opened Common
  import opened Buckets
  import opened Flows
  import opened Aggregation
  import opened FlowStore

  /** One successful aggregation: the services it saw and the windows it rebuilt. */
  datatype Pass = Pass(services: ServiceMap, hourlyLo: int, hourlyHi: int, dailyLo: int, dailyHi: int) {
    function Lo(g: Granularity): int { if g.Daily? then dailyLo else hourlyLo }
    function Hi(g: Granularity): int { if g.Daily? then dailyHi else hourlyHi }
  }

  /**
   * The tables together with what they no longer show: every flow ever ingested, how many of those
   * a successful aggregation has seen, the passes made, and what retention has removed.
   */
  datatype Ledger = Ledger(
    db: Database,
    history: seq<Flow>, aggregated: nat, passes: seq<Pass>,
    rawFloor: Option<int>, droppedHourly: Option<int>, droppedDaily: Option<int>,
    clock: int)
  {
    function Dropped(g: Granularity): Option<int> { if g.Daily? then droppedDaily else droppedHourly }

    ghost predicate Kept(g: Granularity, bucket: int) {
      Dropped(g).Some? ==> Dropped(g).value <= bucket
    }

    function Seen(): seq<Flow>
      requires aggregated <= |history|
    {
      history[..aggregated]
    }

    function Pending(): seq<Flow>
      requires aggregated <= |history|
    {
      history[aggregated..]
    }
  }

  datatype Event =
    | Ingest(now: int, arrivals: seq<Flow>)
    | Aggregate(now: int, services: ServiceMap)
    | Cleanup(now: int, settings: Settings)

  function Raised(floor: Option<int>, cutoff: int): Option<int> {
    Some(if floor.Some? then Max(floor.value, cutoff) else cutoff)
  }

  ghost function Initial(clock: int): Ledger {
    Ledger(Database([], map[], map[]), [], 0, [], None, None, None, clock)
  }

  ghost function PassOf(db: Database, now: int, services: ServiceMap): (p: Pass)
    requires db.flows != []
    ensures p.services == services
  {
    var e := MinStart(db.flows);
    Pass(services,
         WindowStart(e, CoverageOf(db.states, Hourly), Hourly, now), WindowEnd(Hourly, now),
         WindowStart(e, CoverageOf(db.states, Daily), Daily, now), WindowEnd(Daily, now))
  }

  ghost function Next(l: Ledger, e: Event): Ledger {
    match e
    case Ingest(now, arrivals) =>
      l.(db := l.db.(flows := l.db.flows + arrivals), history := l.history + arrivals, clock := now)
    case Aggregate(now, services) =>
      if l.db.flows == [] then l.(clock := now)
      else
        l.(db := Updated(l.db, now, services), aggregated := |l.history|,
           passes := l.passes + [PassOf(l.db, now, services)], clock := now)
    case Cleanup(now, settings) =>
      var cutoff := RawCutoff(settings, now);
      l.(db := Cleaned(l.db, settings, now),
         rawFloor := if MayDropRaw(l.db.states, cutoff) then Raised(l.rawFloor, cutoff) else l.rawFloor,
         droppedHourly := Raised(l.droppedHourly, AggregateCutoff(Hourly, settings, now)),
         droppedDaily := Raised(l.droppedDaily, AggregateCutoff(Daily, settings, now)),
         clock := now)
  }

  const LATENESS := 3 * HOUR
  const THREE_DAYS := 259_200_000_000

  /** Once aggregation has started, no flow grows older than `lateness` while it waits to be aggregated. */
  ghost predicate FreshWithin(l: Ledger, now: int, lateness: int)
    requires l.aggregated <= |l.history|
  {
    l.passes != [] ==> forall f :: f in l.Pending() ==> now - lateness <= f.start
  }

  ghost predicate Fresh(l: Ledger, now: int)
    requires l.aggregated <= |l.history|
  {
    FreshWithin(l, now, LATENESS)
  }

  /** The hypotheses on a step: a clock that does not run back, no flow from the future, no flow waiting too long. */
  ghost predicate TimelyWithin(l: Ledger, e: Event, lateness: int)
    requires l.aggregated <= |l.history|
  {
    && l.clock <= e.now
    && (e.Ingest? ==> forall f :: f in e.arrivals ==> f.start <= e.now)
    && FreshWithin(if e.Ingest? then Next(l, e) else l, e.now, lateness)
  }

  /** At least three days; a negative setting never removes raw flows, since coverage ends before such a cutoff. */
  predicate SafeRetention(days: int) {
    3 <= days || days < 0
  }

  ghost predicate Admissible(l: Ledger, e: Event)
    requires l.aggregated <= |l.history|
  {
    TimelyWithin(l, e, LATENESS) && (e.Cleanup? ==> SafeRetention(e.settings.flowRetentionDays))
  }

  /** The services seen by the last pass that rebuilt a bucket. */
  ghost function StampOf(passes: seq<Pass>, g: Granularity, bucket: int): ServiceMap {
    if passes == [] then map[]
    else
      var n := |passes| - 1;
      if passes[n].Lo(g) <= bucket < passes[n].Hi(g) then passes[n].services
      else StampOf(passes[..n], g, bucket)
  }

  /** A kept row equals the group-by of every flow the aggregation has ever seen, raw row or not. */
  ghost predicate Exact(l: Ledger, k: RowKey)
    requires l.aggregated <= |l.history|
  {
    Cell(l.db.aggregates, k, TallyKey(l.Seen(), k, StampOf(l.passes, k.granularity, k.bucket)))
  }

  ghost predicate AllExact(l: Ledger)
    requires l.aggregated <= |l.history|
  {
    forall k: RowKey :: Aligned(k.bucket, k.granularity) && l.Kept(k.granularity, k.bucket) ==> Exact(l, k)
  }

  ghost predicate Covered(l: Ledger, g: Granularity)
    requires l.aggregated <= |l.history|
  {
    var c := CoverageOf(l.db.states, g);
    && c.coverageStart.Some? && c.coverageEnd.Some? && c.lastSuccess.Some?
    && forall f :: f in l.Seen() ==> c.coverageStart.value <= f.start < c.coverageEnd.value
  }

  ghost predicate RawRowsAccounted(l: Ledger)
    requires l.aggregated <= |l.history|
  {
    l.db.flows == (if l.rawFloor.Some? then StartingFrom(l.Seen(), l.rawFloor.value) else l.Seen()) + l.Pending()
  }

  /** Hourly coverage ends at most an hour ahead of the clock. */
  ghost predicate CoverageEndsSoon(l: Ledger) {
    var end := CoverageOf(l.db.states, Hourly).coverageEnd;
    end.Some? ==> end.value <= l.clock + HOUR
  }

  ghost predicate Inv(l: Ledger) {
    && l.aggregated <= |l.history|
    && (forall f :: f in l.history ==> f.start <= l.clock)
    && RawRowsAccounted(l)
    && (l.rawFloor.Some? ==> l.passes != [] && l.rawFloor.value <= l.clock - THREE_DAYS)
    && (if l.passes == [] then l.aggregated == 0 && l.db.states == map[] && l.db.aggregates == map[]
        else Covered(l, Hourly) && Covered(l, Daily))
    && CoverageEndsSoon(l)
    && AllExact(l)
    && (forall k :: k in l.db.aggregates ==> Aligned(k.bucket, k.granularity))
  }

  // ----- every step keeps the invariant

  lemma InitialInv(clock: int)
    ensures Inv(Initial(clock))
  {
    var l := Initial(clock);
    forall k: RowKey ensures Exact(l, k) {
      assert TallyKey(l.Seen(), k, map[]) == ZERO;
    }
  }

  /** Arrivals change no row. */
  lemma IngestKeepsExact(l: Ledger, e: Event, k: RowKey)
    requires l.aggregated <= |l.history| && Exact(l, k) && e.Ingest?
    ensures Next(l, e).aggregated <= |Next(l, e).history| && Exact(Next(l, e), k)
  {
    assert Next(l, e).Seen() == l.Seen();
  }

  lemma IngestInv(l: Ledger, e: Event)
    requires Inv(l) && e.Ingest? && Admissible(l, e)
    ensures Inv(Next(l, e))
  {
    var l' := Next(l, e);
    assert l'.Seen() == l.Seen();
    assert l'.Pending() == l.Pending() + e.arrivals;
    hide Exact, StartingFrom, FreshWithin, Aligned;
    forall k: RowKey | Aligned(k.bucket, k.granularity) && l'.Kept(k.granularity, k.bucket)
      ensures Exact(l', k)
    {
      assert l.Kept(k.granularity, k.bucket);
      IngestKeepsExact(l, e, k);
    }
  }

  /** Before a pass the raw table holds every flow ever ingested from the raw floor on. */
  lemma RawIsHistoryFromFloor(l: Ledger, now: int)
    requires Inv(l) && l.clock <= now && Fresh(l, now)
    ensures l.db.flows == if l.rawFloor.Some? then StartingFrom(l.history, l.rawFloor.value) else l.history
  {
    assert l.history == l.Seen() + l.Pending();
    if l.rawFloor.Some? {
      StartingFromAppend(l.Seen(), l.Pending(), l.rawFloor.value);
      StartingFromAll(l.Pending(), l.rawFloor.value);
    }
  }

  /** What an update leaves in one row. */
  lemma UpdatedRow(db: Database, now: int, services: ServiceMap, k: RowKey)
    requires db.flows != [] && Aligned(k.bucket, k.granularity)
    ensures var p := PassOf(db, now, services);
            var after := Updated(db, now, services).aggregates;
            if p.Lo(k.granularity) <= k.bucket < p.Hi(k.granularity)
            then Cell(after, k, TallyKey(db.flows, k, services))
            else (k in after <==> k in db.aggregates) && (k in after ==> after[k] == db.aggregates[k])
  {
    var e := MinStart(db.flows);
    var p := PassOf(db, now, services);
    WindowAligned(e, CoverageOf(db.states, Hourly), Hourly, now);
    WindowAligned(e, CoverageOf(db.states, Daily), Daily, now);
    var hourly := Advanced(db, Hourly, e, now, services);
    assert CoverageOf(hourly.states, Daily) == CoverageOf(db.states, Daily);
    GroupedCell(db.flows, Hourly, p.hourlyLo, p.hourlyHi, services, k);
    GroupedCell(db.flows, Daily, p.dailyLo, p.dailyHi, services, k);
  }

  lemma UpdatedCoverage(db: Database, now: int, services: ServiceMap, g: Granularity)
    requires db.flows != []
    ensures var p := PassOf(db, now, services);
            CoverageOf(Updated(db, now, services).states, g)
            == Extended(CoverageOf(db.states, g), p.Lo(g), p.Hi(g), now)
    ensures Updated(db, now, services).flows == db.flows
  {
    hide Rebuilt, FloorBucket;
  }

  /** The window of a pass starts after everything raw retention has removed, and holds every waiting flow. */
  lemma WindowReaches(l: Ledger, now: int, services: ServiceMap, g: Granularity)
    requires Inv(l) && l.clock <= now && Fresh(l, now) && l.db.flows != []
    ensures var p := PassOf(l.db, now, services);
            && (l.rawFloor.Some? ==> l.rawFloor.value <= p.Lo(g))
            && (forall f :: f in l.Pending() ==> p.Lo(g) <= f.start < p.Hi(g))
  {
    var p := PassOf(l.db, now, services);
    var e := MinStart(l.db.flows);
    var c := CoverageOf(l.db.states, g);
    var from := if c.lastSuccess.Some? then Max(e, now - Overlap(g)) else e;
    assert p.Lo(g) == FloorBucket(from, g) && p.Hi(g) == WindowEnd(g, now);
    hide PassOf, FloorBucket, Aligned, AllExact, StartingFrom;
    FloorIsGreatestBoundary(from, g);
    forall f | f in l.Pending() ensures p.Lo(g) <= f.start < p.Hi(g) {
      assert f in l.db.flows && f in l.history;
      FloorMonotone(from, f.start, g);
      FloorIsGreatestBoundary(f.start, g);
      FloorIsGreatestBoundary(now, g);
    }
  }

  lemma StampAfterPass(passes: seq<Pass>, p: Pass, g: Granularity, bucket: int)
    ensures StampOf(passes + [p], g, bucket)
            == if p.Lo(g) <= bucket < p.Hi(g) then p.services else StampOf(passes, g, bucket)
  {
    assert (passes + [p])[..|passes|] == passes;
  }

  /** Rows in the window are recomputed, and the raw table still holds all their flows. */
  lemma WindowRowRecomputed(l: Ledger, now: int, services: ServiceMap, k: RowKey)
    requires Inv(l) && l.clock <= now && Fresh(l, now) && l.db.flows != []
    requires PassOf(l.db, now, services).Lo(k.granularity) <= k.bucket
    ensures TallyKey(l.db.flows, k, services) == TallyKey(l.history, k, services)
  {
    hide Tally, PassOf, StartingFrom, AllExact;
    WindowReaches(l, now, services, k.granularity);
    RawIsHistoryFromFloor(l, now);
    if l.rawFloor.Some? {
      TallyStartingFrom(l.history, l.rawFloor.value, k.bucket, k.bucket + Step(k.granularity), services, k.dims);
    }
  }

  /** A bucket outside a pass's window holds no instant of the window. */
  lemma WindowEdges(db: Database, now: int, services: ServiceMap, k: RowKey)
    requires db.flows != [] && Aligned(k.bucket, k.granularity)
    ensures var p := PassOf(db, now, services);
            var g := k.granularity;
            !(p.Lo(g) <= k.bucket < p.Hi(g)) ==> p.Hi(g) <= k.bucket || k.bucket + Step(g) <= p.Lo(g)
  {
    var g := k.granularity;
    var p := PassOf(db, now, services);
    WindowAligned(MinStart(db.flows), CoverageOf(db.states, g), g, now);
    if k.bucket < p.Lo(g) {
      AlignedApart(k.bucket, p.Lo(g), g);
    }
  }

  /** No waiting flow belongs to a row outside the window. */
  lemma OutsideRowUntouched(l: Ledger, now: int, services: ServiceMap, k: RowKey, stamp: ServiceMap)
    requires Inv(l) && l.clock <= now && Fresh(l, now) && l.db.flows != [] && Aligned(k.bucket, k.granularity)
    requires var p := PassOf(l.db, now, services); !(p.Lo(k.granularity) <= k.bucket < p.Hi(k.granularity))
    ensures TallyKey(l.Seen(), k, stamp) == TallyKey(l.history, k, stamp)
  {
    hide Tally, PassOf, StartingFrom, AllExact, Aligned, Covered, FloorBucket;
    var hi := k.bucket + Step(k.granularity);
    WindowReaches(l, now, services, k.granularity);
    WindowEdges(l.db, now, services, k);
    TallyPresence(l.Pending(), k.bucket, hi, stamp, k.dims);
    TallyAppend(l.Seen(), l.Pending(), k.bucket, hi, stamp, k.dims);
    assert l.history == l.Seen() + l.Pending();
    assert Tally(l.Pending(), k.bucket, hi, stamp, k.dims) == ZERO;
  }

  lemma PassKeepsRowExact(l: Ledger, e: Event, k: RowKey)
    requires Inv(l) && e.Aggregate? && Admissible(l, e) && l.db.flows != []
    requires Aligned(k.bucket, k.granularity) && l.Kept(k.granularity, k.bucket)
    ensures Exact(Next(l, e), k)
  {
    hide TallyKey, StampOf, Updated, PassOf, StartingFrom, Aligned;
    var p := PassOf(l.db, e.now, e.services);
    assert Next(l, e).Seen() == l.history;
    UpdatedRow(l.db, e.now, e.services, k);
    StampAfterPass(l.passes, p, k.granularity, k.bucket);
    if p.Lo(k.granularity) <= k.bucket < p.Hi(k.granularity) {
      WindowRowRecomputed(l, e.now, e.services, k);
    } else {
      assert Exact(l, k);
      OutsideRowUntouched(l, e.now, e.services, k, StampOf(l.passes, k.granularity, k.bucket));
    }
  }

  lemma PassCovers(l: Ledger, e: Event, g: Granularity)
    requires Inv(l) && e.Aggregate? && Admissible(l, e) && l.db.flows != []
    ensures Covered(Next(l, e), g)
  {
    hide Updated, PassOf, AllExact, StartingFrom, RawRowsAccounted, FloorBucket;
    var c := CoverageOf(Next(l, e).db.states, g);
    UpdatedCoverage(l.db, e.now, e.services, g);
    WindowReaches(l, e.now, e.services, g);
    forall f | f in Next(l, e).Seen() ensures c.coverageStart.value <= f.start < c.coverageEnd.value {
      assert l.history == l.Seen() + l.Pending();
      assert f in l.Seen() || f in l.Pending();
    }
  }

  lemma PassEndsSoon(l: Ledger, e: Event)
    requires CoverageEndsSoon(l) && e.Aggregate? && l.clock <= e.now
    ensures CoverageEndsSoon(Next(l, e))
  {
    if l.db.flows != [] {
      UpdatedCoverage(l.db, e.now, e.services, Hourly);
      FloorIsGreatestBoundary(e.now, Hourly);
      hide Updated, FloorBucket, WindowStart, MinStart;
    }
  }

  lemma UpdatedRowsAligned(db: Database, now: int, services: ServiceMap)
    requires db.flows != [] && forall k :: k in db.aggregates ==> Aligned(k.bucket, k.granularity)
    ensures forall k :: k in Updated(db, now, services).aggregates ==> Aligned(k.bucket, k.granularity)
  {
    hide Aligned, FloorBucket, TallyKey;
    var e := MinStart(db.flows);
    var hourly := Advanced(db, Hourly, e, now, services);
    assert CoverageOf(hourly.states, Daily) == CoverageOf(db.states, Daily);
    var p := PassOf(db, now, services);
    WindowAligned(e, CoverageOf(db.states, Hourly), Hourly, now);
    WindowAligned(e, CoverageOf(db.states, Daily), Daily, now);
    forall k | k in Updated(db, now, services).aggregates ensures Aligned(k.bucket, k.granularity) {
      GroupedCell(db.flows, Hourly, p.hourlyLo, p.hourlyHi, services, k);
      GroupedCell(db.flows, Daily, p.dailyLo, p.dailyHi, services, k);
    }
  }

  lemma AggregateInv(l: Ledger, e: Event)
    requires Inv(l) && e.Aggregate? && Admissible(l, e)
    ensures Inv(Next(l, e))
  {
    hide Updated, PassOf, Tally, StampOf, StartingFrom;
    var l' := Next(l, e);
    if l.db.flows == [] {
      forall k: RowKey | Aligned(k.bucket, k.granularity) && l'.Kept(k.granularity, k.bucket)
        ensures Exact(l', k)
      {
        assert Exact(l, k);
      }
    } else {
      assert l'.Seen() == l.history && l'.Pending() == [];
      assert RawRowsAccounted(l') by {
        RawIsHistoryFromFloor(l, e.now);
        UpdatedCoverage(l.db, e.now, e.services, Hourly);
      }
      PassCovers(l, e, Hourly);
      PassCovers(l, e, Daily);
      PassEndsSoon(l, e);
      UpdatedRowsAligned(l.db, e.now, e.services);
      forall k: RowKey | Aligned(k.bucket, k.granularity) && l'.Kept(k.granularity, k.bucket)
        ensures Exact(l', k)
      {
        PassKeepsRowExact(l, e, k);
      }
    }
  }

  /** A cleanup removes no kept row. */
  lemma CleanupKeepsExact(l: Ledger, e: Event, k: RowKey)
    requires l.aggregated <= |l.history| && e.Cleanup? && Next(l, e).Kept(k.granularity, k.bucket) && Exact(l, k)
    ensures Exact(Next(l, e), k)
  {
    hide Tally, StampOf, StartingFrom;
  }

  /** A cleanup with safe retention removes raw rows only before its cutoff, and only aggregated ones. */
  lemma CleanupAccounts(l: Ledger, e: Event)
    requires Inv(l) && e.Cleanup? && Admissible(l, e)
    ensures RawRowsAccounted(Next(l, e))
    ensures var floor := Next(l, e).rawFloor; floor.Some? ==> l.passes != [] && floor.value <= e.now - THREE_DAYS
  {
    hide AllExact, Exact, Aligned;
    var cutoff := RawCutoff(e.settings, e.now);
    if MayDropRaw(l.db.states, cutoff) {
      var kept := if l.rawFloor.Some? then StartingFrom(l.Seen(), l.rawFloor.value) else l.Seen();
      hide StartingFrom;
      StartingFromAppend(kept, l.Pending(), cutoff);
      StartingFromAll(l.Pending(), cutoff);
      if l.rawFloor.Some? {
        StartingFromTwice(l.Seen(), l.rawFloor.value, cutoff);
      }
    }
  }

  lemma CleanupInv(l: Ledger, e: Event)
    requires Inv(l) && e.Cleanup? && Admissible(l, e)
    ensures Inv(Next(l, e))
  {
    var l' := Next(l, e);
    hide Exact, StartingFrom, RawRowsAccounted, Aligned, Fresh;
    CleanupAccounts(l, e);
    forall k: RowKey | Aligned(k.bucket, k.granularity) && l'.Kept(k.granularity, k.bucket)
      ensures Exact(l', k)
    {
      assert l.Kept(k.granularity, k.bucket);
      CleanupKeepsExact(l, e, k);
    }
  }

  // ----- whole runs

  ghost function Run(l: Ledger, events: seq<Event>): Ledger {
    if events == [] then l else Next(Run(l, events[..|events| - 1]), events[|events| - 1])
  }

  ghost predicate AdmissibleRun(l: Ledger, events: seq<Event>) {
    events != [] ==>
      var before := Run(l, events[..|events| - 1]);
      && AdmissibleRun(l, events[..|events| - 1])
      && before.aggregated <= |before.history|
      && Admissible(before, events[|events| - 1])
  }

  lemma {:induction false} RunInv(clock: int, events: seq<Event>)
    requires AdmissibleRun(Initial(clock), events)
    ensures Inv(Run(Initial(clock), events))
  {
    if events == [] {
      InitialInv(clock);
    } else {
      var e := events[|events| - 1];
      var before := Run(Initial(clock), events[..|events| - 1]);
      RunInv(clock, events[..|events| - 1]);
      match e
      case Ingest(_, _) => IngestInv(before, e);
      case Aggregate(_, _) => AggregateInv(before, e);
      case Cleanup(_, _) => CleanupInv(before, e);
    }
  }

  /**
   * After any admissible run, each kept row of either granularity holds the bytes, packets and records of
   * exactly the flows of its bucket and dimensions that were ever aggregated; there is no row without a flow.
   */
  lemma EveryFlowCountedOnce(clock: int, events: seq<Event>, k: RowKey)
    requires AdmissibleRun(Initial(clock), events)
    requires Aligned(k.bucket, k.granularity)
    requires Run(Initial(clock), events).Kept(k.granularity, k.bucket)
    ensures var l := Run(Initial(clock), events);
            && l.aggregated <= |l.history|
            && Cell(l.db.aggregates, k,
                    TallyKey(l.history[..l.aggregated], k, StampOf(l.passes, k.granularity, k.bucket)))
  {
    RunInv(clock, events);
    assert Exact(Run(Initial(clock), events), k);
  }

  /** The hours of a day were last rebuilt under the same services as the day. */
  ghost predicate SameServices(l: Ledger, day: int) {
    forall hour :: day <= hour < day + DAY && Aligned(hour, Hourly) ==>
      StampOf(l.passes, Hourly, hour) == StampOf(l.passes, Daily, day)
  }

  /** After any admissible run a kept day's rows are the sums of its hourly rows, if both saw the same services. */
  lemma DaysAreSumsOfHours(clock: int, events: seq<Event>, day: int, d: Dimensions)
    requires AdmissibleRun(Initial(clock), events) && Aligned(day, Daily)
    requires var l := Run(Initial(clock), events); l.Kept(Daily, day) && l.Kept(Hourly, day) && SameServices(l, day)
    ensures var table := Run(Initial(clock), events).db.aggregates;
            At(table, RowKey(Daily, day, d)) == HourlySum(table, day, day + DAY, d)
  {
    RunInv(clock, events);
    var l := Run(Initial(clock), events);
    var services := StampOf(l.passes, Daily, day);
    hide Run, Tally, StampOf, HourlySum;
    forall k | InRange(k, Hourly, day, day + DAY) && Aligned(k.bucket, Hourly)
      ensures Cell(l.db.aggregates, k, TallyKey(l.Seen(), k, services))
    {
      assert Exact(l, k);
    }
    assert Exact(l, RowKey(Daily, day, d));
    DailyRowIsSumOfHours(l.db.aggregates, l.Seen(), services, day, d);
  }

  /** A flow that is no longer in the raw table has been aggregated, and lies in what both granularities cover. */
  lemma RemovedFlowsWereAggregated(clock: int, events: seq<Event>, i: nat, g: Granularity)
    requires AdmissibleRun(Initial(clock), events)
    requires var l := Run(Initial(clock), events); i < |l.history| && l.history[i] !in l.db.flows
    ensures var l := Run(Initial(clock), events);
            var c := CoverageOf(l.db.states, g);
            && i < l.aggregated
            && c.coverageStart.Some? && c.coverageEnd.Some?
            && c.coverageStart.value <= l.history[i].start < c.coverageEnd.value
  {
    hide AllExact, StartingFrom, Next;
    RunInv(clock, events);
    var l := Run(Initial(clock), events);
    assert RawRowsAccounted(l);
    assert l.history == l.Seen() + l.Pending();
    forall j | l.aggregated <= j < |l.history| ensures l.history[j] in l.db.flows {
      assert l.Pending()[j - l.aggregated] == l.history[j];
    }
    assert l.Seen()[i] in l.Seen();
    assert Covered(l, g);
  }

  ghost predicate Admissible'(l: Ledger, e: Event) {
    l.aggregated <= |l.history| && Admissible(l, e)
  }

  /** An update that has run leaves nothing waiting. */
  lemma NothingWaitsAfterUpdate(clock: int, events: seq<Event>, now: int, services: ServiceMap)
    requires AdmissibleRun(Initial(clock), events)
    requires Admissible'(Run(Initial(clock), events), Aggregate(now, services))
    ensures var l := Next(Run(Initial(clock), events), Aggregate(now, services));
            l.aggregated == |l.history|
  {
    RunInv(clock, events);
    var l := Run(Initial(clock), events);
    if l.db.flows == [] {
      assert l.Pending() == [];
    }
  }
}
