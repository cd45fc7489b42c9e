/** Runs that lose flows, and exactly which bounds on lateness and retention rule them out. */
module RetentionRuns {
  import opened Common
  import opened Buckets
  import opened Flows
  import opened Aggregation
  import opened FlowStore
  import opened FlowHistory
  import opened RetentionLimits

  function FlowAt(id: int, start: int): Flow {
    Flow(id, None, None, None, None, None, None, None, None, 1, 0, 1, 0, start)
  }

  /** Day ten, `hours` hours and `minutes` minutes. */
  function DayTen(hours: int, minutes: int): int {
    10 * DAY + hours * HOUR + minutes * MINUTE
  }

  function RetentionOf(days: int): Settings {
    Settings(days, 90, 400)
  }

  ghost predicate Timely(l: Ledger, e: Event, lateness: int) {
    l.aggregated <= |l.history| && TimelyWithin(l, e, lateness)
  }

  /** What the runs need to know about a state. */
  ghost predicate Shows(
    l: Ledger, raw: seq<Flow>, history: seq<Flow>, aggregated: nat, clock: int, hourly: Coverage, daily: Coverage)
  {
    && l.db.flows == raw && l.history == history && l.aggregated == aggregated <= |history| && l.clock == clock
    && CoverageOf(l.db.states, Hourly) == hourly && CoverageOf(l.db.states, Daily) == daily
    && l.droppedHourly == l.droppedDaily == l.rawFloor == None
  }

  lemma FirstIngest(clock: int, now: int, arrivals: seq<Flow>)
    ensures var l := Next(Initial(clock), Ingest(now, arrivals));
            Shows(l, arrivals, arrivals, 0, now, NO_COVERAGE, NO_COVERAGE) && l.passes == []
  {
    assert [] + arrivals == arrivals;
  }

  lemma FirstPass(l: Ledger, now: int, clock: int)
    requires Shows(l, l.history, l.history, 0, clock, NO_COVERAGE, NO_COVERAGE) && l.history != [] && l.passes == []
    ensures var start := MinStart(l.history);
            Shows(Next(l, Aggregate(now, map[])), l.history, l.history, |l.history|, now,
                  Coverage(Some(FloorBucket(start, Hourly)), Some(WindowEnd(Hourly, now)), Some(now)),
                  Coverage(Some(FloorBucket(start, Daily)), Some(WindowEnd(Daily, now)), Some(now)))
    ensures Next(l, Aggregate(now, map[])).passes == [PassOf(l.db, now, map[])]
  {
    hide Rebuilt, FloorBucket;
    UpdatedCoverage(l.db, now, map[], Hourly);
    UpdatedCoverage(l.db, now, map[], Daily);
  }

  lemma PassDropsNothing(l: Ledger, e: Event)
    requires e.Aggregate?
    ensures Next(l, e).droppedHourly == l.droppedHourly && Next(l, e).droppedDaily == l.droppedDaily
  {
    hide Updated, PassOf;
  }

  // ----- aggregation stalls

  const ONE := DayTen(1, 0)
  const FIRST := FlowAt(1, ONE)
  const STRAGGLER := FlowAt(2, ONE)

  /** A flow is counted, another one arrives, and no pass comes until a cleanup may take it. */
  function StalledRun(days: int): seq<Event> {
    [Ingest(ONE, [FIRST]), Aggregate(ONE, map[]), Ingest(ONE, [STRAGGLER]),
     Cleanup(ONE + days * DAY + 1, RetentionOf(days))]
  }

  lemma FirstWindows()
    ensures MinStart([FIRST]) == ONE
    ensures FloorBucket(ONE, Hourly) == ONE && WindowEnd(Hourly, ONE) == DayTen(2, 0)
    ensures FloorBucket(ONE, Daily) == DayTen(0, 0) && WindowEnd(Daily, ONE) == DayTen(24, 0)
  {
  }

  lemma StalledBeforeCleanup(l1: Ledger, l2: Ledger, l3: Ledger)
    requires l1 == Next(Initial(0), Ingest(ONE, [FIRST]))
    requires l2 == Next(l1, Aggregate(ONE, map[]))
    requires l3 == Next(l2, Ingest(ONE, [STRAGGLER]))
    ensures Shows(l1, [FIRST], [FIRST], 0, ONE, NO_COVERAGE, NO_COVERAGE) && l1.passes == []
    ensures Shows(l2, [FIRST], [FIRST], 1, ONE, CoverageOf(l3.db.states, Hourly), CoverageOf(l3.db.states, Daily))
    ensures Shows(l3, [FIRST, STRAGGLER], [FIRST, STRAGGLER], 1, ONE,
                  Coverage(Some(ONE), Some(DayTen(2, 0)), Some(ONE)),
                  Coverage(Some(DayTen(0, 0)), Some(DayTen(24, 0)), Some(ONE)))
  {
    FirstIngest(0, ONE, [FIRST]);
    FirstPass(l1, ONE, ONE);
    FirstWindows();
    hide Updated, PassOf, Rebuilt, Tally, FloorBucket, MinStart;
    assert [FIRST] + [STRAGGLER] == [FIRST, STRAGGLER];
  }

  /**
   * When aggregation may stall for longer than raw retention, cleanup can remove a flow that was never aggregated,
   * although coverage of the cutoff is checked: the coverage of a pass reaches to the end of its bucket, and a flow
   * can still arrive in that bucket after the pass.
   */
  lemma StalledAggregationLosesFlow(lateness: int, days: int, l1: Ledger, l2: Ledger, l3: Ledger, l4: Ledger)
    requires 0 <= days && days * DAY < lateness
    requires l1 == Next(Initial(0), Ingest(ONE, [FIRST]))
    requires l2 == Next(l1, Aggregate(ONE, map[]))
    requires l3 == Next(l2, Ingest(ONE, [STRAGGLER]))
    requires l4 == Next(l3, Cleanup(ONE + days * DAY + 1, RetentionOf(days)))
    ensures Timely(Initial(0), Ingest(ONE, [FIRST]), lateness)
    ensures Timely(l1, Aggregate(ONE, map[]), lateness)
    ensures Timely(l2, Ingest(ONE, [STRAGGLER]), lateness)
    ensures Timely(l3, Cleanup(ONE + days * DAY + 1, RetentionOf(days)), lateness)
    ensures l4.aggregated <= |l4.history| && STRAGGLER in l4.Pending() && STRAGGLER !in l4.db.flows
  {
    hide Updated, PassOf, StartingFrom;
    StalledBeforeCleanup(l1, l2, l3);
    assert l3.Pending() == [STRAGGLER] == l4.Pending();
    var cutoff := ONE + 1;
    assert RawCutoff(RetentionOf(days), ONE + days * DAY + 1) == cutoff;
    assert MayDropRaw(l3.db.states, cutoff);
    StartingFromMember(l3.db.flows, cutoff);
  }

  // ----- a flow is too late

  /** The instant of the pass that comes too late. */
  const NOON := 10 * DAY + 12 * HOUR

  /** A flow that starts `lateness` before noon is counted; then another one with the same start arrives at noon. */
  function LateRun(lateness: int): seq<Event> {
    var start := NOON - lateness;
    [Ingest(start, [FlowAt(1, start)]), Aggregate(start, map[]), Ingest(NOON, [FlowAt(2, start)]),
     Aggregate(NOON, map[])]
  }

  /** The hourly row of both flows. */
  function LateRow(lateness: int): RowKey {
    KeyOf(FlowAt(1, NOON - lateness), Hourly, map[])
  }

  lemma LateFlowArrives(lateness: int, l1: Ledger, l2: Ledger, l3: Ledger)
    requires var start := NOON - lateness;
             && l1 == Next(Initial(start), Ingest(start, [FlowAt(1, start)]))
             && l2 == Next(l1, Aggregate(start, map[]))
             && l3 == Next(l2, Ingest(NOON, [FlowAt(2, start)]))
    ensures var start, e := NOON - lateness, FlowAt(1, NOON - lateness);
            && Shows(l1, [e], [e], 0, start, NO_COVERAGE, NO_COVERAGE)
            && Shows(l2, [e], [e], 1, start, CoverageOf(l3.db.states, Hourly), CoverageOf(l3.db.states, Daily))
            && Shows(l3, [e, FlowAt(2, start)], [e, FlowAt(2, start)], 1, NOON,
                     CoverageOf(l3.db.states, Hourly), CoverageOf(l3.db.states, Daily))
            && CoverageOf(l3.db.states, Hourly).lastSuccess == Some(start)
            && l1.passes == [] && l2.passes == l3.passes == [PassOf(l1.db, start, map[])]
            && l3.db.aggregates == l2.db.aggregates
  {
    var start := NOON - lateness;
    FirstIngest(start, start, [FlowAt(1, start)]);
    FirstPass(l1, start, start);
    hide Updated, PassOf, Rebuilt, Tally, FloorBucket, MinStart;
    assert [FlowAt(1, start)] + [FlowAt(2, start)] == [FlowAt(1, start), FlowAt(2, start)];
  }

  /** The window of the late pass begins three hours before noon, after the row of the two flows. */
  lemma LateWindow(lateness: int, db: Database)
    requires LATENESS < lateness && db.flows == [FlowAt(1, NOON - lateness), FlowAt(2, NOON - lateness)]
    requires CoverageOf(db.states, Hourly).lastSuccess.Some?
    ensures PassOf(db, NOON, map[]).hourlyLo == NOON - LATENESS
    ensures LateRow(lateness).bucket + HOUR <= NOON - LATENESS && Aligned(LateRow(lateness).bucket, Hourly)
  {
    assert db.flows[..1] == [FlowAt(1, NOON - lateness)];
    assert MinStart(db.flows) == NOON - lateness;
    FloorIsGreatestBoundary(NOON - lateness, Hourly);
    assert Aligned(NOON - LATENESS, Hourly);
    FloorOfAligned(NOON - LATENESS, Hourly);
    AlignedApart(LateRow(lateness).bucket, NOON - LATENESS, Hourly);
  }

  lemma SameStampEverywhere(p: Pass, g: Granularity, bucket: int)
    requires p.services == map[]
    ensures StampOf([p], g, bucket) == map[]
  {
    assert [p][..0] == [];
  }

  lemma FirstPassInv(start: int, l1: Ledger, l2: Ledger)
    requires l1 == Next(Initial(start), Ingest(start, [FlowAt(1, start)]))
    requires l2 == Next(l1, Aggregate(start, map[]))
    ensures Inv(l2)
  {
    FirstIngest(start, start, [FlowAt(1, start)]);
    InitialInv(start);
    hide Inv, Next;
    assert Admissible(Initial(start), Ingest(start, [FlowAt(1, start)]));
    IngestInv(Initial(start), Ingest(start, [FlowAt(1, start)]));
    AggregateInv(l1, Aggregate(start, map[]));
  }

  /** Once the second flow has arrived, the row still holds the first one exactly. */
  lemma LateRowSoFar(lateness: int, l1: Ledger, l2: Ledger, l3: Ledger)
    requires var start := NOON - lateness;
             && l1 == Next(Initial(start), Ingest(start, [FlowAt(1, start)]))
             && l2 == Next(l1, Aggregate(start, map[]))
             && l3 == Next(l2, Ingest(NOON, [FlowAt(2, start)]))
    ensures l3.aggregated <= |l3.history| && Aligned(LateRow(lateness).bucket, Hourly) && Exact(l3, LateRow(lateness))
  {
    var start, k := NOON - lateness, LateRow(lateness);
    FloorIsGreatestBoundary(start, Hourly);
    LateFlowArrives(lateness, l1, l2, l3);
    FirstPassInv(start, l1, l2);
    hide Next, FloorBucket, Aligned, Exact;
    assert Exact(l2, k);
    IngestKeepsExact(l2, Ingest(NOON, [FlowAt(2, start)]), k);
  }

  lemma LateRunIsTimely(lateness: int, l1: Ledger, l2: Ledger, l3: Ledger)
    requires 0 <= lateness
    requires var start, e := NOON - lateness, FlowAt(1, NOON - lateness);
             && Shows(l1, [e], [e], 0, start, NO_COVERAGE, NO_COVERAGE) && l1.passes == []
             && Shows(l2, [e], [e], 1, start, CoverageOf(l3.db.states, Hourly), CoverageOf(l3.db.states, Daily))
             && Shows(l3, [e, FlowAt(2, start)], [e, FlowAt(2, start)], 1, NOON,
                      CoverageOf(l3.db.states, Hourly), CoverageOf(l3.db.states, Daily))
    ensures var start := NOON - lateness;
            && Timely(Initial(start), Ingest(start, [FlowAt(1, start)]), lateness)
            && Timely(l1, Aggregate(start, map[]), lateness)
            && Timely(l2, Ingest(NOON, [FlowAt(2, start)]), lateness)
            && Timely(l3, Aggregate(NOON, map[]), lateness)
    ensures l3.Pending() == [FlowAt(2, NOON - lateness)]
  {
  }

  lemma LateFlowWaits(lateness: int, l: Ledger, p: Pass)
    requires l.aggregated <= |l.history| && l.Pending() == [FlowAt(2, NOON - lateness)] && l.passes == [p]
    requires p.services == map[]
    ensures !NoneWaiting(l, LateRow(lateness))
  {
    var k := LateRow(lateness);
    FloorIsGreatestBoundary(NOON - lateness, Hourly);
    SameStampEverywhere(p, Hourly, k.bucket);
    assert FlowAt(2, NOON - lateness) in l.Pending();
    assert Counts(FlowAt(2, NOON - lateness), k.bucket, k.bucket + Step(Hourly), map[], k.dims);
  }

  /**
   * A flow that waits longer than three hours can be missed for good: every step of the run keeps to the larger
   * bound, and the last pass leaves the hourly row of the flow without it.
   */
  lemma LateFlowIsNeverCounted(lateness: int, l1: Ledger, l2: Ledger, l3: Ledger, l4: Ledger)
    requires LATENESS < lateness
    requires var start := NOON - lateness;
             && l1 == Next(Initial(start), Ingest(start, [FlowAt(1, start)]))
             && l2 == Next(l1, Aggregate(start, map[]))
             && l3 == Next(l2, Ingest(NOON, [FlowAt(2, start)]))
             && l4 == Next(l3, Aggregate(NOON, map[]))
    ensures var start := NOON - lateness;
            && Timely(Initial(start), Ingest(start, [FlowAt(1, start)]), lateness)
            && Timely(l1, Aggregate(start, map[]), lateness)
            && Timely(l2, Ingest(NOON, [FlowAt(2, start)]), lateness)
            && Timely(l3, Aggregate(NOON, map[]), lateness)
    ensures l4.aggregated == |l4.history| && Aligned(LateRow(lateness).bucket, Hourly)
    ensures l4.Kept(Hourly, LateRow(lateness).bucket) && !Exact(l4, LateRow(lateness))
  {
    var start, k := NOON - lateness, LateRow(lateness);
    hide Next, Exact, PassOf, StampOf, FloorBucket, Aligned, Timely;
    PassDropsNothing(l3, Aggregate(NOON, map[]));
    LateFlowArrives(lateness, l1, l2, l3);
    LateRunIsTimely(lateness, l1, l2, l3);
    LateRowSoFar(lateness, l1, l2, l3);
    LateWindow(lateness, l3.db);
    LateFlowWaits(lateness, l3, PassOf(l1.db, start, map[]));
    SkippedRowExactIff(l3, Aggregate(NOON, map[]), k);
  }

  // ----- raw retention is too short

  const EARLY := FlowAt(1, DayTen(1, 0))
  const LATE := FlowAt(2, NOON)

  /** Two flows of one day are counted; cleanup removes the first of them, and the day is rebuilt. */
  function ShortRun(days: int): seq<Event> {
    [Ingest(NOON, [EARLY, LATE]), Aggregate(NOON, map[]),
     Cleanup(NOON + days * DAY, RetentionOf(days)), Aggregate(NOON + days * DAY + 5 * MINUTE, map[])]
  }

  const SHORT_ROW := RowKey(Daily, DayTen(0, 0), DimensionsOf(EARLY, map[]))

  lemma BothWindows()
    ensures MinStart([EARLY, LATE]) == EARLY.start
    ensures FloorBucket(EARLY.start, Hourly) == DayTen(1, 0) && WindowEnd(Hourly, NOON) == DayTen(13, 0)
    ensures FloorBucket(EARLY.start, Daily) == DayTen(0, 0) && WindowEnd(Daily, NOON) == DayTen(24, 0)
  {
    assert [EARLY, LATE][..1] == [EARLY];
  }

  lemma BothCounted(l1: Ledger, l2: Ledger)
    requires l1 == Next(Initial(0), Ingest(NOON, [EARLY, LATE]))
    requires l2 == Next(l1, Aggregate(NOON, map[]))
    ensures Shows(l1, [EARLY, LATE], [EARLY, LATE], 0, NOON, NO_COVERAGE, NO_COVERAGE) && l1.passes == []
    ensures Shows(l2, [EARLY, LATE], [EARLY, LATE], 2, NOON,
                  Coverage(Some(DayTen(1, 0)), Some(DayTen(13, 0)), Some(NOON)),
                  Coverage(Some(DayTen(0, 0)), Some(DayTen(24, 0)), Some(NOON)))
  {
    FirstIngest(0, NOON, [EARLY, LATE]);
    FirstPass(l1, NOON, NOON);
    BothWindows();
    hide Next, Updated, PassOf, Rebuilt, Tally, FloorBucket, MinStart;
  }

  lemma EarlyDropped()
    ensures StartingFrom([EARLY, LATE], NOON) == [LATE]
  {
    assert [EARLY, LATE][..1] == [EARLY] && [EARLY][..0] == [];
    assert StartingFrom([EARLY], NOON) == [];
  }

  lemma ShortCleanup(days: int, l2: Ledger, l3: Ledger)
    requires 0 <= days <= 2
    requires Shows(l2, [EARLY, LATE], [EARLY, LATE], 2, NOON,
                   Coverage(Some(DayTen(1, 0)), Some(DayTen(13, 0)), Some(NOON)),
                   Coverage(Some(DayTen(0, 0)), Some(DayTen(24, 0)), Some(NOON)))
    requires l3 == Next(l2, Cleanup(NOON + days * DAY, RetentionOf(days)))
    ensures l3.db.flows == [LATE] && l3.history == [EARLY, LATE] && l3.aggregated == 2
    ensures l3.clock == NOON + days * DAY && l3.Kept(Daily, DayTen(0, 0))
    ensures CoverageOf(l3.db.states, Daily).lastSuccess == Some(NOON)
  {
    hide StartingFrom;
    assert RawCutoff(RetentionOf(days), NOON + days * DAY) == NOON;
    assert MayDropRaw(l2.db.states, NOON);
    EarlyDropped();
    FloorIsGreatestBoundary(NOON + days * DAY - 400 * DAY, Daily);
  }

  lemma ShortWindow(days: int, db: Database)
    requires 0 <= days <= 2 && db.flows == [LATE] && CoverageOf(db.states, Daily).lastSuccess == Some(NOON)
    ensures var p := PassOf(db, NOON + days * DAY + 5 * MINUTE, map[]); p.dailyLo == DayTen(0, 0) < p.dailyHi
  {
    var now := NOON + days * DAY + 5 * MINUTE;
    assert MinStart([LATE]) == NOON;
    var from := Max(NOON, now - 2 * DAY);
    assert Aligned(DayTen(0, 0), Daily);
    FloorUnique(from, DayTen(0, 0), Daily);
    FloorIsGreatestBoundary(now, Daily);
  }

  lemma EarlyIsRemoved(l: Ledger)
    requires l.history == [EARLY, LATE] && l.aggregated == 2 && l.db.flows == [LATE]
    ensures RawFromHistory(l) && !NoneRemoved(l, SHORT_ROW, map[]) && Aligned(SHORT_ROW.bucket, Daily)
  {
    assert multiset([EARLY, LATE]) - multiset([LATE]) == multiset{EARLY};
    assert Counts(EARLY, SHORT_ROW.bucket, SHORT_ROW.bucket + Step(Daily), map[], SHORT_ROW.dims);
  }

  lemma ShortRunIsTimely(lateness: int, days: int, l1: Ledger, l2: Ledger, l3: Ledger)
    requires Shows(l1, [EARLY, LATE], [EARLY, LATE], 0, NOON, NO_COVERAGE, NO_COVERAGE) && l1.passes == []
    requires 0 <= days && l2.history == [EARLY, LATE] && l2.aggregated == 2 && l2.clock == NOON
    requires l3.history == [EARLY, LATE] && l3.aggregated == 2 && l3.clock == NOON + days * DAY
    ensures Timely(Initial(0), Ingest(NOON, [EARLY, LATE]), lateness)
    ensures Timely(l1, Aggregate(NOON, map[]), lateness)
    ensures Timely(l2, Cleanup(NOON + days * DAY, RetentionOf(days)), lateness)
    ensures Timely(l3, Aggregate(NOON + days * DAY + 5 * MINUTE, map[]), lateness)
  {
    assert l2.Pending() == l3.Pending() == [];
  }

  /**
   * With no, one or two days of raw retention, which the settings allow, a run without any late flow ends with a
   * daily row that no longer counts a flow it had counted before.
   */
  lemma ShortRetentionLosesDailyTotals(lateness: int, days: int, l1: Ledger, l2: Ledger, l3: Ledger, l4: Ledger)
    requires 0 <= days <= 2
    requires l1 == Next(Initial(0), Ingest(NOON, [EARLY, LATE]))
    requires l2 == Next(l1, Aggregate(NOON, map[]))
    requires l3 == Next(l2, Cleanup(NOON + days * DAY, RetentionOf(days)))
    requires l4 == Next(l3, Aggregate(NOON + days * DAY + 5 * MINUTE, map[]))
    ensures Timely(Initial(0), Ingest(NOON, [EARLY, LATE]), lateness)
    ensures Timely(l1, Aggregate(NOON, map[]), lateness)
    ensures Timely(l2, Cleanup(NOON + days * DAY, RetentionOf(days)), lateness)
    ensures Timely(l3, Aggregate(NOON + days * DAY + 5 * MINUTE, map[]), lateness)
    ensures l4.aggregated == |l4.history| && Aligned(SHORT_ROW.bucket, Daily)
    ensures l4.Kept(Daily, SHORT_ROW.bucket) && !Exact(l4, SHORT_ROW)
  {
    hide Next, Exact, PassOf, StampOf, FloorBucket, Timely, Aligned, RawFromHistory, NoneRemoved;
    PassDropsNothing(l3, Aggregate(NOON + days * DAY + 5 * MINUTE, map[]));
    BothCounted(l1, l2);
    ShortCleanup(days, l2, l3);
    ShortRunIsTimely(lateness, days, l1, l2, l3);
    ShortWindow(days, l3.db);
    EarlyIsRemoved(l3);
    RebuiltRowExactIff(l3, Aggregate(NOON + days * DAY + 5 * MINUTE, map[]), SHORT_ROW);
  }

  // ----- the hypotheses are as weak as they can be

  /** Flows wait at most `lateness`, and raw retention is `days`. */
  ghost predicate RunWithin(l: Ledger, events: seq<Event>, lateness: int, days: int) {
    events != [] ==>
      var e, front := events[|events| - 1], events[..|events| - 1];
      && RunWithin(l, front, lateness, days)
      && Timely(Run(l, front), e, lateness)
      && (e.Cleanup? ==> e.settings.flowRetentionDays == days)
  }

  /** In every run within the bounds all kept rows are exact. */
  ghost predicate StaysExact(lateness: int, days: int) {
    forall clock, events :: RunWithin(Initial(clock), events, lateness, days) ==>
      var l := Run(Initial(clock), events); l.aggregated <= |l.history| && AllExact(l)
  }

  lemma RunNext(l: Ledger, front: seq<Event>, e: Event, lateness: int, days: int)
    ensures Run(l, front + [e]) == Next(Run(l, front), e)
    ensures RunWithin(l, front + [e], lateness, days) <==>
            && RunWithin(l, front, lateness, days) && Timely(Run(l, front), e, lateness)
            && (e.Cleanup? ==> e.settings.flowRetentionDays == days)
  {
    assert (front + [e])[..|front|] == front;
  }

  lemma RunOfFour(l: Ledger, a: Event, b: Event, c: Event, d: Event, lateness: int, days: int)
    ensures Run(l, [a, b, c, d]) == Next(Next(Next(Next(l, a), b), c), d)
    ensures Timely(l, a, lateness) && Timely(Next(l, a), b, lateness) && Timely(Next(Next(l, a), b), c, lateness)
            && Timely(Next(Next(Next(l, a), b), c), d, lateness)
            && (forall e :: e in {a, b, c, d} && e.Cleanup? ==> e.settings.flowRetentionDays == days)
            ==> RunWithin(l, [a, b, c, d], lateness, days)
  {
    hide Next, Timely;
    assert [] + [a] == [a] && [a] + [b] == [a, b] && [a, b] + [c] == [a, b, c] && [a, b, c] + [d] == [a, b, c, d];
    RunNext(l, [], a, lateness, days);
    RunNext(l, [a], b, lateness, days);
    RunNext(l, [a, b], c, lateness, days);
    RunNext(l, [a, b, c], d, lateness, days);
  }

  lemma {:induction false} WithinIsAdmissible(l: Ledger, events: seq<Event>, lateness: int, days: int)
    requires lateness <= LATENESS && SafeRetention(days) && RunWithin(l, events, lateness, days)
    ensures AdmissibleRun(l, events)
    decreases |events|
  {
    hide Run, Next;
    if events != [] {
      WithinIsAdmissible(l, events[..|events| - 1], lateness, days);
    }
  }

  // ----- what cleanups may lose

  /** Every flow that waits to be aggregated is in the raw table. */
  ghost predicate WaitingIsRaw(l: Ledger) {
    l.aggregated <= |l.history| && forall f :: f in l.Pending() ==> f in l.db.flows
  }

  /** In no run within the bounds is a flow deleted before it is aggregated. */
  ghost predicate LosesNothing(lateness: int, days: int) {
    forall clock, events :: RunWithin(Initial(clock), events, lateness, days) ==>
      WaitingIsRaw(Run(Initial(clock), events))
  }

  /** What the safe runs keep. */
  ghost predicate SafeState(l: Ledger) {
    && WaitingIsRaw(l) && CoverageEndsSoon(l)
    && (l.passes == [] ==> l.db.states == map[])
  }

  lemma StepIsSafe(l: Ledger, e: Event, lateness: int, days: int)
    requires SafeState(l) && Timely(l, e, lateness) && (e.Cleanup? ==> e.settings.flowRetentionDays == days)
    requires days < 0 || lateness <= days * DAY
    ensures SafeState(Next(l, e))
  {
    match e
    case Ingest(_, arrivals) =>
      assert Next(l, e).Pending() == l.Pending() + arrivals;
    case Aggregate(now, services) =>
      PassEndsSoon(l, e);
      hide Updated, PassOf;
    case Cleanup(now, settings) =>
      hide StartingFrom;
      StartingFromMember(l.db.flows, RawCutoff(settings, now));
  }

  lemma {:induction false} SafeRuns(clock: int, events: seq<Event>, lateness: int, days: int)
    requires RunWithin(Initial(clock), events, lateness, days) && (days < 0 || lateness <= days * DAY)
    ensures SafeState(Run(Initial(clock), events))
    decreases |events|
  {
    if events != [] {
      SafeRuns(clock, events[..|events| - 1], lateness, days);
      hide Next, SafeState, Timely;
      StepIsSafe(Run(Initial(clock), events[..|events| - 1]), events[|events| - 1], lateness, days);
    }
  }

  lemma StalledRunLoses(lateness: int, days: int)
    requires 0 <= days && days * DAY < lateness
    ensures !LosesNothing(lateness, days)
  {
    var a, b, c := Ingest(ONE, [FIRST]), Aggregate(ONE, map[]), Ingest(ONE, [STRAGGLER]);
    var d := Cleanup(ONE + days * DAY + 1, RetentionOf(days));
    hide Next, Timely, RunWithin, Run;
    var l1 := Next(Initial(0), a);
    var l2 := Next(l1, b);
    var l3 := Next(l2, c);
    StalledAggregationLosesFlow(lateness, days, l1, l2, l3, Next(l3, d));
    RunOfFour(Initial(0), a, b, c, d, lateness, days);
    assert RunWithin(Initial(0), StalledRun(days), lateness, days);
  }

  /**
   * In no run whose flows wait at most `lateness` and whose raw retention is `days` does cleanup delete a flow that
   * was never aggregated iff flows wait no longer than raw retention lasts, or retention is negative.
   */
  lemma NothingWaitingIsLostIff(lateness: int, days: int)
    ensures LosesNothing(lateness, days) <==> days < 0 || lateness <= days * DAY
  {
    if 0 <= days && days * DAY < lateness {
      StalledRunLoses(lateness, days);
    } else {
      hide Next, RunWithin, Run;
      forall clock, events | RunWithin(Initial(clock), events, lateness, days)
        ensures WaitingIsRaw(Run(Initial(clock), events))
      {
        SafeRuns(clock, events, lateness, days);
      }
    }
  }

  // ----- what keeps rows exact

  lemma LateRunBreaks(lateness: int, days: int)
    requires LATENESS < lateness
    ensures !StaysExact(lateness, days)
  {
    var start, k := NOON - lateness, LateRow(lateness);
    var a, b := Ingest(start, [FlowAt(1, start)]), Aggregate(start, map[]);
    var c, d := Ingest(NOON, [FlowAt(2, start)]), Aggregate(NOON, map[]);
    hide Next, Timely, Exact, Aligned, FloorBucket, RunWithin, Run;
    var l1 := Next(Initial(start), a);
    var l2 := Next(l1, b);
    var l3 := Next(l2, c);
    LateFlowIsNeverCounted(lateness, l1, l2, l3, Next(l3, d));
    RunOfFour(Initial(start), a, b, c, d, lateness, days);
    assert RunWithin(Initial(start), LateRun(lateness), lateness, days);
  }

  lemma ShortRunBreaks(lateness: int, days: int)
    requires 0 <= days <= 2
    ensures !StaysExact(lateness, days)
  {
    var end := NOON + days * DAY;
    var a, b := Ingest(NOON, [EARLY, LATE]), Aggregate(NOON, map[]);
    var c, d := Cleanup(end, RetentionOf(days)), Aggregate(end + 5 * MINUTE, map[]);
    hide Next, Exact, Aligned, RunWithin, Run;
    var l1 := Next(Initial(0), a);
    var l2 := Next(l1, b);
    var l3 := Next(l2, c);
    ShortRetentionLosesDailyTotals(lateness, days, l1, l2, l3, Next(l3, d));
    RunOfFour(Initial(0), a, b, c, d, lateness, days);
    assert RunWithin(Initial(0), ShortRun(days), lateness, days);
  }

  /**
   * All kept rows are exact in every run whose flows wait at most `lateness` and whose raw retention is `days`
   * iff the bound is at most three hours and retention is at least three days, or negative.
   */
  lemma BoundsAreSharp(lateness: int, days: int)
    ensures StaysExact(lateness, days) <==> lateness <= LATENESS && SafeRetention(days)
  {
    if LATENESS < lateness {
      LateRunBreaks(lateness, days);
    } else if !SafeRetention(days) {
      ShortRunBreaks(lateness, days);
    } else {
      hide Next, RunWithin, Run;
      forall clock, events | RunWithin(Initial(clock), events, lateness, days)
        ensures var l := Run(Initial(clock), events); l.aggregated <= |l.history| && AllExact(l)
      {
        WithinIsAdmissible(Initial(clock), events, lateness, days);
        RunInv(clock, events);
      }
    }
  }
}
