/** Exactly when a pass or a cleanup loses a flow, whatever the bounds on lateness and retention. */
module RetentionLimits {
  import opened Buckets
  import opened Flows
  import opened Aggregation
  import opened FlowStore
  import opened FlowHistory

  // ----- what a cleanup loses

  /**
   * A cleanup loses a flow that was never aggregated iff it may delete raw rows and a waiting flow is older than
   * the cutoff.
   */
  lemma CleanupLosesIff(l: Ledger, settings: Settings, now: int)
    requires Inv(l)
    ensures var cutoff := RawCutoff(settings, now);
            (exists f :: f in l.Pending() && f !in Cleaned(l.db, settings, now).flows)
            <==> MayDropRaw(l.db.states, cutoff) && exists f :: f in l.Pending() && f.start < cutoff
  {
    var cutoff := RawCutoff(settings, now);
    hide AllExact, StartingFrom;
    assert forall f :: f in l.Pending() ==> f in l.db.flows;
    StartingFromMember(l.db.flows, cutoff);
  }

  // ----- what a pass loses

  /** The raw table holds nothing but flows that were ingested, each at most as often. */
  ghost predicate RawFromHistory(l: Ledger) {
    l.aggregated <= |l.history| && multiset(l.db.flows) <= multiset(l.history)
  }

  lemma PartNext(part: seq<Flow>, whole: seq<Flow>, f: Flow)
    requires multiset(part) <= multiset(whole)
    ensures multiset(part + [f]) <= multiset(whole + [f]) && multiset(part) <= multiset(whole + [f])
  {
    assert multiset(part + [f]) == multiset(part) + multiset{f};
    assert multiset(whole + [f]) == multiset(whole) + multiset{f};
  }

  lemma {:induction false} StartingFromPart(flows: seq<Flow>, floor: int)
    ensures multiset(StartingFrom(flows, floor)) <= multiset(flows)
  {
    if flows != [] {
      var n := |flows| - 1;
      StartingFromPart(flows[..n], floor);
      PartNext(StartingFrom(flows[..n], floor), flows[..n], flows[n]);
      assert flows == flows[..n] + [flows[n]];
      assert StartingFrom(flows[..n], floor) + [] == StartingFrom(flows[..n], floor);
    }
  }

  lemma StepFromHistory(l: Ledger, e: Event)
    requires RawFromHistory(l)
    ensures RawFromHistory(Next(l, e))
  {
    hide Rebuilt, StartingFrom;
    match e
    case Ingest(_, arrivals) =>
    case Aggregate(now, services) =>
      if l.db.flows != [] {
        UpdatedCoverage(l.db, now, services, Hourly);
        hide Updated;
      }
    case Cleanup(now, settings) =>
      hide RawCutoff, MayDropRaw;
      StartingFromPart(l.db.flows, RawCutoff(settings, now));
  }

  /** That holds in every run, whatever the clock, the flows and the settings do. */
  lemma {:induction false} RawComesFromHistory(clock: int, events: seq<Event>)
    ensures RawFromHistory(Run(Initial(clock), events))
  {
    if events != [] {
      RawComesFromHistory(clock, events[..|events| - 1]);
      hide Next, RawFromHistory;
      StepFromHistory(Run(Initial(clock), events[..|events| - 1]), events[|events| - 1]);
    }
  }

  lemma TallyWithout(flows: seq<Flow>, i: nat, lo: int, hi: int, services: ServiceMap, d: Dimensions)
    requires i < |flows|
    ensures var rest := Tally(flows[..i] + flows[i + 1..], lo, hi, services, d);
            Tally(flows, lo, hi, services, d)
            == if Counts(flows[i], lo, hi, services, d) then rest.Plus(TotalsOf(flows[i])) else rest
  {
    var f := flows[i];
    assert flows == flows[..i] + [f] + flows[i + 1..] && [f][..0] == [];
    assert Tally([f], lo, hi, services, d) == if Counts(f, lo, hi, services, d) then TotalsOf(f) else ZERO;
    hide Tally, Counts;
    TallyAppend(flows[..i] + [f], flows[i + 1..], lo, hi, services, d);
    TallyAppend(flows[..i], [f], lo, hi, services, d);
    TallyAppend(flows[..i], flows[i + 1..], lo, hi, services, d);
  }

  /** No flow of `whole` that is missing from `part` counts for a row. */
  ghost predicate NoneMissing(
    part: seq<Flow>, whole: seq<Flow>, lo: int, hi: int, services: ServiceMap, d: Dimensions)
  {
    forall f :: f in multiset(whole) - multiset(part) ==> !Counts(f, lo, hi, services, d)
  }

  lemma SameMissing(
    part: seq<Flow>, whole: seq<Flow>, front: seq<Flow>, rest: seq<Flow>,
    lo: int, hi: int, services: ServiceMap, d: Dimensions)
    requires multiset(whole) - multiset(part) == multiset(rest) - multiset(front)
    ensures NoneMissing(part, whole, lo, hi, services, d) == NoneMissing(front, rest, lo, hi, services, d)
  {
  }

  lemma OneLess(a: multiset<Flow>, b: multiset<Flow>, f: Flow)
    requires a + multiset{f} <= b + multiset{f}
    ensures a <= b && (b + multiset{f}) - (a + multiset{f}) == b - a
  {
    forall x ensures a[x] <= b[x] {
      assert (a + multiset{f})[x] <= (b + multiset{f})[x];
    }
  }

  /** The last flow of a part is somewhere in the whole; without it the two differ by the same flows. */
  lemma LastInWhole(part: seq<Flow>, whole: seq<Flow>) returns (i: nat)
    requires part != [] && multiset(part) <= multiset(whole)
    ensures i < |whole| && whole[i] == part[|part| - 1]
    ensures var front, rest := part[..|part| - 1], whole[..i] + whole[i + 1..];
            && multiset(front) <= multiset(rest)
            && multiset(whole) - multiset(part) == multiset(rest) - multiset(front)
  {
    var n := |part| - 1;
    assert part == part[..n] + [part[n]];
    assert multiset(part) == multiset(part[..n]) + multiset{part[n]} && part[n] in multiset(part);
    i :| i < |whole| && whole[i] == part[n];
    var rest := whole[..i] + whole[i + 1..];
    assert whole == whole[..i] + [whole[i]] + whole[i + 1..];
    assert multiset(whole) == multiset(rest) + multiset{part[n]};
    OneLess(multiset(part[..n]), multiset(rest), part[n]);
  }

  lemma NoPartTallyIff(whole: seq<Flow>, lo: int, hi: int, services: ServiceMap, d: Dimensions)
    ensures ZERO == Tally(whole, lo, hi, services, d) <==> NoneMissing([], whole, lo, hi, services, d)
  {
    hide Counts;
    TallyPresence(whole, lo, hi, services, d);
    assert multiset(whole) - multiset([]) == multiset(whole);
  }

  /** A row counts the same over part of the flows iff no missing flow belongs to it. */
  lemma {:induction false} PartTallyIff(
    part: seq<Flow>, whole: seq<Flow>, lo: int, hi: int, services: ServiceMap, d: Dimensions)
    requires multiset(part) <= multiset(whole)
    ensures Tally(part, lo, hi, services, d) == Tally(whole, lo, hi, services, d)
            <==> NoneMissing(part, whole, lo, hi, services, d)
    decreases |part|
  {
    if part == [] {
      NoPartTallyIff(whole, lo, hi, services, d);
    } else {
      hide Tally, Counts, NoneMissing;
      var n := |part| - 1;
      var i := LastInWhole(part, whole);
      var rest := whole[..i] + whole[i + 1..];
      PartTallyIff(part[..n], rest, lo, hi, services, d);
      SameMissing(part, whole, part[..n], rest, lo, hi, services, d);
      TallyWithout(whole, i, lo, hi, services, d);
      assert part[..n] + part[n + 1..] == part[..n];
      TallyWithout(part, n, lo, hi, services, d);
    }
  }

  /** No flow that cleanups have taken from the raw table belongs to the row. */
  ghost predicate NoneRemoved(l: Ledger, k: RowKey, services: ServiceMap) {
    NoneMissing(l.db.flows, l.history, k.bucket, k.bucket + Step(k.granularity), services, k.dims)
  }

  lemma SameCell(table: AggregateTable, k: RowKey, t: Totals, u: Totals)
    requires Cell(table, k, t) && (t.records == 0 ==> t == ZERO) && (u.records == 0 ==> u == ZERO)
    requires t.records >= 0 && u.records >= 0
    ensures Cell(table, k, u) <==> t == u
  {
  }

  lemma TallyKeyPresence(flows: seq<Flow>, k: RowKey, services: ServiceMap)
    ensures var t := TallyKey(flows, k, services); t.records >= 0 && (t.records == 0 ==> t == ZERO)
  {
    TallyPresence(flows, k.bucket, k.bucket + Step(k.granularity), services, k.dims);
  }

  /**
   * A row inside a pass's window is exact after the pass iff no flow that cleanups have taken belongs to it, however
   * late flows are and however short raw retention is, and whether those flows had been aggregated or not.
   */
  lemma RebuiltRowExactIff(l: Ledger, e: Event, k: RowKey)
    requires RawFromHistory(l) && e.Aggregate? && l.db.flows != []
    requires Aligned(k.bucket, k.granularity)
    requires var p := PassOf(l.db, e.now, e.services); p.Lo(k.granularity) <= k.bucket < p.Hi(k.granularity)
    ensures Next(l, e).aggregated == |Next(l, e).history| == |l.history|
    ensures Exact(Next(l, e), k) <==> NoneRemoved(l, k, e.services)
  {
    hide Tally, StampOf, Updated, PassOf, StartingFrom, Aligned, NoneMissing;
    var r := Next(l, e);
    assert r.Seen() == l.history;
    UpdatedRow(l.db, e.now, e.services, k);
    StampAfterPass(l.passes, PassOf(l.db, e.now, e.services), k.granularity, k.bucket);
    PartTallyIff(l.db.flows, l.history, k.bucket, k.bucket + Step(k.granularity), e.services, k.dims);
    TallyKeyPresence(l.db.flows, k, e.services);
    TallyKeyPresence(l.history, k, e.services);
    SameCell(r.db.aggregates, k, TallyKey(l.db.flows, k, e.services), TallyKey(l.history, k, e.services));
  }

  /** No waiting flow belongs to the row. */
  ghost predicate NoneWaiting(l: Ledger, k: RowKey)
    requires l.aggregated <= |l.history|
  {
    var services := StampOf(l.passes, k.granularity, k.bucket);
    forall f :: f in l.Pending() ==> !Counts(f, k.bucket, k.bucket + Step(k.granularity), services, k.dims)
  }

  lemma WaitingTallyIff(l: Ledger, k: RowKey)
    requires l.aggregated <= |l.history|
    ensures var services := StampOf(l.passes, k.granularity, k.bucket);
            TallyKey(l.Seen(), k, services) == TallyKey(l.history, k, services) <==> NoneWaiting(l, k)
  {
    hide Tally, Counts, StampOf;
    var services := StampOf(l.passes, k.granularity, k.bucket);
    var lo, hi := k.bucket, k.bucket + Step(k.granularity);
    assert l.history == l.Seen() + l.Pending();
    TallyAppend(l.Seen(), l.Pending(), lo, hi, services, k.dims);
    TallyPresence(l.Pending(), lo, hi, services, k.dims);
  }

  /**
   * An exact row outside a pass's window stays exact iff no waiting flow belongs to it: the pass never counts those.
   */
  lemma SkippedRowExactIff(l: Ledger, e: Event, k: RowKey)
    requires l.aggregated <= |l.history| && e.Aggregate? && l.db.flows != []
    requires Aligned(k.bucket, k.granularity) && Exact(l, k)
    requires var p := PassOf(l.db, e.now, e.services); !(p.Lo(k.granularity) <= k.bucket < p.Hi(k.granularity))
    ensures Next(l, e).aggregated == |Next(l, e).history| == |l.history|
    ensures Exact(Next(l, e), k) <==> NoneWaiting(l, k)
  {
    hide TallyKey, StampOf, Updated, PassOf, Aligned, NoneWaiting;
    var r, services := Next(l, e), StampOf(l.passes, k.granularity, k.bucket);
    assert r.Seen() == l.history;
    UpdatedRow(l.db, e.now, e.services, k);
    StampAfterPass(l.passes, PassOf(l.db, e.now, e.services), k.granularity, k.bucket);
    WaitingTallyIff(l, k);
    TallyKeyPresence(l.Seen(), k, services);
    TallyKeyPresence(l.history, k, services);
    SameCell(r.db.aggregates, k, TallyKey(l.Seen(), k, services), TallyKey(l.history, k, services));
  }
}
