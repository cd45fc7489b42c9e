/** Security findings: reconciliation with each evaluation's candidates, and what administrators do to them. */
module Findings {
  import opened Common

  datatype Status = Open | Acknowledged | Suppressed | Resolved

  datatype Severity = Critical | High | Medium | Low | Info {
    function Order(): nat {
      match this
      case Critical => 0
      case High => 1
      case Medium => 2
      case Low => 3
      case Info => 4
    }
  }

  /** A problem seen by one evaluation; `content` stands for its title, summary and other texts. */
  datatype Candidate = Candidate(
    fingerprint: string, source: string, severity: Severity, content: string, evidence: string)

  datatype Finding = Finding(
    source: string, severity: Severity, content: string, evidence: string,
    status: Status, stale: bool, firstSeen: int, lastSeen: int, lastEvaluated: int,
    resolvedAt: Option<int>, acknowledgedAt: Option<int>, suppressedUntil: Option<int>, occurrenceCount: nat)

  datatype Reason =
    | Created | SuppressionExpired | Recurred | SeverityIncreased | AbsentFromEvaluation
    | Administrator(actor: string) | Assignment(actor: string)

  /** One row of the append-only transition log. */
  datatype Transition = Transition(finding: string, from: Option<Status>, to: Status, reason: Reason)

  datatype Event = Opened | Reopened | SeverityUp | EvidenceChanged | ResolvedEvent

  datatype Occurrence = Occurrence(finding: string, event: Event, severity: Severity, evidence: string, at: int)

  datatype Endpoint = Endpoint(
    id: string, enabled: bool, includeResolved: bool, sources: set<string>, minimumSeverity: Severity)

  /** A queued notification; it outlives its finding, which it then no longer names. */
  datatype Notification = Notification(endpoint: string, finding: Option<string>, event: Event, status: Status, at: int)

  datatype Store = Store(
    findings: map<string, Finding>, transitions: seq<Transition>, occurrences: seq<Occurrence>,
    outbox: seq<Notification>)

  // ----- single steps

  predicate Wants(e: Endpoint, f: Finding, event: Event) {
    && e.enabled
    && (event == ResolvedEvent ==> e.includeResolved)
    && (e.sources == {} || f.source in e.sources)
    && f.severity.Order() <= e.minimumSeverity.Order()
  }

  /** The notifications an event of a finding queues. */
  function Queued(id: string, f: Finding, event: Event, now: int, endpoints: seq<Endpoint>): seq<Notification> {
    if endpoints == [] then []
    else
      var n := |endpoints| - 1;
      Queued(id, f, event, now, endpoints[..n])
      + if Wants(endpoints[n], f, event) then [Notification(endpoints[n].id, Some(id), event, f.status, now)] else []
  }

  /** What the evaluation of one candidate does to a finding that exists: the new row, its transitions and its event. */
  datatype Update = Update(finding: Finding, transitions: seq<Transition>, event: Option<Event>, recurred: bool)

  function Unsuppressed(id: string, f: Finding, now: int): Update {
    if f.status == Suppressed && f.suppressedUntil.Some? && f.suppressedUntil.value <= now
    then Update(f.(status := Open), [Transition(id, Some(f.status), Open, SuppressionExpired)], None, false)
    else Update(f, [], None, false)
  }

  function Reappeared(id: string, u: Update): Update {
    var f := u.finding;
    if f.status == Resolved
    then Update(f.(status := Open, resolvedAt := None, occurrenceCount := f.occurrenceCount + 1),
                u.transitions + [Transition(id, Some(f.status), Open, Recurred)], Some(Reopened), true)
    else u
  }

  function Escalated(id: string, c: Candidate, u: Update): Update {
    var f := u.finding;
    if c.severity.Order() < f.severity.Order() then
      if f.status == Acknowledged
      then u.(finding := f.(status := Open),
              transitions := u.transitions + [Transition(id, Some(f.status), Open, SeverityIncreased)],
              event := Some(SeverityUp))
      else u.(event := Some(SeverityUp))
    else u
  }

  function Refreshed(c: Candidate, f: Finding, now: int): Finding {
    f.(severity := c.severity, content := c.content, evidence := c.evidence,
       lastSeen := now, lastEvaluated := now, stale := false)
  }

  function Matched(c: Candidate, f: Finding, now: int): Update {
    var u := Escalated(c.fingerprint, c, Reappeared(c.fingerprint, Unsuppressed(c.fingerprint, f, now)));
    u.(finding := Refreshed(c, u.finding, now))
  }

  function Fresh(c: Candidate, now: int): Finding {
    Finding(c.source, c.severity, c.content, c.evidence, Open, false, now, now, now, None, None, None, 1)
  }

  /** One candidate of an evaluation. */
  function Observed(s: Store, c: Candidate, now: int, endpoints: seq<Endpoint>): Store {
    var id := c.fingerprint;
    if id !in s.findings then
      Store(s.findings[id := Fresh(c, now)],
            s.transitions + [Transition(id, None, Open, Created)],
            s.occurrences + [Occurrence(id, Opened, c.severity, c.evidence, now)],
            s.outbox + Queued(id, Fresh(c, now), Opened, now, endpoints))
    else
      var f := s.findings[id];
      var u := Matched(c, f, now);
      Store(s.findings[id := u.finding],
            s.transitions + u.transitions,
            s.occurrences + (if u.event.Some? || f.evidence != c.evidence
                             then [Occurrence(id, u.event.GetOr(EvidenceChanged), c.severity, c.evidence, now)]
                             else []),
            s.outbox + (if u.event.Some? then Queued(id, u.finding, u.event.value, now, endpoints) else []))
  }

  /** One unresolved finding of the sweep that follows the candidates. */
  function Swept(
    s: Store, id: string, complete: set<string>, seen: set<string>, now: int, endpoints: seq<Endpoint>): Store
    requires id in s.findings
  {
    var f := s.findings[id];
    if f.source !in complete then s.(findings := s.findings[id := f.(stale := true)])
    else if id in seen then s.(findings := s.findings[id := f.(lastEvaluated := now)])
    else
      var r := f.(lastEvaluated := now, status := Resolved, resolvedAt := Some(now), stale := false);
      Store(s.findings[id := r],
            s.transitions + [Transition(id, Some(f.status), Resolved, AbsentFromEvaluation)],
            s.occurrences, s.outbox + Queued(id, r, ResolvedEvent, now, endpoints))
  }

  // ----- whole evaluations

  datatype Tally = Tally(created: nat, reopened: nat, resolved: nat)

  ghost function AllObserved(s: Store, candidates: seq<Candidate>, now: int, endpoints: seq<Endpoint>): Store {
    if candidates == [] then s
    else
      var n := |candidates| - 1;
      Observed(AllObserved(s, candidates[..n], now, endpoints), candidates[n], now, endpoints)
  }

  ghost function ObservedTally(s: Store, candidates: seq<Candidate>, now: int, endpoints: seq<Endpoint>): Tally {
    if candidates == [] then Tally(0, 0, 0)
    else
      var n := |candidates| - 1;
      var before := AllObserved(s, candidates[..n], now, endpoints);
      var t := ObservedTally(s, candidates[..n], now, endpoints);
      var id := candidates[n].fingerprint;
      if id !in before.findings then t.(created := t.created + 1)
      else if before.findings[id].status == Resolved then t.(reopened := t.reopened + 1)
      else t
  }

  /** The fingerprints of the candidates of one source. */
  function SeenFor(candidates: seq<Candidate>, source: string): set<string> {
    set c | c in candidates && c.source == source :: c.fingerprint
  }

  predicate Absent(s: Store, id: string, candidates: seq<Candidate>, complete: set<string>)
    requires id in s.findings
  {
    s.findings[id].source in complete && id !in SeenFor(candidates, s.findings[id].source)
  }

  ghost function AllSwept(
    s: Store, order: seq<string>, candidates: seq<Candidate>, complete: set<string>, now: int,
    endpoints: seq<Endpoint>): (r: Store)
    requires forall id :: id in order ==> id in s.findings
    ensures r.findings.Keys == s.findings.Keys
  {
    if order == [] then s
    else
      var n := |order| - 1;
      assert forall id :: id in order[..n] ==> id in order;
      assert order[n] in order;
      var before := AllSwept(s, order[..n], candidates, complete, now, endpoints);
      Swept(before, order[n], complete, SeenFor(candidates, before.findings[order[n]].source), now, endpoints)
  }

  ghost function SweptTally(s: Store, order: seq<string>, candidates: seq<Candidate>, complete: set<string>): nat
    requires forall id :: id in order ==> id in s.findings
  {
    if order == [] then 0
    else
      var n := |order| - 1;
      assert forall id :: id in order[..n] ==> id in order;
      assert order[n] in order;
      SweptTally(s, order[..n], candidates, complete) + if Absent(s, order[n], candidates, complete) then 1 else 0
  }

  function Unresolved(s: Store): set<string> {
    set id | id in s.findings && s.findings[id].status != Resolved
  }

  /** The sweep visits every unresolved finding once, in the order the database returns them. */
  ghost predicate VisitsUnresolved(order: seq<string>, s: Store) {
    Distinct(order) && forall id :: id in order <==> id in Unresolved(s)
  }

  ghost function Evaluated(
    s: Store, candidates: seq<Candidate>, complete: set<string>, order: seq<string>, now: int,
    endpoints: seq<Endpoint>): Store
    requires VisitsUnresolved(order, AllObserved(s, candidates, now, endpoints))
  {
    AllSwept(AllObserved(s, candidates, now, endpoints), order, candidates, complete, now, endpoints)
  }

  // ----- what administrators and retention do

  datatype Request =
    | Acknowledge(now: int)
    | Reopen
    | Suppress(until: Option<int>)
    | Unsuppress
    | Assign(known: bool)

  datatype Answer = Done | NotFound | Conflict | Unprocessable

  /** When a request on a finding is refused. */
  function Refusal(f: Finding, r: Request): Option<Answer> {
    match r
    case Acknowledge(_) => if f.status == Resolved then Some(Conflict) else None
    case Reopen => None
    case Suppress(_) => if f.status == Resolved then Some(Conflict) else None
    case Unsuppress => if f.status != Suppressed then Some(Conflict) else None
    case Assign(known) => if known then None else Some(Unprocessable)
  }

  /** The row after an accepted request. */
  function Requested(f: Finding, r: Request): Finding {
    match r
    case Acknowledge(now) => f.(status := Acknowledged, acknowledgedAt := Some(now))
    case Reopen => f.(status := Open, resolvedAt := None, suppressedUntil := None)
    case Suppress(until) => f.(status := Suppressed, suppressedUntil := until)
    case Unsuppress => f.(status := Open, suppressedUntil := None)
    case Assign(_) => f
  }

  function Answered(s: Store, id: string, r: Request): Answer {
    if id !in s.findings then NotFound else Refusal(s.findings[id], r).GetOr(Done)
  }

  /** An administrator's request. */
  function Acted(s: Store, id: string, actor: string, r: Request): Store {
    if Answered(s, id, r) != Done || id !in s.findings then s
    else
      var f, g := s.findings[id], Requested(s.findings[id], r);
      s.(findings := s.findings[id := g],
         transitions := s.transitions + [
           Transition(id, Some(f.status), g.status, if r.Assign? then Assignment(actor) else Administrator(actor))])
  }

  predicate Expired(f: Finding, cutoff: int) {
    f.status == Resolved && f.resolvedAt.Some? && f.resolvedAt.value < cutoff
  }

  /** The rows of the log that belong to kept findings; deleting a finding deletes its log. */
  function LogsOf(transitions: seq<Transition>, kept: set<string>): seq<Transition> {
    if transitions == [] then []
    else
      var n := |transitions| - 1;
      LogsOf(transitions[..n], kept) + if transitions[n].finding in kept then [transitions[n]] else []
  }

  function OccurrencesOf(occurrences: seq<Occurrence>, kept: set<string>): seq<Occurrence> {
    if occurrences == [] then []
    else
      var n := |occurrences| - 1;
      OccurrencesOf(occurrences[..n], kept) + if occurrences[n].finding in kept then [occurrences[n]] else []
  }

  function Detached(note: Notification, kept: set<string>): Notification {
    if note.finding.Some? && note.finding.value in kept then note else note.(finding := None)
  }

  /** The notifications queued since the cutoff; those of removed findings lose their reference. */
  function NotificationsSince(outbox: seq<Notification>, cutoff: int, kept: set<string>): seq<Notification> {
    if outbox == [] then []
    else
      var n := |outbox| - 1;
      NotificationsSince(outbox[..n], cutoff, kept) + if outbox[n].at < cutoff then [] else [Detached(outbox[n], kept)]
  }

  /** Retention: resolved findings go once they have been resolved long enough, and with them their log. */
  function Retired(s: Store, cutoff: int): Store {
    var kept := set id | id in s.findings && !Expired(s.findings[id], cutoff);
    Store(map id | id in kept :: s.findings[id], LogsOf(s.transitions, kept), OccurrencesOf(s.occurrences, kept),
          NotificationsSince(s.outbox, cutoff, kept))
  }

  // ----- the tables

  /** Sweeping some findings leaves every other row, and every row's source, as it was. */
  lemma {:induction false} SweepLeavesOthers(
    s: Store, order: seq<string>, candidates: seq<Candidate>, complete: set<string>, now: int,
    endpoints: seq<Endpoint>, id: string)
    requires (forall x :: x in order ==> x in s.findings) && id in s.findings
    ensures var r := AllSwept(s, order, candidates, complete, now, endpoints);
            r.findings[id].source == s.findings[id].source && (id !in order ==> r.findings[id] == s.findings[id])
  {
    if order != [] {
      var n := |order| - 1;
      assert forall x :: x in order[..n] ==> x in order;
      SweepLeavesOthers(s, order[..n], candidates, complete, now, endpoints, id);
    }
  }

  class FindingTables {
    var findings: map<string, Finding>
    var transitions: seq<Transition>
    var occurrences: seq<Occurrence>
    var outbox: seq<Notification>
    var endpoints: seq<Endpoint>

    constructor (endpoints: seq<Endpoint>)
      ensures Tables() == Store(map[], [], [], []) && this.endpoints == endpoints
    {
      findings, transitions, occurrences, outbox := map[], [], [], [];
      this.endpoints := endpoints;
    }

    function Tables(): Store
      reads this
    {
      Store(findings, transitions, occurrences, outbox)
    }

    /** Logs a change of status of a loaded row and makes it. */
    method RecordTransition(id: string, f: Finding, to: Status, reason: Reason) returns (g: Finding)
      modifies this`transitions
      ensures transitions == old(transitions) + [Transition(id, Some(f.status), to, reason)]
      ensures g == f.(status := to)
    {
      transitions := transitions + [Transition(id, Some(f.status), to, reason)];
      g := f.(status := to);
    }

    method QueueEvent(id: string, event: Event, now: int)
      requires id in findings
      modifies this`outbox
      ensures outbox == old(outbox) + Queued(id, findings[id], event, now, endpoints)
    {
      for i := 0 to |endpoints|
        invariant outbox == old(outbox) + Queued(id, findings[id], event, now, endpoints[..i])
      {
        var e := endpoints[i];
        assert endpoints[..i + 1][..i] == endpoints[..i];
        if Wants(e, findings[id], event) {
          outbox := outbox + [Notification(e.id, Some(id), event, findings[id].status, now)];
        }
      }
      assert endpoints[..|endpoints|] == endpoints;
    }

    /** Brings a loaded row up to date with a candidate. */
    method MatchFinding(c: Candidate, row: Finding, now: int) returns (f: Finding, event: Option<Event>, reopened: bool)
      modifies this`transitions
      ensures f == Matched(c, row, now).finding
      ensures event == Matched(c, row, now).event
      ensures transitions == old(transitions) + Matched(c, row, now).transitions
      ensures reopened <==> row.status == Resolved
    {
      var id := c.fingerprint;
      f, event, reopened := row, None, false;
      if f.status == Suppressed && f.suppressedUntil.Some? && f.suppressedUntil.value <= now {
        f := RecordTransition(id, f, Open, SuppressionExpired);
      }
      if f.status == Resolved {
        f := RecordTransition(id, f, Open, Recurred);
        f := f.(resolvedAt := None, occurrenceCount := f.occurrenceCount + 1);
        reopened := true;
        event := Some(Reopened);
      }
      if c.severity.Order() < row.severity.Order() {
        if f.status == Acknowledged {
          f := RecordTransition(id, f, Open, SeverityIncreased);
        }
        event := Some(SeverityUp);
      }
      f := Refreshed(c, f, now);
    }

    method ObserveCandidate(c: Candidate, now: int) returns (created: bool, reopened: bool)
      modifies this`findings, this`transitions, this`occurrences, this`outbox
      ensures Tables() == Observed(old(Tables()), c, now, endpoints)
      ensures created <==> c.fingerprint !in old(findings)
      ensures reopened <==> c.fingerprint in old(findings) && old(findings)[c.fingerprint].status == Resolved
    {
      var id := c.fingerprint;
      created, reopened := id !in findings, false;
      if created {
        findings := findings[id := Fresh(c, now)];
        transitions := transitions + [Transition(id, None, Open, Created)];
        occurrences := occurrences + [Occurrence(id, Opened, c.severity, c.evidence, now)];
        QueueEvent(id, Opened, now);
      } else {
        var before := findings[id];
        var f, event;
        f, event, reopened := MatchFinding(c, before, now);
        findings := findings[id := f];
        if event.Some? || before.evidence != c.evidence {
          occurrences := occurrences + [Occurrence(id, event.GetOr(EvidenceChanged), c.severity, c.evidence, now)];
        }
        if event.Some? {
          QueueEvent(id, event.value, now);
        }
      }
    }

    method SweepFinding(id: string, complete: set<string>, seen: set<string>, now: int) returns (resolved: bool)
      requires id in findings
      modifies this`findings, this`transitions, this`outbox
      ensures Tables() == Swept(old(Tables()), id, complete, seen, now, endpoints)
      ensures resolved <==> old(findings)[id].source in complete && id !in seen
    {
      var f := findings[id];
      resolved := f.source in complete && id !in seen;
      if f.source !in complete {
        findings := findings[id := f.(stale := true)];
        return;
      }
      f := f.(lastEvaluated := now);
      if resolved {
        f := RecordTransition(id, f, Resolved, AbsentFromEvaluation);
        f := f.(resolvedAt := Some(now), stale := false);
      }
      findings := findings[id := f];
      if resolved {
        QueueEvent(id, ResolvedEvent, now);
      }
    }

    method ObserveAll(candidates: seq<Candidate>, now: int) returns (created: nat, reopened: nat)
      modifies this`findings, this`transitions, this`occurrences, this`outbox
      ensures Tables() == AllObserved(old(Tables()), candidates, now, endpoints)
      ensures Tally(created, reopened, 0) == ObservedTally(old(Tables()), candidates, now, endpoints)
    {
      hide Observed;
      created, reopened := 0, 0;
      for i := 0 to |candidates|
        invariant Tables() == AllObserved(old(Tables()), candidates[..i], now, endpoints)
        invariant Tally(created, reopened, 0) == ObservedTally(old(Tables()), candidates[..i], now, endpoints)
      {
        assert candidates[..i + 1][..i] == candidates[..i];
        var isNew, isBack := ObserveCandidate(candidates[i], now);
        created := created + if isNew then 1 else 0;
        reopened := reopened + if isBack then 1 else 0;
      }
      assert candidates[..|candidates|] == candidates;
    }

    method SweepAll(
      rows: seq<string>, candidates: seq<Candidate>, complete: set<string>, now: int) returns (resolved: nat)
      requires forall id :: id in rows ==> id in findings
      requires Distinct(rows)
      modifies this`findings, this`transitions, this`outbox
      ensures Tables() == AllSwept(old(Tables()), rows, candidates, complete, now, endpoints)
      ensures resolved == SweptTally(old(Tables()), rows, candidates, complete)
    {
      hide Swept;
      ghost var start := Tables();
      resolved := 0;
      for i := 0 to |rows|
        invariant forall id :: id in rows[..i] ==> id in start.findings
        invariant Tables() == AllSwept(start, rows[..i], candidates, complete, now, endpoints)
        invariant resolved == SweptTally(start, rows[..i], candidates, complete)
      {
        assert rows[..i + 1][..i] == rows[..i] && rows[i] in rows;
        SweepLeavesOthers(start, rows[..i], candidates, complete, now, endpoints, rows[i]);
        var gone := SweepFinding(rows[i], complete, SeenFor(candidates, findings[rows[i]].source), now);
        resolved := resolved + if gone then 1 else 0;
      }
      assert rows[..|rows|] == rows;
    }

    /** One evaluation: the candidates in turn, then a sweep over everything that is not resolved. */
    method EvaluateFindings(candidates: seq<Candidate>, complete: set<string>, now: int)
      returns (tally: Tally, ghost order: seq<string>)
      modifies this`findings, this`transitions, this`occurrences, this`outbox
      ensures VisitsUnresolved(order, AllObserved(old(Tables()), candidates, now, endpoints))
      ensures Tables() == Evaluated(old(Tables()), candidates, complete, order, now, endpoints)
      ensures tally == ObservedTally(old(Tables()), candidates, now, endpoints).(
        resolved := SweptTally(AllObserved(old(Tables()), candidates, now, endpoints), order, candidates, complete))
    {
      var created, reopened := ObserveAll(candidates, now);
      var rows := SelectUnresolved();
      order := rows;
      var resolved := SweepAll(rows, candidates, complete, now);
      tally := Tally(created, reopened, resolved);
    }

    /** The unresolved findings, in whatever order the database returns them. */
    method SelectUnresolved() returns (rows: seq<string>)
      ensures VisitsUnresolved(rows, Tables())
    {
      rows := [];
      var left := Unresolved(Tables());
      while left != {}
        invariant left <= Unresolved(Tables()) && Distinct(rows)
        invariant forall id :: id in rows <==> id in Unresolved(Tables()) && id !in left
        decreases |left|
      {
        var id :| id in left;
        rows := rows + [id];
        left := left - {id};
      }
    }

    method Act(id: string, actor: string, r: Request) returns (answer: Answer)
      modifies this`findings, this`transitions
      ensures Tables() == Acted(old(Tables()), id, actor, r)
      ensures answer == Answered(old(Tables()), id, r)
    {
      if id !in findings {
        return NotFound;
      }
      var f := findings[id];
      match r {
        case Acknowledge(now) =>
          if f.status == Resolved {
            return Conflict;
          }
          f := RecordTransition(id, f, Acknowledged, Administrator(actor));
          f := f.(acknowledgedAt := Some(now));
        case Reopen =>
          f := RecordTransition(id, f, Open, Administrator(actor));
          f := f.(resolvedAt := None, suppressedUntil := None);
        case Suppress(until) =>
          if f.status == Resolved {
            return Conflict;
          }
          f := f.(suppressedUntil := until);
          f := RecordTransition(id, f, Suppressed, Administrator(actor));
        case Unsuppress =>
          if f.status != Suppressed {
            return Conflict;
          }
          f := RecordTransition(id, f, Open, Administrator(actor));
          f := f.(suppressedUntil := None);
        case Assign(known) =>
          if !known {
            return Unprocessable;
          }
          f := RecordTransition(id, f, f.status, Assignment(actor));
      }
      findings := findings[id := f];
      answer := Done;
    }

    method Retire(cutoff: int)
      modifies this`findings, this`transitions, this`occurrences, this`outbox
      ensures Tables() == Retired(old(Tables()), cutoff)
    {
      var kept := set id | id in findings && !Expired(findings[id], cutoff);
      outbox := NotificationsSince(outbox, cutoff, kept);
      transitions, occurrences := LogsOf(transitions, kept), OccurrencesOf(occurrences, kept);
      findings := map id | id in kept :: findings[id];
    }
  }
}
