/** What evaluations, requests and retention do to findings, case by case. */
module FindingMeaning {
  import opened Common
  import opened Findings
  import opened FindingLaws
  import opened Picking

  // ----- severities

  /** Critical is the most severe, then high, medium, low and informational. */
  predicate MoreSevere(a: Severity, b: Severity) {
    match a
    case Critical => b != Critical
    case High => b in {Medium, Low, Info}
    case Medium => b in {Low, Info}
    case Low => b == Info
    case Info => false
  }

  lemma OrderIsSeverity(a: Severity, b: Severity)
    ensures a.Order() < b.Order() <==> MoreSevere(a, b)
    ensures a.Order() <= b.Order() <==> a == b || MoreSevere(a, b)
  {
  }

  // ----- notifications

  /** The endpoint is enabled, and wants this event, this source and at least this severity. */
  predicate Hears(e: Endpoint, f: Finding, event: Event) {
    && e.enabled && (e.includeResolved || event != ResolvedEvent)
    && (e.sources == {} || f.source in e.sources)
    && !MoreSevere(e.minimumSeverity, f.severity)
  }

  function Hearing(f: Finding, event: Event): Endpoint -> bool {
    (e: Endpoint) => Hears(e, f, event)
  }

  function NoteOf(id: string, f: Finding, event: Event, now: int): Endpoint -> Notification {
    (e: Endpoint) => Notification(e.id, Some(id), event, f.status, now)
  }

  /** One notification for each endpoint that hears of the event, in their order. */
  ghost predicate Notifies(
    notes: seq<Notification>, id: string, f: Finding, event: Event, now: int, endpoints: seq<Endpoint>)
  {
    Picked(notes, endpoints, Hearing(f, event), NoteOf(id, f, event, now))
  }

  lemma HearsIff(e: Endpoint, f: Finding, event: Event)
    ensures Wants(e, f, event) <==> Hears(e, f, event)
  {
    OrderIsSeverity(e.minimumSeverity, f.severity);
    OrderIsSeverity(f.severity, e.minimumSeverity);
  }

  lemma {:induction false} QueuedNotifies(id: string, f: Finding, event: Event, now: int, endpoints: seq<Endpoint>)
    ensures Notifies(Queued(id, f, event, now, endpoints), id, f, event, now, endpoints)
    decreases |endpoints|
  {
    hide Picked;
    if endpoints == [] {
      PickedNone(Hearing(f, event), NoteOf(id, f, event, now));
    } else {
      var n := |endpoints| - 1;
      var e, before := endpoints[n], Queued(id, f, event, now, endpoints[..n]);
      QueuedNotifies(id, f, event, now, endpoints[..n]);
      HearsIff(e, f, event);
      hide Hears, Wants;
      PickedNext(before, endpoints[..n], e, Hearing(f, event), NoteOf(id, f, event, now));
      assert endpoints == endpoints[..n] + [e] && before + [] == before;
    }
  }

  // ----- one candidate

  /** What the log gains. */
  predicate Logs(r: Store, s: Store, more: seq<Transition>) {
    r.transitions == s.transitions + more
  }

  /** A candidate whose fingerprint is new opens a finding, with a log row, an occurrence and notifications. */
  lemma NewFinding(s: Store, c: Candidate, now: int, endpoints: seq<Endpoint>) returns (notes: seq<Notification>)
    requires c.fingerprint !in s.findings
    ensures var id, r := c.fingerprint, Observed(s, c, now, endpoints);
            && r.findings == s.findings[id := r.findings[id]]
            && r.findings[id] == Finding(c.source, c.severity, c.content, c.evidence, Open, false, now, now, now,
                                         None, None, None, 1)
            && Logs(r, s, [Transition(id, None, Open, Created)])
            && r.occurrences == s.occurrences + [Occurrence(id, Opened, c.severity, c.evidence, now)]
            && r.outbox == s.outbox + notes && Notifies(notes, id, r.findings[id], Opened, now, endpoints)
  {
    var id := c.fingerprint;
    notes := Queued(id, Observed(s, c, now, endpoints).findings[id], Opened, now, endpoints);
    QueuedNotifies(id, Observed(s, c, now, endpoints).findings[id], Opened, now, endpoints);
    hide Queued, Notifies;
  }

  /** A suppression with an end that has come. */
  predicate Over(f: Finding, now: int) {
    f.suppressedUntil.Some? && f.suppressedUntil.value <= now
  }

  /**
   * The status of a finding that a candidate matches: an open one stays open; an acknowledged one is opened again
   * iff its severity has risen; a suppressed one iff its suppression is over; a resolved one always. Each change is
   * logged with its reason, and nothing else is.
   */
  lemma StatusAfter(s: Store, c: Candidate, now: int, endpoints: seq<Endpoint>)
    requires c.fingerprint in s.findings
    ensures var id, f, r := c.fingerprint, s.findings[c.fingerprint], Observed(s, c, now, endpoints);
            var to := r.findings[id].status;
            match f.status
            case Open => to == Open && Logs(r, s, [])
            case Acknowledged =>
              if MoreSevere(c.severity, f.severity)
              then to == Open && Logs(r, s, [Transition(id, Some(Acknowledged), Open, SeverityIncreased)])
              else to == Acknowledged && Logs(r, s, [])
            case Suppressed =>
              if Over(f, now)
              then to == Open && Logs(r, s, [Transition(id, Some(Suppressed), Open, SuppressionExpired)])
              else to == Suppressed && Logs(r, s, [])
            case Resolved => to == Open && Logs(r, s, [Transition(id, Some(Resolved), Open, Recurred)])
  {
    OrderIsSeverity(c.severity, s.findings[c.fingerprint].severity);
    hide Queued;
  }

  /** The other columns: what the candidate says now, and when; the rest is kept, but a recurrence is counted. */
  lemma RowAfter(s: Store, c: Candidate, now: int, endpoints: seq<Endpoint>)
    requires c.fingerprint in s.findings
    ensures var id, f, r := c.fingerprint, s.findings[c.fingerprint], Observed(s, c, now, endpoints);
            var g := r.findings[id];
            && r.findings == s.findings[id := g]
            && g.severity == c.severity && g.content == c.content && g.evidence == c.evidence
            && g.lastSeen == g.lastEvaluated == now && !g.stale
            && g.source == f.source && g.firstSeen == f.firstSeen
            && g.acknowledgedAt == f.acknowledgedAt && g.suppressedUntil == f.suppressedUntil
            && (if f.status == Resolved then g.resolvedAt == None && g.occurrenceCount == f.occurrenceCount + 1
                else g.resolvedAt == f.resolvedAt && g.occurrenceCount == f.occurrenceCount)
  {
    hide Queued;
  }

  /**
   * What becomes known of it: a rise of severity, or else a recurrence, is an event, which is written down and
   * queued; new evidence alone is written down only.
   */
  lemma EventAfter(s: Store, c: Candidate, now: int, endpoints: seq<Endpoint>) returns (notes: seq<Notification>)
    requires c.fingerprint in s.findings
    ensures var id, f, r := c.fingerprint, s.findings[c.fingerprint], Observed(s, c, now, endpoints);
            && r.outbox == s.outbox + notes
            && if MoreSevere(c.severity, f.severity) then
                 && r.occurrences == s.occurrences + [Occurrence(id, SeverityUp, c.severity, c.evidence, now)]
                 && Notifies(notes, id, r.findings[id], SeverityUp, now, endpoints)
               else if f.status == Resolved then
                 && r.occurrences == s.occurrences + [Occurrence(id, Reopened, c.severity, c.evidence, now)]
                 && Notifies(notes, id, r.findings[id], Reopened, now, endpoints)
               else
                 && notes == []
                 && r.occurrences == s.occurrences + if f.evidence == c.evidence then []
                                                     else [Occurrence(id, EvidenceChanged, c.severity, c.evidence, now)]
  {
    var id, f, r := c.fingerprint, s.findings[c.fingerprint], Observed(s, c, now, endpoints);
    OrderIsSeverity(c.severity, f.severity);
    var event := Matched(c, f, now).event;
    notes := if event.Some? then Queued(id, r.findings[id], event.value, now, endpoints) else [];
    if event.Some? {
      QueuedNotifies(id, r.findings[id], event.value, now, endpoints);
    }
    hide Queued, Notifies;
  }

  // ----- the sweep

  /** Some candidate of the finding's source has its fingerprint. */
  predicate StillSeen(id: string, source: string, candidates: seq<Candidate>) {
    exists i :: 0 <= i < |candidates| && candidates[i].fingerprint == id && candidates[i].source == source
  }

  lemma StillSeenIff(id: string, source: string, candidates: seq<Candidate>)
    ensures id in SeenFor(candidates, source) <==> StillSeen(id, source, candidates)
  {
    if id in SeenFor(candidates, source) {
      var c :| c in candidates && c.source == source && c.fingerprint == id;
      var i :| 0 <= i < |candidates| && candidates[i] == c;
    }
  }

  /**
   * What an evaluation leaves of a finding that is there after its candidates: a resolved one is as it was; one of an
   * incomplete source is marked stale; one that is still seen is marked as evaluated; any other is resolved now.
   */
  lemma SweepLeaves(
    s: Store, candidates: seq<Candidate>, complete: set<string>, order: seq<string>, now: int,
    endpoints: seq<Endpoint>, id: string)
    requires VisitsUnresolved(order, AllObserved(s, candidates, now, endpoints))
    requires id in AllObserved(s, candidates, now, endpoints).findings
    ensures var f := AllObserved(s, candidates, now, endpoints).findings[id];
            var r := Evaluated(s, candidates, complete, order, now, endpoints);
            && id in r.findings
            && r.findings[id] ==
               if f.status == Resolved then f
               else if f.source !in complete then f.(stale := true)
               else if StillSeen(id, f.source, candidates) then f.(lastEvaluated := now)
               else f.(lastEvaluated := now, status := Resolved, resolvedAt := Some(now), stale := false)
  {
    var m := AllObserved(s, candidates, now, endpoints);
    StillSeenIff(id, m.findings[id].source, candidates);
    assert id in order <==> m.findings[id].status != Resolved;
    hide AllObserved, AllSwept, StillSeen, SeenFor;
    if id in order {
      SweptRow(m, order, candidates, complete, now, endpoints, id);
    } else {
      SweepLeavesOthers(m, order, candidates, complete, now, endpoints, id);
    }
  }

  /** Resolving a finding in the sweep is logged, and queued as the event of the resolved finding; nothing else is. */
  lemma SweepWrites(
    s: Store, id: string, complete: set<string>, seen: set<string>, now: int, endpoints: seq<Endpoint>)
    returns (notes: seq<Notification>)
    requires id in s.findings
    ensures var f, r := s.findings[id], Swept(s, id, complete, seen, now, endpoints);
            && r.occurrences == s.occurrences && r.outbox == s.outbox + notes
            && if f.source in complete && id !in seen then
                 && Logs(r, s, [Transition(id, Some(f.status), Resolved, AbsentFromEvaluation)])
                 && Notifies(notes, id, r.findings[id], ResolvedEvent, now, endpoints)
               else Logs(r, s, []) && notes == []
  {
    var f, r := s.findings[id], Swept(s, id, complete, seen, now, endpoints);
    notes := [];
    if f.source in complete && id !in seen {
      notes := Queued(id, r.findings[id], ResolvedEvent, now, endpoints);
      QueuedNotifies(id, r.findings[id], ResolvedEvent, now, endpoints);
    }
    hide Queued, Notifies;
  }

  // ----- administrators

  /**
   * A request is refused when there is no such finding; to acknowledge or suppress a resolved one, to lift a
   * suppression that there is not, and to assign it to nobody active. A refused request changes nothing.
   */
  lemma RefusedIff(s: Store, id: string, actor: string, r: Request)
    ensures Answered(s, id, r) == NotFound <==> id !in s.findings
    ensures Answered(s, id, r) == Unprocessable <==> id in s.findings && r == Assign(false)
    ensures Answered(s, id, r) == Conflict <==>
            id in s.findings
            && match s.findings[id].status
               case Resolved => !r.Reopen? && !r.Assign?
               case Suppressed => false
               case _ => r.Unsuppress?
    ensures Answered(s, id, r) != Done ==> Acted(s, id, actor, r) == s
  {
  }

  /** An accepted request sets the status that it asks for, and its times; it is logged with who made it. */
  lemma RequestMeans(s: Store, id: string, actor: string, r: Request)
    requires id in s.findings && Answered(s, id, r) == Done
    ensures var f, a := s.findings[id], Acted(s, id, actor, r);
            var g := a.findings[id];
            && a.findings == s.findings[id := g] && a.occurrences == s.occurrences && a.outbox == s.outbox
            && Logs(a, s, [Transition(id, Some(f.status), g.status,
                                      if r.Assign? then Assignment(actor) else Administrator(actor))])
            && g.status == (if r.Acknowledge? then Acknowledged else if r.Suppress? then Suppressed
                            else if r.Assign? then f.status else Open)
            && g.acknowledgedAt == (if r.Acknowledge? then Some(r.now) else f.acknowledgedAt)
            && g.resolvedAt == (if r.Reopen? then None else f.resolvedAt)
            && g.suppressedUntil == (if r.Suppress? then r.until else if r.Reopen? || r.Unsuppress? then None
                                     else f.suppressedUntil)
            && g == f.(status := g.status, acknowledgedAt := g.acknowledgedAt, resolvedAt := g.resolvedAt,
                       suppressedUntil := g.suppressedUntil)
  {
  }

  /** Lifting a suppression restores the finding, and so does opening it again, but for when it was acknowledged. */
  lemma RequestsUndo(s: Store, id: string, actor: string, now: int, until: Option<int>)
    requires id in s.findings && s.findings[id].status == Open && s.findings[id].suppressedUntil == None
    ensures Acted(Acted(s, id, actor, Suppress(until)), id, actor, Unsuppress).findings == s.findings
    ensures var back := Acted(Acted(s, id, actor, Acknowledge(now)), id, actor, Reopen).findings[id];
            back == s.findings[id].(acknowledgedAt := Some(now), resolvedAt := None)
  {
  }
}
