/** The notification outbox: delivery cycles with bounded retries. */
module Outbox {
  import opened Common

  datatype DeliveryStatus = Pending | Retrying | Delivered | Failed | Cancelled

  datatype Delivery = Delivery(
    endpoint: string, status: DeliveryStatus, attempts: nat, nextAttempt: int, deliveredAt: Option<int>)

  /** A Retry-After header: not all digits, a number of seconds, or digits that the host language cannot convert. */
  datatype RetryAfter = NotDigits | Seconds(count: nat) | Unconvertible

  /** How an attempt ends: stopped before the request, the request broke off, or it was answered. */
  datatype Outcome = Blocked | Broken | Answered(code: int, retryAfter: RetryAfter)

  /** What an observer of the program sees: attempts on deliveries, and endpoints being enabled. */
  datatype Sighting =
    | Try(endpoint: string, delivery: string, posted: bool, gone: bool)
    | Enabled(endpoint: string)

  datatype State = State(deliveries: map<string, Delivery>, endpoints: map<string, bool>, trace: seq<Sighting>)

  const RETRY_DELAYS: seq<int> := [30 * SECOND, 2 * MINUTE, 10 * MINUTE, HOUR, 6 * HOUR]
  const LONGEST_DELAY := 6 * HOUR
  const BATCH := 100

  predicate Live(d: Delivery) {
    d.status == Pending || d.status == Retrying
  }

  /** The table's delay for a number of attempts already counted. */
  function TableDelay(attempts: nat): (delay: int)
    requires attempts > 0
    ensures 30 * SECOND <= delay <= LONGEST_DELAY
  {
    RETRY_DELAYS[Min(attempts - 1, |RETRY_DELAYS| - 1)]
  }

  // ----- one attempt

  /** An attempt that ends in an exception; it counts once more. */
  function Excepted(d: Delivery, now: int): Delivery {
    var attempts := d.attempts + 1;
    if attempts > |RETRY_DELAYS| then d.(attempts := attempts, status := Failed)
    else d.(attempts := attempts, status := Retrying, nextAttempt := now + TableDelay(attempts))
  }

  /** What one attempt makes of a delivery. */
  function Attempted(d: Delivery, outcome: Outcome, now: int): Delivery {
    if !outcome.Answered? then Excepted(d, now)
    else
      var counted := d.(attempts := d.attempts + 1);
      var code := outcome.code;
      if 200 <= code < 300 then counted.(status := Delivered, deliveredAt := Some(now))
      else if code == 410 then counted.(status := Failed)
      else if code == 429 || code >= 500 then
        match outcome.retryAfter
        case Unconvertible => Excepted(counted, now)
        case header =>
          if counted.attempts > |RETRY_DELAYS| then counted.(status := Failed)
          else
            var delay := if header.Seconds? then header.count * SECOND else TableDelay(counted.attempts);
            counted.(status := Retrying, nextAttempt := now + Min(delay, LONGEST_DELAY))
      else counted.(status := Failed)
  }

  predicate Gone(outcome: Outcome) {
    outcome.Answered? && outcome.code == 410
  }

  /** One delivery of a batch. */
  function Processed(s: State, id: string, outcome: Outcome, now: int): State
    requires id in s.deliveries
  {
    var d := s.deliveries[id];
    if d.endpoint !in s.endpoints || !s.endpoints[d.endpoint] then
      s.(deliveries := s.deliveries[id := d.(status := Cancelled)])
    else
      State(s.deliveries[id := Attempted(d, outcome, now)],
            if Gone(outcome) then s.endpoints[d.endpoint := false] else s.endpoints,
            s.trace + [Try(d.endpoint, id, !outcome.Blocked?, Gone(outcome))])
  }

  /** The deliveries of a batch, one after the other. */
  ghost function AllProcessed(s: State, batch: seq<string>, outcomes: nat -> Outcome, now: int): (r: State)
    requires forall id :: id in batch ==> id in s.deliveries
    ensures r.deliveries.Keys == s.deliveries.Keys
  {
    if batch == [] then s
    else
      var n := |batch| - 1;
      assert batch == batch[..n] + [batch[n]];
      Processed(AllProcessed(s, batch[..n], outcomes, now), batch[n], outcomes(n), now)
  }

  // ----- choosing a batch

  predicate IsDue(d: Delivery, now: int) {
    Live(d) && d.nextAttempt <= now
  }

  function DueIds(deliveries: map<string, Delivery>, now: int): set<string> {
    set id | id in deliveries && IsDue(deliveries[id], now)
  }

  predicate Earlier(a: string, b: string, deliveries: map<string, Delivery>) {
    a in deliveries && b in deliveries && deliveries[a].nextAttempt <= deliveries[b].nextAttempt
  }

  /** At most a hundred due deliveries, the longest overdue first. */
  ghost predicate DueBatch(batch: seq<string>, deliveries: map<string, Delivery>, now: int) {
    && Distinct(batch) && |batch| == Min(BATCH, |DueIds(deliveries, now)|)
    && (forall id :: id in batch ==> id in DueIds(deliveries, now))
    && (forall i, j :: 0 <= i < j < |batch| ==> Earlier(batch[i], batch[j], deliveries))
    && (forall id, i :: id in DueIds(deliveries, now) && id !in batch && 0 <= i < |batch| ==>
          Earlier(batch[i], id, deliveries))
  }

  predicate InOrder(ids: seq<string>, deliveries: map<string, Delivery>) {
    forall i, j :: 0 <= i < j < |ids| ==> Earlier(ids[i], ids[j], deliveries)
  }

  lemma EarlierTransitive(a: string, b: string, c: string, deliveries: map<string, Delivery>)
    requires Earlier(a, b, deliveries) && Earlier(b, c, deliveries)
    ensures Earlier(a, c, deliveries)
  {
  }

  lemma DistinctInsert(a: seq<string>, b: seq<string>, x: string)
    requires Distinct(a + b) && x !in a + b
    ensures Distinct(a + [x] + b)
  {
    var whole, more := a + b, a + [x] + b;
    forall i, j | 0 <= i < j < |more| ensures more[i] != more[j] {
      assert forall k :: 0 <= k < |more| && k != |a| ==> more[k] == whole[if k < |a| then k else k - 1];
      assert forall k :: 0 <= k < |whole| ==> whole[k] in whole;
    }
  }

  lemma OrderInsert(a: seq<string>, b: seq<string>, x: string, deliveries: map<string, Delivery>)
    requires InOrder(a + b, deliveries)
    requires forall i :: 0 <= i < |a| ==> Earlier(a[i], x, deliveries)
    requires b != [] ==> Earlier(x, b[0], deliveries)
    ensures InOrder(a + [x] + b, deliveries)
  {
    hide Earlier;
    var whole, more := a + b, a + [x] + b;
    assert forall i :: 0 <= i < |b| ==> b[i] == whole[|a| + i];
    forall j | 0 <= j < |b| ensures Earlier(x, b[j], deliveries) {
      if 0 < j {
        assert Earlier(whole[|a|], whole[|a| + j], deliveries);
        EarlierTransitive(x, b[0], b[j], deliveries);
      }
    }
    forall i, j | 0 <= i < j < |more| ensures Earlier(more[i], more[j], deliveries) {
      if i != |a| && j != |a| {
        var i', j' := if i < |a| then i else i - 1, if j < |a| then j else j - 1;
        assert more[i] == whole[i'] && more[j] == whole[j'];
      }
    }
  }

  method InsertDue(ids: seq<string>, id: string, deliveries: map<string, Delivery>) returns (more: seq<string>)
    requires InOrder(ids, deliveries) && Distinct(ids) && id !in ids && id in deliveries
    requires forall x :: x in ids ==> x in deliveries
    ensures InOrder(more, deliveries) && Distinct(more) && |more| == |ids| + 1
    ensures forall x :: x in more <==> x == id || x in ids
  {
    assert forall k :: 0 <= k < |ids| ==> ids[k] in ids;
    var i := 0;
    while i < |ids| && deliveries[ids[i]].nextAttempt <= deliveries[id].nextAttempt
      invariant 0 <= i <= |ids|
      invariant forall j :: 0 <= j < i ==> Earlier(ids[j], id, deliveries)
    {
      i := i + 1;
    }
    more := ids[..i] + [id] + ids[i..];
    assert i < |ids| ==> Earlier(id, ids[i], deliveries);
    hide InOrder, Distinct, Earlier;
    assert ids == ids[..i] + ids[i..];
    OrderInsert(ids[..i], ids[i..], id, deliveries);
    DistinctInsert(ids[..i], ids[i..], id);
  }

  method SelectDue(deliveries: map<string, Delivery>, now: int) returns (batch: seq<string>)
    ensures DueBatch(batch, deliveries, now)
  {
    var left := DueIds(deliveries, now);
    var ids: seq<string> := [];
    while left != {}
      invariant left <= DueIds(deliveries, now) && InOrder(ids, deliveries) && Distinct(ids)
      invariant forall x :: x in ids <==> x in DueIds(deliveries, now) && x !in left
      invariant |ids| + |left| == |DueIds(deliveries, now)|
      decreases |left|
    {
      var id :| id in left;
      ids := InsertDue(ids, id, deliveries);
      left := left - {id};
    }
    batch := ids[..Min(BATCH, |ids|)];
    assert ids == batch + ids[|batch|..];
    forall id, i | id in DueIds(deliveries, now) && id !in batch && 0 <= i < |batch|
      ensures Earlier(batch[i], id, deliveries)
    {
      assert id in ids[|batch|..];
      var j :| |batch| <= j < |ids| && ids[j] == id;
      assert Earlier(ids[i], ids[j], deliveries);
    }
  }

  // ----- the tables

  ghost function WithStatus(
    batch: seq<string>, deliveries: map<string, Delivery>, status: DeliveryStatus): set<string>
  {
    set id | id in batch && id in deliveries && deliveries[id].status == status
  }

  lemma DueAreLive(deliveries: map<string, Delivery>, now: int)
    ensures forall id :: id in DueIds(deliveries, now) ==> id in deliveries && Live(deliveries[id])
  {
  }

  lemma NothingProcessed(s: State, outcomes: nat -> Outcome, now: int)
    ensures AllProcessed(s, [], outcomes, now) == s
    ensures forall status :: WithStatus([], s.deliveries, status) == {}
  {
  }

  lemma ProcessedNext(s: State, batch: seq<string>, id: string, outcomes: nat -> Outcome, now: int)
    requires (forall x :: x in batch ==> x in s.deliveries) && id in s.deliveries
    ensures AllProcessed(s, batch + [id], outcomes, now)
            == Processed(AllProcessed(s, batch, outcomes, now), id, outcomes(|batch|), now)
  {
    assert (batch + [id])[..|batch|] == batch;
  }

  lemma StatusNext(
    batch: seq<string>, id: string, before: map<string, Delivery>, after: map<string, Delivery>, status: DeliveryStatus)
    requires id !in batch && id in after && before.Keys == after.Keys
    requires forall x :: x in before && x != id ==> after[x] == before[x]
    ensures |WithStatus(batch + [id], after, status)|
            == |WithStatus(batch, before, status)| + if after[id].status == status then 1 else 0
  {
    var old', new' := WithStatus(batch, before, status), WithStatus(batch + [id], after, status);
    assert forall x :: x in batch + [id] <==> x in batch || x == id;
    if after[id].status == status {
      assert new' == old' + {id} && id !in old';
    } else {
      assert new' == old';
    }
  }

  lemma ProcessedLeavesOthers(s: State, id: string, outcome: Outcome, now: int)
    requires id in s.deliveries
    ensures var r := Processed(s, id, outcome, now).deliveries;
            r.Keys == s.deliveries.Keys && forall x :: x in s.deliveries && x != id ==> r[x] == s.deliveries[x]
  {
  }

  lemma {:induction false} BatchLeavesOthers(
    s: State, batch: seq<string>, outcomes: nat -> Outcome, now: int, id: string)
    requires (forall x :: x in batch ==> x in s.deliveries) && id in s.deliveries && id !in batch
    ensures AllProcessed(s, batch, outcomes, now).deliveries[id] == s.deliveries[id]
    decreases |batch|
  {
    if batch != [] {
      var n := |batch| - 1;
      assert batch == batch[..n] + [batch[n]];
      BatchLeavesOthers(s, batch[..n], outcomes, now, id);
      ProcessedLeavesOthers(AllProcessed(s, batch[..n], outcomes, now), batch[n], outcomes(n), now);
    }
  }

  class OutboxTables {
    var deliveries: map<string, Delivery>
    var endpoints: map<string, bool>
    ghost var trace: seq<Sighting>

    ghost function Tables(): State
      reads this
    {
      State(deliveries, endpoints, trace)
    }

    constructor ()
      ensures Tables() == State(map[], map[], [])
    {
      deliveries, endpoints, trace := map[], map[], [];
    }

    /** One delivery: cancelled without an enabled endpoint, otherwise attempted, with the answer the network gives. */
    method Deliver(id: string, outcome: Outcome, now: int) returns (delivered: bool, failed: bool)
      requires id in deliveries && Live(deliveries[id])
      modifies this
      ensures Tables() == Processed(old(Tables()), id, outcome, now)
      ensures delivered <==> deliveries[id].status == Delivered
      ensures failed <==> deliveries[id].status == Failed
    {
      delivered, failed := false, false;
      var d := deliveries[id];
      if d.endpoint !in endpoints || !endpoints[d.endpoint] {
        deliveries := deliveries[id := d.(status := Cancelled)];
        return;
      }
      trace := trace + [Try(d.endpoint, id, !outcome.Blocked?, Gone(outcome))];
      var excepted := !outcome.Answered?;
      if outcome.Answered? {
        d := d.(attempts := d.attempts + 1);
        if 200 <= outcome.code < 300 {
          d := d.(status := Delivered, deliveredAt := Some(now));
          delivered := true;
        } else if outcome.code == 410 {
          d := d.(status := Failed);
          endpoints := endpoints[d.endpoint := false];
          failed := true;
        } else if outcome.code == 429 || outcome.code >= 500 {
          if outcome.retryAfter.Unconvertible? {
            excepted := true;
          } else {
            var delay := if outcome.retryAfter.Seconds? then outcome.retryAfter.count * SECOND
                         else RETRY_DELAYS[Min(d.attempts - 1, |RETRY_DELAYS| - 1)];
            if d.attempts > |RETRY_DELAYS| {
              d := d.(status := Failed);
              failed := true;
            } else {
              d := d.(status := Retrying, nextAttempt := now + Min(delay, LONGEST_DELAY));
            }
          }
        } else {
          d := d.(status := Failed);
          failed := true;
        }
      }
      if excepted {
        d := d.(attempts := d.attempts + 1);
        if d.attempts > |RETRY_DELAYS| {
          d := d.(status := Failed);
          failed := true;
        } else {
          d := d.(status := Retrying, nextAttempt := now + RETRY_DELAYS[Min(d.attempts - 1, |RETRY_DELAYS| - 1)]);
        }
      }
      deliveries := deliveries[id := d];
    }

    /** One delivery cycle over whatever is due. */
    method DeliverNotifications(outcomes: nat -> Outcome, now: int)
      returns (processed: nat, delivered: nat, failed: nat, ghost batch: seq<string>)
      modifies this
      ensures DueBatch(batch, old(deliveries), now) && processed == |batch|
      ensures Tables() == AllProcessed(old(Tables()), batch, outcomes, now)
      ensures delivered == |WithStatus(batch, deliveries, Delivered)|
      ensures failed == |WithStatus(batch, deliveries, Failed)|
    {
      hide Processed, WithStatus, AllProcessed, IsDue, Live;
      var due := SelectDue(deliveries, now);
      batch := due;
      processed, delivered, failed := |due|, 0, 0;
      ghost var start := Tables();
      NothingProcessed(start, outcomes, now);
      DueAreLive(start.deliveries, now);
      assert due[..0] == [] && forall id :: id in due ==> id in start.deliveries && Live(start.deliveries[id]);
      for i := 0 to |due|
        invariant forall id :: id in due[..i] ==> id in start.deliveries
        invariant Tables() == AllProcessed(start, due[..i], outcomes, now)
        invariant delivered == |WithStatus(due[..i], deliveries, Delivered)|
        invariant failed == |WithStatus(due[..i], deliveries, Failed)|
      {
        assert due[..i + 1] == due[..i] + [due[i]] && due[i] in due && due[i] !in due[..i];
        BatchLeavesOthers(start, due[..i], outcomes, now, due[i]);
        ProcessedNext(start, due[..i], due[i], outcomes, now);
        ghost var before := Tables();
        var sent, lost := Deliver(due[i], outcomes(i), now);
        ProcessedLeavesOthers(before, due[i], outcomes(i), now);
        StatusNext(due[..i], due[i], before.deliveries, deliveries, Delivered);
        StatusNext(due[..i], due[i], before.deliveries, deliveries, Failed);
        delivered := delivered + if sent then 1 else 0;
        failed := failed + if lost then 1 else 0;
      }
      assert due[..|due|] == due;
    }
  }
}
