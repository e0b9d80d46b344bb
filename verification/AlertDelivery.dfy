/** Delivering an alert event through the owner's channels, and retrying what failed
    (apps/workers/delivery.go, apps/workers/delivery_retry.go, packages/db/alert_delivery.go).
    Times are nanoseconds. A sender is the reply it gives. */
module AlertDelivery {
  import opened Text
  import opened Sorting
  import RetryDelay
  import AlertDispatch

  const SECOND := AlertDispatch.SECOND
  const MINUTE := 60 * SECOND

  datatype Status = Queued | Delivered | Failed

  /** A row of alert_delivery_attempts. `id` is the row's number in order of insertion; the database
      names it by a uuid, and `uuid` is that name's place in the order of uuids. */
  datatype Attempt = Attempt(id: nat, uuid: int, event: string, channel: string, status: Status,
                             retryCount: nat, exhausted: bool, nextRetryAt: Option<int>,
                             attemptedAt: Option<int>, failedAt: Option<int>, createdAt: int)

  /** The rows, the attempts that went out to a sender, in order, and the channels now enabled. */
  datatype Store = Store(attempts: seq<Attempt>, sent: seq<nat>, enabled: set<string>)

  /** One exchange with a sender: the clock before it, whether it accepted, and the clock when its
      answer is recorded. */
  datatype Reply = Reply(startedAt: int, ok: bool, at: int)

  datatype Dispatcher = Dispatcher(retryLimit: int, retryBaseDelay: int, uuid: nat -> int) {
    function Limit(): (n: int)
      ensures n > 0
    {
      if retryLimit > 0 then retryLimit else 3
    }

    function Base(): (b: int)
      ensures b > 0
    {
      if retryBaseDelay > 0 then retryBaseDelay else MINUTE
    }

    /** `deliveryRetryBackoff` on 64-bit durations. */
    function Backoff(retries: int): int {
      RetryDelay.Delay(Base(), RetryDelay.HOUR, retries)
    }

    /** `buildAlertDeliveryAttemptUpdate` applied to the row it updates. The next retry is stored
        as text in whole seconds. */
    function Updated(a: Attempt, reply: Reply): Attempt {
      var attempted := a.(attemptedAt := Some(reply.at));
      if reply.ok then
        attempted.(status := Delivered, exhausted := false, nextRetryAt := None, failedAt := None)
      else if a.retryCount + 1 >= Limit() then
        attempted.(status := Failed, retryCount := a.retryCount + 1, exhausted := true, nextRetryAt := None,
                   failedAt := Some(reply.at))
      else
        attempted.(status := Failed, retryCount := a.retryCount + 1, exhausted := false, failedAt := Some(reply.at),
                   nextRetryAt := Some(AlertDispatch.Truncate(reply.at + Backoff(a.retryCount + 1), SECOND)))
    }

    function NewAttempt(id: nat, event: string, channel: string, at: int): Attempt {
      Attempt(id, uuid(id), event, channel, Queued, 0, false, None, Some(at), None, at)
    }
  }

  /** What a row's counters say about what went out: every send ended in a recorded failure or the
      one delivery, there are at most `limit`, and a failed attempt is exhausted exactly when its
      failures reach the limit. */
  predicate AttemptOk(a: Attempt, sends: nat, limit: int) {
    match a.status
    case Queued => sends == 0 == a.retryCount && !a.exhausted
    case Delivered => sends == a.retryCount + 1 <= limit && !a.exhausted
    case Failed => sends == a.retryCount && 1 <= a.retryCount <= limit
                   && (a.exhausted <==> a.retryCount == limit)
                   && (a.exhausted <==> a.nextRetryAt.None?)
  }

  /** An attempt that may still be sent. */
  predicate Open(a: Attempt) {
    a.status == Queued || (a.status == Failed && !a.exhausted)
  }

  /** Each send ends in one recorded failure or the delivery. */
  lemma UpdateKeepsCounters(d: Dispatcher, a: Attempt, sends: nat, reply: Reply)
    requires AttemptOk(a, sends, d.Limit()) && Open(a)
    ensures AttemptOk(d.Updated(a, reply), sends + 1, d.Limit())
    ensures d.Updated(a, reply).status != Queued
  {
  }

  /** A base delay of at least a second, and small enough that no 64-bit doubling overflows. */
  predicate DelaysProperly(d: Dispatcher) {
    SECOND <= d.Base() && 2 * d.Base() < RetryDelay.TWO_63
  }

  /** A failed attempt that is not exhausted is due again after the capped doubling of the base delay,
      stored down to the whole second. */
  lemma NextRetryWaitsCapped(d: Dispatcher, a: Attempt, reply: Reply)
    requires DelaysProperly(d) && !reply.ok && a.retryCount + 1 < d.Limit()
    ensures var next := d.Updated(a, reply).nextRetryAt;
            && next.Some? && next.value % SECOND == 0
            && next.value <= reply.at + RetryDelay.Capped(d.Base(), RetryDelay.HOUR, a.retryCount + 1) < next.value + SECOND
  {
    if a.retryCount >= 1 {
      RetryDelay.SmallDelaysNeverOverflow(d.Base(), RetryDelay.HOUR);
      assert d.Base() * RetryDelay.Pow2(0) == d.Base();
      RetryDelay.LoopComputesCapped(d.Base(), RetryDelay.HOUR, 0, a.retryCount);
    }
  }

  /** `delivery_key` is unique: one attempt per event and channel. */
  predicate Exists(attempts: seq<Attempt>, event: string, channel: string) {
    exists i :: 0 <= i < |attempts| && attempts[i].event == event && attempts[i].channel == channel
  }

  /** Send `a`, as it was when it was read, and update its row. */
  function Send(d: Dispatcher, store: Store, a: Attempt, reply: Reply): Store
    requires a.id < |store.attempts|
  {
    store.(attempts := store.attempts[a.id := d.Updated(a, reply)], sent := store.sent + [a.id])
  }

  /** One channel of `DeliverAlertEvent`. */
  function DeliverOne(d: Dispatcher, store: Store, event: string, channel: string, reply: Reply): Store {
    if Exists(store.attempts, event, channel) then store
    else
      var a := d.NewAttempt(|store.attempts|, event, channel, reply.startedAt);
      Send(d, store.(attempts := store.attempts + [a]), a, reply)
  }

  /** `DeliverAlertEvent` over the channels it listed. */
  function DeliverAll(d: Dispatcher, store: Store, event: string, channels: seq<string>, replies: nat -> Reply): Store {
    if channels == [] then store
    else
      var n := |channels| - 1;
      DeliverOne(d, DeliverAll(d, store, event, channels[..n], replies), event, channels[n], replies(n))
  }

  // ---- The retry batch ----

  /** The time the selection orders by. */
  function Due(a: Attempt): int {
    if a.nextRetryAt.Some? then a.nextRetryAt.value
    else if a.failedAt.Some? then a.failedAt.value
    else if a.attemptedAt.Some? then a.attemptedAt.value
    else a.createdAt
  }

  /** The selection's ORDER BY. */
  predicate Before(a: Attempt, b: Attempt) {
    Due(a) < Due(b) || (Due(a) == Due(b) && (a.createdAt < b.createdAt || (a.createdAt == b.createdAt && a.uuid < b.uuid)))
  }

  predicate Retryable(a: Attempt, now: int, enabled: set<string>) {
    a.status == Failed && !a.exhausted && a.channel in enabled && Due(a) <= now
  }

  /** A row whose counters are right is due for a retry exactly when it has a next retry, that time has come,
      and its channel is enabled. */
  lemma RetryableIff(a: Attempt, sends: nat, limit: int, now: int, enabled: set<string>)
    requires AttemptOk(a, sends, limit)
    ensures Retryable(a, now, enabled) <==>
      a.status == Failed && a.nextRetryAt.Some? && a.nextRetryAt.value <= now && a.channel in enabled
  {
  }

  function RetryableAt(now: int, enabled: set<string>): Attempt -> bool {
    a => Retryable(a, now, enabled)
  }

  function BatchLimit(limit: int): (n: nat)
    ensures 1 <= n <= 100
    ensures 1 <= limit <= 100 ==> n == limit
  {
    if limit <= 0 || limit > 100 then 25 else limit
  }

  /** `listRetryableAlertDeliveryAttemptsSQL`. */
  function Candidates(store: Store, now: int, limit: int): (r: seq<Attempt>)
    ensures |r| <= BatchLimit(limit)
  {
    var due := Sort(Before, Filter(RetryableAt(now, store.enabled), store.attempts));
    if |due| <= BatchLimit(limit) then due else due[..BatchLimit(limit)]
  }

  /** Rows the update can find. */
  predicate Known(store: Store, candidates: seq<Attempt>) {
    forall i :: 0 <= i < |candidates| ==> candidates[i].id < |store.attempts|
  }

  function RetryAll(d: Dispatcher, store: Store, candidates: seq<Attempt>, replies: nat -> Reply): (r: Store)
    requires Known(store, candidates)
    ensures |r.attempts| == |store.attempts| && r.enabled == store.enabled
  {
    if candidates == [] then store
    else
      var n := |candidates| - 1;
      Send(d, RetryAll(d, store, candidates[..n], replies), candidates[n], replies(n))
  }

  ghost predicate Numbered(store: Store) {
    forall i :: 0 <= i < |store.attempts| ==> store.attempts[i].id == i
  }

  lemma CandidatesAreRows(store: Store, now: int, limit: int)
    requires Numbered(store)
    ensures Known(store, Candidates(store, now, limit))
    ensures forall i :: 0 <= i < |Candidates(store, now, limit)| ==>
              var c := Candidates(store, now, limit)[i];
              && Retryable(c, now, store.enabled) && c.id < |store.attempts| && store.attempts[c.id] == c
              && c.status == Failed && !c.exhausted && c.channel in store.enabled
              && (c.nextRetryAt.Some? ==> c.nextRetryAt.value <= now)
  {
    var found := Filter(RetryableAt(now, store.enabled), store.attempts);
    SortIsPermutation(Before, found);
    var c := Candidates(store, now, limit);
    forall i | 0 <= i < |c|
      ensures Retryable(c[i], now, store.enabled) && c[i].id < |store.attempts| && store.attempts[c[i].id] == c[i]
    {
      assert c[i] in Sort(Before, found);
      assert c[i] in store.attempts;
    }
  }

  /** One `RunBatch` of the retry service. */
  function RunBatch(d: Dispatcher, store: Store, now: int, limit: int, replies: nat -> Reply): Store
    requires Numbered(store)
  {
    CandidatesAreRows(store, now, limit);
    RetryAll(d, store, Candidates(store, now, limit), replies)
  }

  // ---- Whole runs ----

  /** What happens to the tables, one after the other: an event is delivered, a retry batch runs,
      an owner switches a channel. */
  datatype Step =
    | Deliver(event: string, channels: seq<string>, replies: nat -> Reply)
    | Batch(now: int, limit: int, replies: nat -> Reply)
    | Toggle(channel: string, on: bool)

  function Take(d: Dispatcher, store: Store, step: Step): Store
    requires Numbered(store)
  {
    match step
    case Deliver(event, channels, replies) => DeliverAll(d, store, event, channels, replies)
    case Batch(now, limit, replies) => RunBatch(d, store, now, limit, replies)
    case Toggle(channel, on) =>
      store.(enabled := if on then store.enabled + {channel} else store.enabled - {channel})
  }

  datatype DeliveryReport = DeliveryReport(matched: nat, created: nat, delivered: nat, failed: nat, deduped: nat)
  datatype RetryResult = Retried | Requeued | Exhausted
  datatype BatchReport = BatchReport(found: nat, processed: nat, delivered: nat, requeued: nat, exhausted: nat)

  /** How a retry of `a` ends. */
  function ResultOf(d: Dispatcher, a: Attempt, reply: Reply): RetryResult {
    if reply.ok then Retried else if a.retryCount + 1 >= d.Limit() then Exhausted else Requeued
  }

  /** The report after one more retry. */
  function WithResult(report: BatchReport, result: RetryResult): BatchReport {
    BatchReport(report.found, report.processed + 1,
                report.delivered + if result == Retried then 1 else 0,
                report.requeued + if result == Requeued then 1 else 0,
                report.exhausted + if result == Exhausted then 1 else 0)
  }

  /** The first `n` retries that ended so. */
  function Endings(d: Dispatcher, candidates: seq<Attempt>, replies: nat -> Reply, n: nat, result: RetryResult): set<nat>
    requires n <= |candidates|
  {
    set m: nat | 0 <= m < n && ResultOf(d, candidates[m], replies(m)) == result
  }

  lemma EndingsNext(d: Dispatcher, candidates: seq<Attempt>, replies: nat -> Reply, n: nat, result: RetryResult)
    requires n < |candidates|
    ensures |Endings(d, candidates, replies, n + 1, result)|
            == |Endings(d, candidates, replies, n, result)| + if ResultOf(d, candidates[n], replies(n)) == result then 1 else 0
  {
    var now := Endings(d, candidates, replies, n, result);
    assert Endings(d, candidates, replies, n + 1, result)
           == if ResultOf(d, candidates[n], replies(n)) == result then now + {n} else now;
  }

  /** The report of a batch: the retries that were accepted, those that were not with failures to spare, and
      those that used up the last one. */
  ghost predicate Counts(limit: int, candidates: seq<Attempt>, replies: nat -> Reply, report: BatchReport) {
    && report.found == report.processed == |candidates|
    && report.delivered == |set m: nat | 0 <= m < |candidates| && replies(m).ok|
    && report.requeued == |set m: nat | 0 <= m < |candidates| && !replies(m).ok && candidates[m].retryCount + 1 < limit|
    && report.exhausted == |set m: nat | 0 <= m < |candidates| && !replies(m).ok && candidates[m].retryCount + 1 >= limit|
  }

  lemma EndingsCount(d: Dispatcher, candidates: seq<Attempt>, replies: nat -> Reply, report: BatchReport)
    requires report.found == report.processed == |candidates|
    requires report.delivered == |Endings(d, candidates, replies, |candidates|, Retried)|
    requires report.requeued == |Endings(d, candidates, replies, |candidates|, Requeued)|
    requires report.exhausted == |Endings(d, candidates, replies, |candidates|, Exhausted)|
    ensures Counts(d.Limit(), candidates, replies, report)
  {
    var n := |candidates|;
    assert Endings(d, candidates, replies, n, Retried) == set m: nat | 0 <= m < n && replies(m).ok;
    assert Endings(d, candidates, replies, n, Requeued)
           == set m: nat | 0 <= m < n && !replies(m).ok && candidates[m].retryCount + 1 < d.Limit();
    assert Endings(d, candidates, replies, n, Exhausted)
           == set m: nat | 0 <= m < n && !replies(m).ok && candidates[m].retryCount + 1 >= d.Limit();
  }

  // ---- The report of a dispatch ----

  /** The channel is not earlier in the list, and has no attempt for the event yet. */
  predicate IsNew(attempts: seq<Attempt>, event: string, channels: seq<string>, n: nat)
    requires n < |channels|
  {
    && (forall m :: 0 <= m < n ==> channels[m] != channels[n])
    && forall i :: 0 <= i < |attempts| ==> attempts[i].event != event || attempts[i].channel != channels[n]
  }

  /** Which of the first `n` channels are new and get this answer. */
  function Answered(attempts: seq<Attempt>, event: string, channels: seq<string>, replies: nat -> Reply, n: nat, ok: bool): set<nat>
    requires n <= |channels|
  {
    set m: nat | 0 <= m < n && IsNew(attempts, event, channels, m) && replies(m).ok == ok
  }

  lemma AnsweredNext(attempts: seq<Attempt>, event: string, channels: seq<string>, replies: nat -> Reply, n: nat, ok: bool)
    requires n < |channels|
    ensures |Answered(attempts, event, channels, replies, n + 1, ok)| == |Answered(attempts, event, channels, replies, n, ok)|
            + if IsNew(attempts, event, channels, n) && replies(n).ok == ok then 1 else 0
  {
    var now := Answered(attempts, event, channels, replies, n, ok);
    assert Answered(attempts, event, channels, replies, n + 1, ok)
           == if IsNew(attempts, event, channels, n) && replies(n).ok == ok then now + {n} else now;
  }

  /** The channels that have an attempt for the event after the first `n` channels were seen to. */
  ghost predicate Covered(before: seq<Attempt>, event: string, channels: seq<string>, n: nat, after: seq<Attempt>)
    requires n <= |channels|
  {
    forall c :: Exists(after, event, c) <==> Exists(before, event, c) || exists m :: 0 <= m < n && channels[m] == c
  }

  lemma NewIffNotCovered(before: seq<Attempt>, event: string, channels: seq<string>, n: nat, after: seq<Attempt>)
    requires n < |channels| && Covered(before, event, channels, n, after)
    ensures IsNew(before, event, channels, n) <==> !Exists(after, event, channels[n])
  {
  }

  /** A row of the event for each new channel, with its answer. */
  ghost predicate RowsAnswer(before: seq<Attempt>, event: string, channels: seq<string>, replies: nat -> Reply, n: nat, after: seq<Attempt>)
    requires n <= |channels|
  {
    && |before| <= |after| && after[..|before|] == before
    && forall m :: 0 <= m < n && IsNew(before, event, channels, m) ==> HasRow(after, |before|, event, channels[m], replies(m).ok)
  }

  lemma RowsNext(before: seq<Attempt>, event: string, channels: seq<string>, replies: nat -> Reply, n: nat,
                 so: seq<Attempt>, after: seq<Attempt>)
    requires n < |channels| && Covered(before, event, channels, n, so) && RowsAnswer(before, event, channels, replies, n, so)
    requires if Exists(so, event, channels[n]) then after == so
             else
               && |after| == |so| + 1 && after[..|so|] == so && after[|so|].event == event && after[|so|].channel == channels[n]
               && after[|so|].status == if replies(n).ok then Delivered else Failed
    ensures Covered(before, event, channels, n + 1, after) && RowsAnswer(before, event, channels, replies, n + 1, after)
  {
    NewIffNotCovered(before, event, channels, n, so);
    if !Exists(so, event, channels[n]) {
      assert forall i :: 0 <= i < |so| ==> after[i] == so[i];
      forall m | 0 <= m < n && IsNew(before, event, channels, m) ensures HasRow(after, |before|, event, channels[m], replies(m).ok) {
        assert HasRow(so, |before|, event, channels[m], replies(m).ok);
      }
      forall c ensures Exists(after, event, c) <==> Exists(so, event, c) || c == channels[n] {
        if Exists(so, event, c) {
          var i :| 0 <= i < |so| && so[i].event == event && so[i].channel == c;
          assert after[i] == so[i];
        }
      }
    }
  }

  predicate HasRow(attempts: seq<Attempt>, from: nat, event: string, channel: string, ok: bool) {
    exists i :: from <= i < |attempts| && attempts[i].event == event && attempts[i].channel == channel
                && attempts[i].status == if ok then Delivered else Failed
  }

  /** The dispatcher and the retry service over one store. */
  class DeliveryService {
    const d: Dispatcher
    var attempts: seq<Attempt>
    var sent: seq<nat>
    var enabled: set<string>

    function World(): Store
      reads this
    {
      Store(attempts, sent, enabled)
    }

    constructor (d: Dispatcher, enabled: set<string>)
      ensures this.d == d && World() == Store([], [], enabled)
    {
      this.d := d;
      this.attempts, this.sent, this.enabled := [], [], enabled;
    }

    /** `CreateAlertDeliveryAttempt`: insert, or nothing when the delivery key exists. */
    method Create(event: string, channel: string, at: int) returns (created: Option<Attempt>)
      modifies `attempts
      ensures created.None? <==> Exists(old(attempts), event, channel)
      ensures created.None? ==> attempts == old(attempts)
      ensures created.Some? ==> created.value == d.NewAttempt(|old(attempts)|, event, channel, at)
                                && attempts == old(attempts) + [created.value]
    {
      if exists i :: 0 <= i < |attempts| && attempts[i].event == event && attempts[i].channel == channel {
        return None;
      }
      var a := d.NewAttempt(|attempts|, event, channel, at);
      attempts := attempts + [a];
      return Some(a);
    }

    /** `buildAlertDeliveryAttemptUpdate`: the row's new contents, field by field. A row whose counters are
        right before a send has the right ones after it, and the next retry waits the capped doubling. */
    method BuildUpdate(a: Attempt, reply: Reply) returns (update: Attempt)
      requires d.Base() < RetryDelay.TWO_63
      ensures update == d.Updated(a, reply)
      ensures forall sends: nat :: AttemptOk(a, sends, d.Limit()) && Open(a) ==> AttemptOk(update, sends + 1, d.Limit())
      ensures update.status == (if reply.ok then Delivered else Failed) && update.attemptedAt == Some(reply.at)
      ensures update.(status := a.status, retryCount := a.retryCount, exhausted := a.exhausted, nextRetryAt := a.nextRetryAt,
                      attemptedAt := a.attemptedAt, failedAt := a.failedAt) == a
      ensures !reply.ok ==> update.failedAt == Some(reply.at) && (update.exhausted <==> a.retryCount + 1 >= d.Limit())
      ensures DelaysProperly(d) && update.nextRetryAt.Some? ==>
        var next := update.nextRetryAt.value;
        && !reply.ok && !update.exhausted && next % SECOND == 0
        && next <= reply.at + RetryDelay.Capped(d.Base(), RetryDelay.HOUR, update.retryCount) < next + SECOND
    {
      update := a.(attemptedAt := Some(reply.at));
      if reply.ok {
        update := update.(status := Delivered, exhausted := false, nextRetryAt := None, failedAt := None);
      } else {
        var retryCount := a.retryCount + 1;
        update := update.(status := Failed, retryCount := retryCount, failedAt := Some(reply.at));
        if retryCount >= d.Limit() {
          update := update.(exhausted := true, nextRetryAt := None);
        } else {
          var backoff := RetryDelay.DeliveryRetryBackoff(d.Base(), retryCount);
          update := update.(exhausted := false, nextRetryAt := Some(AlertDispatch.Truncate(reply.at + backoff, SECOND)));
          if DelaysProperly(d) {
            NextRetryWaitsCapped(d, a, reply);
          }
        }
      }
      forall sends: nat | AttemptOk(a, sends, d.Limit()) && Open(a) ensures AttemptOk(update, sends + 1, d.Limit()) {
        UpdateKeepsCounters(d, a, sends, reply);
      }
    }

    /** `deliverThroughChannel` and `UpdateAlertDeliveryAttempt`, from the row as it was read. */
    method SendAndUpdate(a: Attempt, reply: Reply) returns (updated: Attempt)
      requires a.id < |attempts| && d.Base() < RetryDelay.TWO_63
      modifies `attempts, `sent
      ensures World() == Send(d, old(World()), a, reply)
      ensures updated == d.Updated(a, reply)
    {
      sent := sent + [a.id];
      updated := BuildUpdate(a, reply);
      attempts := attempts[a.id := updated];
    }

    /** One channel: its attempt is made and sent, unless there is one; `accepted` is the sender's answer. */
    method DeliverThrough(event: string, channel: string, reply: Reply) returns (accepted: Option<bool>)
      requires d.Base() < RetryDelay.TWO_63
      modifies `attempts, `sent
      ensures World() == DeliverOne(d, old(World()), event, channel, reply)
      ensures accepted == if Exists(old(attempts), event, channel) then None else Some(reply.ok)
      ensures accepted.None? ==> attempts == old(attempts) && sent == old(sent)
      ensures accepted.Some? ==>
        && |attempts| == |old(attempts)| + 1 && attempts[..|old(attempts)|] == old(attempts) && |sent| == |old(sent)| + 1
        && var a := attempts[|old(attempts)|];
           a.event == event && a.channel == channel && a.status == if reply.ok then Delivered else Failed
    {
      var created := Create(event, channel, reply.startedAt);
      if created.None? {
        return None;
      }
      var updated := SendAndUpdate(created.value, reply);
      return Some(updated.status == Delivered);
    }

    /** `DeliverAlertEvent` over the owner's enabled channels. */
    method DeliverAlertEvent(event: string, channels: seq<string>, replies: nat -> Reply) returns (report: DeliveryReport)
      requires d.Base() < RetryDelay.TWO_63
      modifies `attempts, `sent
      ensures World() == DeliverAll(d, old(World()), event, channels, replies)
      // Each channel that is new counts by its sender's answer, and has a row with that answer.
      ensures report.delivered == |Answered(old(attempts), event, channels, replies, |channels|, true)|
      ensures report.failed == |Answered(old(attempts), event, channels, replies, |channels|, false)|
      ensures RowsAnswer(old(attempts), event, channels, replies, |channels|, attempts)
      ensures report.matched == |channels| == report.created + report.deduped
      ensures report.created == report.delivered + report.failed
      ensures |attempts| == |old(attempts)| + report.created && |sent| == |old(sent)| + report.created
    {
      report := DeliveryReport(|channels|, 0, 0, 0, 0);
      for n := 0 to |channels|
        invariant World() == DeliverAll(d, old(World()), event, channels[..n], replies)
        invariant report.delivered == |Answered(old(attempts), event, channels, replies, n, true)|
        invariant report.failed == |Answered(old(attempts), event, channels, replies, n, false)|
        invariant Covered(old(attempts), event, channels, n, attempts)
        invariant RowsAnswer(old(attempts), event, channels, replies, n, attempts)
        invariant report.matched == |channels| && n == report.created + report.deduped
        invariant report.created == report.delivered + report.failed
        invariant |attempts| == |old(attempts)| + report.created && |sent| == |old(sent)| + report.created
      {
        assert channels[..n + 1][..n] == channels[..n];
        NewIffNotCovered(old(attempts), event, channels, n, attempts);
        AnsweredNext(old(attempts), event, channels, replies, n, true);
        AnsweredNext(old(attempts), event, channels, replies, n, false);
        ghost var so := attempts;
        var accepted := DeliverThrough(event, channels[n], replies(n));
        RowsNext(old(attempts), event, channels, replies, n, so, attempts);
        if accepted.None? {
          report := report.(deduped := report.deduped + 1);
          continue;
        }
        report := report.(created := report.created + 1);
        if accepted.value {
          report := report.(delivered := report.delivered + 1);
        } else {
          report := report.(failed := report.failed + 1);
        }
      }
      assert channels[..|channels|] == channels;
    }

    /** `RetryAlertDeliveryAttempt`. */
    method Retry(candidate: Attempt, reply: Reply) returns (result: RetryResult)
      requires candidate.id < |attempts| && d.Base() < RetryDelay.TWO_63
      modifies `attempts, `sent
      ensures World() == Send(d, old(World()), candidate, reply)
      ensures result == ResultOf(d, candidate, reply)
      ensures result == Retried <==> reply.ok
      ensures result == Exhausted <==> !reply.ok && candidate.retryCount + 1 >= d.Limit()
    {
      var updated := SendAndUpdate(candidate, reply);
      result := if updated.status == Delivered then Retried else if updated.exhausted then Exhausted else Requeued;
    }

    /** The loop over the candidates. */
    method RetryEach(candidates: seq<Attempt>, replies: nat -> Reply) returns (report: BatchReport)
      requires Known(World(), candidates) && d.Base() < RetryDelay.TWO_63
      modifies `attempts, `sent
      ensures World() == RetryAll(d, old(World()), candidates, replies)
      ensures Counts(d.Limit(), candidates, replies, report)
      ensures report.processed == report.delivered + report.requeued + report.exhausted
    {
      report := BatchReport(|candidates|, 0, 0, 0, 0);
      for n := 0 to |candidates|
        invariant |attempts| == |old(attempts)|
        invariant World() == RetryAll(d, old(World()), candidates[..n], replies)
        invariant report == BatchReport(|candidates|, n, |Endings(d, candidates, replies, n, Retried)|,
                                        |Endings(d, candidates, replies, n, Requeued)|, |Endings(d, candidates, replies, n, Exhausted)|)
        invariant n == report.delivered + report.requeued + report.exhausted
      {
        assert candidates[..n + 1][..n] == candidates[..n];
        var result := Retry(candidates[n], replies(n));
        EndingsNext(d, candidates, replies, n, Retried);
        EndingsNext(d, candidates, replies, n, Requeued);
        EndingsNext(d, candidates, replies, n, Exhausted);
        report := WithResult(report, result);
      }
      assert candidates[..|candidates|] == candidates;
      EndingsCount(d, candidates, replies, report);
    }

    /** `RunBatch`. */
    method RunRetryBatch(now: int, limit: int, replies: nat -> Reply) returns (report: BatchReport)
      requires Numbered(World()) && d.Base() < RetryDelay.TWO_63
      modifies `attempts, `sent
      ensures World() == RunBatch(d, old(World()), now, limit, replies)
      ensures Counts(d.Limit(), Candidates(old(World()), now, limit), replies, report)
      ensures report.processed == report.delivered + report.requeued + report.exhausted
    {
      CandidatesAreRows(World(), now, limit);
      report := RetryEach(Candidates(World(), now, limit), replies);
    }
  }
}
