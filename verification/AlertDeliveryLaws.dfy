/** The life of a delivery attempt over whole runs (apps/workers/delivery.go,
    packages/db/alert_delivery.go). */
module AlertDeliveryLaws {
  import opened Text
  import opened Sorting
  import opened AlertDelivery
  import RetryDelay
  import AlertDispatch

  /** How often attempt `id` went out. */
  function Sends(sent: seq<nat>, id: nat): nat {
    if sent == [] then 0
    else Sends(sent[..|sent| - 1], id) + if sent[|sent| - 1] == id then 1 else 0
  }

  lemma SendsAppend(sent: seq<nat>, last: nat, id: nat)
    ensures Sends(sent + [last], id) == Sends(sent, id) + if last == id then 1 else 0
  {
    assert (sent + [last])[..|sent|] == sent;
  }

  lemma {:induction false} SendsNone(sent: seq<nat>, id: nat)
    requires id !in sent
    ensures Sends(sent, id) == 0
  {
    if sent != [] {
      SendsNone(sent[..|sent| - 1], id);
    }
  }

  // ---- The invariant ----

  ghost predicate Injective(f: nat -> int) {
    forall i, j :: i != j ==> f(i) != f(j)
  }

  ghost predicate OnePerKey(attempts: seq<Attempt>) {
    forall i, j :: 0 <= i < j < |attempts| ==> attempts[i].event != attempts[j].event || attempts[i].channel != attempts[j].channel
  }

  ghost predicate Counted(d: Dispatcher, store: Store) {
    forall i: nat :: i < |store.attempts| ==> AttemptOk(store.attempts[i], Sends(store.sent, i), d.Limit())
  }

  ghost predicate Consistent(d: Dispatcher, store: Store) {
    && Numbered(store)
    && (forall i: nat :: i < |store.attempts| ==> store.attempts[i].uuid == d.uuid(i))
    && OnePerKey(store.attempts)
    && Counted(d, store)
    && (forall k :: 0 <= k < |store.sent| ==> store.sent[k] < |store.attempts|)
  }

  lemma SendKeepsCounted(d: Dispatcher, store: Store, a: Attempt, reply: Reply)
    requires Counted(d, store) && a.id < |store.attempts| && store.attempts[a.id] == a && Open(a)
    ensures Counted(d, Send(d, store, a, reply))
  {
    var after := Send(d, store, a, reply);
    forall i: nat | i < |after.attempts| ensures AttemptOk(after.attempts[i], Sends(after.sent, i), d.Limit()) {
      SendsAppend(store.sent, a.id, i);
      assert AttemptOk(store.attempts[i], Sends(store.sent, i), d.Limit());
      if i == a.id {
        UpdateKeepsCounters(d, a, Sends(store.sent, i), reply);
      }
    }
  }

  lemma SendKeeps(d: Dispatcher, store: Store, a: Attempt, reply: Reply)
    requires Consistent(d, store) && a.id < |store.attempts| && store.attempts[a.id] == a && Open(a)
    ensures Consistent(d, Send(d, store, a, reply))
  {
    SendKeepsCounted(d, store, a, reply);
    var u := d.Updated(a, reply);
    assert u.id == a.id && u.uuid == a.uuid && u.event == a.event && u.channel == a.channel;
  }

  lemma CreateKeeps(d: Dispatcher, store: Store, event: string, channel: string, at: int)
    requires Consistent(d, store) && !Exists(store.attempts, event, channel)
    ensures Consistent(d, store.(attempts := store.attempts + [d.NewAttempt(|store.attempts|, event, channel, at)]))
  {
    SendsNone(store.sent, |store.attempts|);
  }

  lemma DeliverOneKeeps(d: Dispatcher, store: Store, event: string, channel: string, reply: Reply)
    requires Consistent(d, store)
    ensures Consistent(d, DeliverOne(d, store, event, channel, reply))
  {
    if !Exists(store.attempts, event, channel) {
      var a := d.NewAttempt(|store.attempts|, event, channel, reply.startedAt);
      var created := store.(attempts := store.attempts + [a]);
      CreateKeeps(d, store, event, channel, reply.startedAt);
      SendKeeps(d, created, a, reply);
    }
  }

  lemma {:induction false} DeliverKeeps(d: Dispatcher, store: Store, event: string, channels: seq<string>, replies: nat -> Reply)
    requires Consistent(d, store)
    ensures Consistent(d, DeliverAll(d, store, event, channels, replies))
  {
    if channels != [] {
      var n := |channels| - 1;
      DeliverKeeps(d, store, event, channels[..n], replies);
      DeliverOneKeeps(d, DeliverAll(d, store, event, channels[..n], replies), event, channels[n], replies(n));
    }
  }

  // ---- The selection ----

  lemma BeforeIsStrict()
    ensures StrictOrder(Before)
  {
  }

  ghost predicate DistinctIds(candidates: seq<Attempt>) {
    forall i, j :: 0 <= i < j < |candidates| ==> candidates[i].id != candidates[j].id
  }

  lemma DueListIsSorted(d: Dispatcher, store: Store, now: int)
    requires Consistent(d, store) && Injective(d.uuid)
    ensures Sorted(Before, Sort(Before, Filter(RetryableAt(now, store.enabled), store.attempts)))
    ensures DistinctIds(Sort(Before, Filter(RetryableAt(now, store.enabled), store.attempts)))
  {
    var p := RetryableAt(now, store.enabled);
    var found := Filter(p, store.attempts);
    FilterKeepsDistinct(p, store.attempts);
    forall i, j | 0 <= i < j < |found| ensures Before(found[i], found[j]) || Before(found[j], found[i]) {
      assert found[i] in store.attempts && found[j] in store.attempts;
      assert found[i].uuid == d.uuid(found[i].id) && found[j].uuid == d.uuid(found[j].id);
    }
    BeforeIsStrict();
    SortIsSorted(Before, found);
    SortIsPermutation(Before, found);
    var due := Sort(Before, found);
    forall i, j | 0 <= i < j < |due| ensures due[i].id != due[j].id {
      assert due[i] in store.attempts && due[j] in store.attempts;
      assert Before(due[i], due[j]);
    }
  }

  /** A due row is picked, or the batch is full of rows ordered ahead of it. */
  lemma PickedOrBehind(d: Dispatcher, store: Store, now: int, limit: int, f: Attempt)
    requires Consistent(d, store) && Injective(d.uuid)
    requires f in store.attempts && Retryable(f, now, store.enabled)
    ensures var c := Candidates(store, now, limit);
            f in c || (|c| == BatchLimit(limit) && forall i :: 0 <= i < |c| ==> Before(c[i], f))
  {
    var found := Filter(RetryableAt(now, store.enabled), store.attempts);
    var due := Sort(Before, found);
    DueListIsSorted(d, store, now);
    SortIsPermutation(Before, found);
    assert f in due;
    var k :| 0 <= k < |due| && due[k] == f;
    var c := Candidates(store, now, limit);
    if k < |c| {
      assert c[k] == f;
    } else {
      forall i | 0 <= i < |c| ensures Before(c[i], f) {
        assert c[i] == due[i] && Before(due[i], due[k]);
      }
    }
  }

  // ---- The batch ----

  /** The candidates are the rows as they stand, each once, and may still be sent. */
  ghost predicate Picked(store: Store, candidates: seq<Attempt>) {
    && DistinctIds(candidates)
    && forall i :: 0 <= i < |candidates| ==>
         candidates[i].id < |store.attempts| && store.attempts[candidates[i].id] == candidates[i] && Open(candidates[i])
  }

  lemma CandidatesArePicked(d: Dispatcher, store: Store, now: int, limit: int)
    requires Consistent(d, store) && Injective(d.uuid)
    ensures Picked(store, Candidates(store, now, limit))
  {
    CandidatesAreRows(store, now, limit);
    DueListIsSorted(d, store, now);
  }

  lemma {:induction false} RetryAllRows(d: Dispatcher, store: Store, candidates: seq<Attempt>, replies: nat -> Reply)
    requires Known(store, candidates) && DistinctIds(candidates)
    ensures var after := RetryAll(d, store, candidates, replies);
            && (forall i :: 0 <= i < |candidates| ==> after.attempts[candidates[i].id] == d.Updated(candidates[i], replies(i)))
            && (forall r: nat :: r < |store.attempts| && (forall i :: 0 <= i < |candidates| ==> candidates[i].id != r)
                  ==> after.attempts[r] == store.attempts[r])
  {
    if candidates != [] {
      RetryAllRows(d, store, candidates[..|candidates| - 1], replies);
    }
  }

  /** Each candidate's row is updated from its own reply, after one send; no other row is touched. */
  lemma {:induction false} RetryAllKeeps(d: Dispatcher, store: Store, candidates: seq<Attempt>, replies: nat -> Reply)
    requires Consistent(d, store) && Picked(store, candidates)
    ensures var after := RetryAll(d, store, candidates, replies);
            && Consistent(d, after)
            && (forall i :: 0 <= i < |candidates| ==> after.attempts[candidates[i].id] == d.Updated(candidates[i], replies(i)))
            && (forall r: nat :: r < |store.attempts| && (forall i :: 0 <= i < |candidates| ==> candidates[i].id != r)
                  ==> after.attempts[r] == store.attempts[r])
  {
    RetryAllRows(d, store, candidates, replies);
    RetryAllIsConsistent(d, store, candidates, replies);
  }

  lemma {:induction false} RetryAllIsConsistent(d: Dispatcher, store: Store, candidates: seq<Attempt>, replies: nat -> Reply)
    requires Consistent(d, store) && Picked(store, candidates)
    ensures Consistent(d, RetryAll(d, store, candidates, replies))
  {
    if candidates != [] {
      var n := |candidates| - 1;
      RetryAllIsConsistent(d, store, candidates[..n], replies);
      RetryAllRows(d, store, candidates[..n], replies);
      SendKeeps(d, RetryAll(d, store, candidates[..n], replies), candidates[n], replies(n));
    }
  }

  lemma StepKeeps(d: Dispatcher, store: Store, step: Step)
    requires Consistent(d, store) && Injective(d.uuid)
    ensures Consistent(d, Take(d, store, step))
  {
    match step
    case Deliver(event, channels, replies) => DeliverKeeps(d, store, event, channels, replies);
    case Batch(now, limit, replies) =>
      CandidatesArePicked(d, store, now, limit);
      RetryAllKeeps(d, store, Candidates(store, now, limit), replies);
    case Toggle(channel, on) =>
  }

  // ---- Whole runs ----

  ghost function Run(d: Dispatcher, store: Store, steps: seq<Step>): (r: Store)
    requires Consistent(d, store) && Injective(d.uuid)
    ensures Consistent(d, r)
  {
    if steps == [] then store
    else
      var before := Run(d, store, steps[..|steps| - 1]);
      StepKeeps(d, before, steps[|steps| - 1]);
      Take(d, before, steps[|steps| - 1])
  }

  /** The tables before anything was delivered. */
  function Fresh(enabled: set<string>): Store { Store([], [], enabled) }

  /** Safety of every run: one attempt per event and channel, never more sends than the retry limit,
      exhausted exactly when that many failures are recorded, and one delivery at most. */
  lemma RunIsSafe(d: Dispatcher, enabled: set<string>, steps: seq<Step>)
    requires Injective(d.uuid)
    ensures Consistent(d, Fresh(enabled))
    ensures var after := Run(d, Fresh(enabled), steps);
            && OnePerKey(after.attempts)
            && forall i: nat :: i < |after.attempts| ==>
                 var a := after.attempts[i];
                 && Sends(after.sent, i) <= d.Limit()
                 && (a.exhausted <==> a.status == Failed && a.retryCount == d.Limit())
                 && Sends(after.sent, i) == a.retryCount + if a.status == Delivered then 1 else 0
  {
    var after := Run(d, Fresh(enabled), steps);
    forall i: nat | i < |after.attempts| ensures AttemptOk(after.attempts[i], Sends(after.sent, i), d.Limit()) {
    }
  }

  /** What one step may do to a row: leave it and its sends alone, or send it once; only an open row
      is sent, and then it is delivered or one failure closer to the limit. */
  ghost predicate RowAdvances(before: Store, after: Store, r: nat)
    requires r < |before.attempts| <= |after.attempts|
  {
    || (after.attempts[r] == before.attempts[r] && Sends(after.sent, r) == Sends(before.sent, r))
    || (&& Open(before.attempts[r])
        && Sends(after.sent, r) == Sends(before.sent, r) + 1
        && (after.attempts[r].status == Delivered
            || (after.attempts[r].status == Failed && after.attempts[r].retryCount == before.attempts[r].retryCount + 1)))
  }

  lemma {:induction false} DeliverLeavesRows(d: Dispatcher, store: Store, event: string, channels: seq<string>, replies: nat -> Reply)
    ensures var after := DeliverAll(d, store, event, channels, replies);
            && |store.attempts| <= |after.attempts| && after.enabled == store.enabled
            && forall r: nat :: r < |store.attempts| ==>
                 after.attempts[r] == store.attempts[r] && Sends(after.sent, r) == Sends(store.sent, r)
  {
    if channels != [] {
      var n := |channels| - 1;
      DeliverLeavesRows(d, store, event, channels[..n], replies);
      var mid := DeliverAll(d, store, event, channels[..n], replies);
      forall r: nat | r < |store.attempts| ensures Sends(mid.sent + [|mid.attempts|], r) == Sends(mid.sent, r) {
        SendsAppend(mid.sent, |mid.attempts|, r);
      }
    }
  }

  ghost predicate Names(candidates: seq<Attempt>, r: nat) {
    exists i :: 0 <= i < |candidates| && candidates[i].id == r
  }

  lemma NamesLast(candidates: seq<Attempt>, r: nat)
    requires candidates != [] && DistinctIds(candidates)
    ensures var n := |candidates| - 1;
            && (Names(candidates, r) <==> Names(candidates[..n], r) || candidates[n].id == r)
            && !(Names(candidates[..n], r) && candidates[n].id == r)
  {
    var n := |candidates| - 1;
    if i :| 0 <= i < n && candidates[i].id == r {
      assert candidates[..n][i].id == r;
    }
  }

  lemma {:induction false} RetrySendsNamed(d: Dispatcher, store: Store, candidates: seq<Attempt>, replies: nat -> Reply, r: nat)
    requires Known(store, candidates) && DistinctIds(candidates)
    ensures Sends(RetryAll(d, store, candidates, replies).sent, r)
            == Sends(store.sent, r) + if Names(candidates, r) then 1 else 0
  {
    if candidates != [] {
      var n := |candidates| - 1;
      RetrySendsNamed(d, store, candidates[..n], replies, r);
      SendsAppend(RetryAll(d, store, candidates[..n], replies).sent, candidates[n].id, r);
      NamesLast(candidates, r);
    }
  }

  /** Delivered and exhausted rows are never touched again, and an open row's remaining failures only shrink. */
  lemma StepAdvancesRows(d: Dispatcher, store: Store, step: Step, r: nat)
    requires Consistent(d, store) && Injective(d.uuid) && r < |store.attempts|
    ensures |store.attempts| <= |Take(d, store, step).attempts| && RowAdvances(store, Take(d, store, step), r)
  {
    match step
    case Deliver(event, channels, replies) => DeliverLeavesRows(d, store, event, channels, replies);
    case Batch(now, limit, replies) =>
      var c := Candidates(store, now, limit);
      CandidatesArePicked(d, store, now, limit);
      RetryAllKeeps(d, store, c, replies);
      RetrySendsNamed(d, store, c, replies, r);
    case Toggle(channel, on) =>
  }

  // ---- Bounded bypass ----

  /** The failed rows on these channels that the selection orders ahead of `f`. When `f` is due, so are they. */
  function Ahead(store: Store, f: Attempt, within: set<string>): set<nat> {
    set i: nat | i < |store.attempts| && store.attempts[i].status == Failed && !store.attempts[i].exhausted
                 && store.attempts[i].channel in within && Before(store.attempts[i], f)
  }

  /** With the channels as they are, these are exactly the rows a batch would take before `f`. */
  lemma AheadAreDue(store: Store, now: int, f: Attempt, i: nat)
    requires i < |store.attempts| && Retryable(f, now, store.enabled)
    ensures i in Ahead(store, f, store.enabled) <==>
      Retryable(store.attempts[i], now, store.enabled) && Before(store.attempts[i], f)
  {
  }

  lemma BackoffIsASecond(d: Dispatcher, retries: int)
    requires DelaysProperly(d)
    ensures d.Backoff(retries) >= SECOND
  {
    if retries >= 2 {
      RetryDelay.SmallDelaysNeverOverflow(d.Base(), RetryDelay.HOUR);
      assert d.Base() * RetryDelay.Pow2(0) == d.Base();
      RetryDelay.LoopComputesCapped(d.Base(), RetryDelay.HOUR, 0, retries - 1);
      RetryDelay.ScaledMonotone(d.Base(), 0, retries - 1);
    }
  }

  /** A row that fails again, or fails for the first time, goes behind everything already due. */
  lemma FailingGoesBehind(d: Dispatcher, a: Attempt, reply: Reply, f: Attempt)
    requires DelaysProperly(d) && reply.at >= Due(f)
    ensures var u := d.Updated(a, reply); !(u.status == Failed && !u.exhausted && Before(u, f))
  {
    BackoffIsASecond(d, a.retryCount + 1);
  }

  lemma {:induction false} DeliverPutsNothingAhead(d: Dispatcher, store: Store, event: string, channels: seq<string>,
                                                   replies: nat -> Reply, f: Attempt, within: set<string>)
    requires DelaysProperly(d) && forall i :: replies(i).at >= Due(f)
    ensures Ahead(DeliverAll(d, store, event, channels, replies), f, within) <= Ahead(store, f, within)
  {
    if channels != [] {
      var n := |channels| - 1;
      DeliverPutsNothingAhead(d, store, event, channels[..n], replies, f, within);
      var mid := DeliverAll(d, store, event, channels[..n], replies);
      var a := d.NewAttempt(|mid.attempts|, event, channels[n], replies(n).startedAt);
      FailingGoesBehind(d, a, replies(n), f);
      assert Ahead(DeliverOne(d, mid, event, channels[n], replies(n)), f, within) <= Ahead(mid, f, within);
    }
  }

  lemma {:induction false} IdsOf(candidates: seq<Attempt>) returns (ids: set<nat>)
    requires DistinctIds(candidates)
    ensures |ids| == |candidates|
    ensures forall r: nat :: r in ids <==> Names(candidates, r)
  {
    ids := {};
    if candidates != [] {
      var n := |candidates| - 1;
      ids := IdsOf(candidates[..n]);
      forall r: nat ensures r in ids + {candidates[n].id} <==> Names(candidates, r) {
        NamesLast(candidates, r);
      }
      NamesLast(candidates, candidates[n].id);
      ids := ids + {candidates[n].id};
    }
  }

  /** Rows ahead of `f` that a batch sends are ahead no more, and no row gets ahead. */
  lemma RetriedLeavesAhead(d: Dispatcher, store: Store, candidates: seq<Attempt>, replies: nat -> Reply, f: Attempt, within: set<string>, r: nat)
    requires Consistent(d, store) && Picked(store, candidates) && DelaysProperly(d)
    requires forall i :: replies(i).at >= Due(f)
    requires r in Ahead(RetryAll(d, store, candidates, replies), f, within)
    ensures r in Ahead(store, f, within) && !Names(candidates, r)
  {
    RetryAllKeeps(d, store, candidates, replies);
    if i :| 0 <= i < |candidates| && candidates[i].id == r {
      FailingGoesBehind(d, candidates[i], replies(i), f);
      assert false;
    }
  }

  /** A batch that runs when `f` is due sends it, or takes a full batch out of those ahead of it. */
  lemma BatchShrinksAhead(d: Dispatcher, store: Store, now: int, limit: int, replies: nat -> Reply, f: Attempt, within: set<string>)
    requires Consistent(d, store) && Injective(d.uuid) && DelaysProperly(d)
    requires f in store.attempts && Retryable(f, now, store.enabled) && store.enabled <= within
    requires forall i :: replies(i).at >= Due(f)
    ensures var after := RunBatch(d, store, now, limit, replies);
            || Sends(after.sent, f.id) == Sends(store.sent, f.id) + 1
            || (after.attempts[f.id] == f && |Ahead(after, f, within)| + BatchLimit(limit) <= |Ahead(store, f, within)|)
  {
    var c := Candidates(store, now, limit);
    var after := RunBatch(d, store, now, limit, replies);
    CandidatesArePicked(d, store, now, limit);
    RetrySendsNamed(d, store, c, replies, f.id);
    if !Names(c, f.id) {
      PickedOrBehind(d, store, now, limit, f);
      RetryAllKeeps(d, store, c, replies);
      var ids := IdsOf(c);
      CandidatesAreRows(store, now, limit);
      assert ids <= Ahead(store, f, within);
      forall r | r in Ahead(after, f, within) ensures r in Ahead(store, f, within) - ids {
        RetriedLeavesAhead(d, store, c, replies, f, within, r);
      }
      SubsetIsNoLarger(Ahead(after, f, within), Ahead(store, f, within) - ids);
    }
  }

  /** Time has passed `f`'s due time, its channel is not switched off, and none outside `within` is switched on. */
  ghost predicate Passes(step: Step, f: Attempt, within: set<string>) {
    match step
    case Deliver(event, channels, replies) => forall i :: replies(i).at >= Due(f)
    case Batch(now, limit, replies) => now >= Due(f) && forall i :: replies(i).at >= Due(f)
    case Toggle(channel, on) => if on then channel in within else channel != f.channel
  }

  /** How many attempts the run's batches have room for. */
  function Room(steps: seq<Step>): nat {
    if steps == [] then 0
    else
      Room(steps[..|steps| - 1])
      + match steps[|steps| - 1] { case Batch(now, limit, replies) => BatchLimit(limit) case Deliver(_, _, _) => 0 case Toggle(_, _) => 0 }
  }

  /** One step either sends `f` or leaves it, still enabled, with fewer rows ahead of it. */
  lemma StepShrinksAhead(d: Dispatcher, store: Store, step: Step, f: Attempt, within: set<string>)
    requires Consistent(d, store) && Injective(d.uuid) && DelaysProperly(d)
    requires f in store.attempts && f.status == Failed && !f.exhausted && f.channel in store.enabled && store.enabled <= within
    requires Passes(step, f, within)
    ensures var after := Take(d, store, step);
            || Sends(after.sent, f.id) > Sends(store.sent, f.id)
            || (&& f.id < |after.attempts| && after.attempts[f.id] == f && f.channel in after.enabled && after.enabled <= within
                && |Ahead(after, f, within)| + Room([step]) <= |Ahead(store, f, within)|)
  {
    assert [step][..0] == [];
    match step
    case Deliver(event, channels, replies) =>
      DeliverLeavesRows(d, store, event, channels, replies);
      DeliverPutsNothingAhead(d, store, event, channels, replies, f, within);
      SubsetIsNoLarger(Ahead(Take(d, store, step), f, within), Ahead(store, f, within));
    case Batch(now, limit, replies) => BatchShrinksAhead(d, store, now, limit, replies, f, within);
    case Toggle(channel, on) => assert Ahead(Take(d, store, step), f, within) == Ahead(store, f, within);
  }

  lemma {:induction false} RunShrinksAhead(d: Dispatcher, store: Store, steps: seq<Step>, f: Attempt, within: set<string>)
    requires Consistent(d, store) && Injective(d.uuid) && DelaysProperly(d)
    requires f in store.attempts && f.status == Failed && !f.exhausted && f.channel in store.enabled && store.enabled <= within
    requires forall i :: 0 <= i < |steps| ==> Passes(steps[i], f, within)
    ensures var after := Run(d, store, steps);
            && f.id < |after.attempts|
            && (|| Sends(after.sent, f.id) > Sends(store.sent, f.id)
                || (&& after.attempts[f.id] == f && f.channel in after.enabled && after.enabled <= within
                    && Sends(after.sent, f.id) == Sends(store.sent, f.id)
                    && |Ahead(after, f, within)| + Room(steps) <= |Ahead(store, f, within)|))
  {
    if steps != [] {
      var n := |steps| - 1;
      var before := Run(d, store, steps[..n]);
      RunShrinksAhead(d, store, steps[..n], f, within);
      StepAdvancesRows(d, before, steps[n], f.id);
      if Sends(before.sent, f.id) == Sends(store.sent, f.id) {
        StepShrinksAhead(d, before, steps[n], f, within);
        assert [steps[n]][..0] == [];
        assert Room([steps[n]]) + Room(steps[..n]) == Room(steps);
      }
    }
  }

  /** Bounded bypass: a due failed attempt is retried once the batches together have room for more
      attempts than were ordered ahead of it on the channels that are on at some time, whatever else is
      delivered, fails or is switched meanwhile. */
  lemma BoundedBypass(d: Dispatcher, store: Store, steps: seq<Step>, f: Attempt, within: set<string>)
    requires Consistent(d, store) && Injective(d.uuid) && DelaysProperly(d)
    requires f in store.attempts && f.status == Failed && !f.exhausted && f.channel in store.enabled && store.enabled <= within
    requires forall i :: 0 <= i < |steps| ==> Passes(steps[i], f, within)
    requires Room(steps) > |Ahead(store, f, within)|
    ensures Sends(Run(d, store, steps).sent, f.id) > Sends(store.sent, f.id)
  {
    RunShrinksAhead(d, store, steps, f, within);
  }

  function Batches(steps: seq<Step>, limit: int): nat {
    if steps == [] then 0
    else Batches(steps[..|steps| - 1], limit)
         + if steps[|steps| - 1].Batch? && steps[|steps| - 1].limit == limit then 1 else 0
  }

  lemma {:induction false} RoomOfEqualBatches(steps: seq<Step>, limit: int)
    ensures Room(steps) >= Batches(steps, limit) * BatchLimit(limit)
  {
    if steps != [] {
      RoomOfEqualBatches(steps[..|steps| - 1], limit);
    }
  }

  lemma RoomForAll(k: nat, limit: nat, batches: nat)
    requires limit >= 1 && batches >= k / limit + 1
    ensures batches * limit > k
  {
    RetryDelay.MulMonotone(limit, k / limit + 1, batches);
    assert limit * (k / limit) == k - k % limit;
  }

  /** With k rows ahead, the batch numbered k div limit + 1 is late enough. As long as no channel is
      switched on, `within` can be the enabled ones, and k counts what is due ahead and no more. */
  lemma RetriedByBatch(d: Dispatcher, store: Store, steps: seq<Step>, limit: int, f: Attempt, within: set<string>)
    requires Consistent(d, store) && Injective(d.uuid) && DelaysProperly(d)
    requires f in store.attempts && f.status == Failed && !f.exhausted && f.channel in store.enabled && store.enabled <= within
    requires forall i :: 0 <= i < |steps| ==> Passes(steps[i], f, within)
    requires Batches(steps, limit) >= |Ahead(store, f, within)| / BatchLimit(limit) + 1
    ensures Sends(Run(d, store, steps).sent, f.id) > Sends(store.sent, f.id)
  {
    RoomOfEqualBatches(steps, limit);
    RoomForAll(|Ahead(store, f, within)|, BatchLimit(limit), Batches(steps, limit));
    BoundedBypass(d, store, steps, f, within);
  }

  // ---- Overlapping batches ----

  /** An update of a row from a reading that was made when `readAfter` of the updates before it were done. */
  datatype Late = Late(readAfter: nat, reply: Reply)

  /** No reading comes after its own update, and each found the row open. */
  ghost predicate Readings(d: Dispatcher, a: Attempt, sends: seq<Late>)
    decreases |sends|, 0
  {
    sends == [] ||
    var n := |sends| - 1;
    Readings(d, a, sends[..n]) && sends[n].readAfter <= n && Open(Contents(d, a, sends[..n], sends[n].readAfter))
  }

  /** What the row holds after the first `k` of the updates. */
  ghost function Contents(d: Dispatcher, a: Attempt, sends: seq<Late>, k: nat): Attempt
    requires Readings(d, a, sends) && k <= |sends|
    decreases |sends|, k + 1
  {
    if sends == [] then a
    else
      var n := |sends| - 1;
      if k <= n then Contents(d, a, sends[..n], k)
      else d.Updated(Contents(d, a, sends[..n], sends[n].readAfter), sends[n].reply)
  }

  ghost function Overlap(d: Dispatcher, store: Store, a: Attempt, sends: seq<Late>): (r: Store)
    requires Readings(d, a, sends) && a.id < |store.attempts|
    ensures |r.attempts| == |store.attempts|
    decreases |sends|
  {
    if sends == [] then store
    else
      var n := |sends| - 1;
      ContentsKeepId(d, a, sends[..n], sends[n].readAfter);
      Send(d, Overlap(d, store, a, sends[..n]), Contents(d, a, sends[..n], sends[n].readAfter), sends[n].reply)
  }

  lemma {:induction false} ContentsKeepId(d: Dispatcher, a: Attempt, sends: seq<Late>, k: nat)
    requires Readings(d, a, sends) && k <= |sends|
    ensures Contents(d, a, sends, k).id == a.id
    decreases |sends|, k
  {
    if sends != [] {
      var n := |sends| - 1;
      ContentsKeepId(d, a, sends[..n], if k <= n then k else sends[n].readAfter);
    }
  }

  /** Each update is made from the row as the one before it left it. */
  predicate InTurn(sends: seq<Late>) {
    forall i :: 0 <= i < |sends| ==> sends[i].readAfter == i
  }

  /** The sends a row accounts for. */
  function Accounted(a: Attempt): nat {
    a.retryCount + if a.status == Delivered then 1 else 0
  }

  lemma InTurnLast(sends: seq<Late>)
    requires sends != []
    ensures var n := |sends| - 1; InTurn(sends) <==> InTurn(sends[..n]) && sends[n].readAfter == n
  {
    var n := |sends| - 1;
    assert forall i :: 0 <= i < n ==> sends[..n][i] == sends[i];
  }

  lemma {:induction false} AccountedAtMost(d: Dispatcher, a: Attempt, sends: seq<Late>, k: nat)
    requires Readings(d, a, sends) && Open(a) && k <= |sends|
    ensures Accounted(Contents(d, a, sends, k)) <= Accounted(a) + k
    ensures Accounted(Contents(d, a, sends, k)) == Accounted(a) + k <==> InTurn(sends[..k])
    decreases |sends|, k
  {
    if sends != [] {
      var n := |sends| - 1;
      if k <= n {
        AccountedAtMost(d, a, sends[..n], k);
        assert sends[..n][..k] == sends[..k];
      } else {
        var m := sends[n].readAfter;
        AccountedAtMost(d, a, sends[..n], m);
        InTurnLast(sends);
        assert sends[..k] == sends && (m == n ==> sends[..n][..m] == sends[..n]);
        assert Accounted(Contents(d, a, sends, k)) == Accounted(Contents(d, a, sends[..n], m)) + 1;
      }
    }
  }

  /** The row after the updates, its sends, and the other rows. */
  lemma {:induction false} OverlapIs(d: Dispatcher, store: Store, a: Attempt, sends: seq<Late>, r: nat)
    requires Readings(d, a, sends) && a.id < |store.attempts| && store.attempts[a.id] == a && r < |store.attempts|
    ensures var after := Overlap(d, store, a, sends);
            && after.attempts[r] == (if r == a.id then Contents(d, a, sends, |sends|) else store.attempts[r])
            && Sends(after.sent, r) == Sends(store.sent, r) + if r == a.id then |sends| else 0
    decreases |sends|
  {
    if sends != [] {
      var n := |sends| - 1;
      OverlapIs(d, store, a, sends[..n], r);
      ContentsKeepId(d, a, sends[..n], sends[n].readAfter);
      SendsAppend(Overlap(d, store, a, sends[..n]).sent, a.id, r);
    }
  }

  lemma {:induction false} InTurnKeepsCounters(d: Dispatcher, a: Attempt, sends: seq<Late>, before: nat)
    requires Readings(d, a, sends) && InTurn(sends) && AttemptOk(a, before, d.Limit())
    ensures AttemptOk(Contents(d, a, sends, |sends|), before + |sends|, d.Limit())
    decreases |sends|
  {
    if sends != [] {
      var n := |sends| - 1;
      InTurnKeepsCounters(d, a, sends[..n], before);
      UpdateKeepsCounters(d, Contents(d, a, sends[..n], n), before + n, sends[n].reply);
    }
  }

  /** However retries of a row overlap, its counters are right after them exactly when each was made from
      the row as the one before it left it. */
  lemma OverlapIsCountedIff(d: Dispatcher, store: Store, a: Attempt, sends: seq<Late>)
    requires Consistent(d, store) && a in store.attempts && Open(a) && Readings(d, a, sends)
    ensures Counted(d, Overlap(d, store, a, sends)) <==> InTurn(sends)
  {
    var after := Overlap(d, store, a, sends);
    assert AttemptOk(a, Sends(store.sent, a.id), d.Limit());
    OverlapIs(d, store, a, sends, a.id);
    AccountedAtMost(d, a, sends, |sends|);
    assert sends[..|sends|] == sends;
    if InTurn(sends) {
      InTurnKeepsCounters(d, a, sends, Sends(store.sent, a.id));
      forall i: nat | i < |after.attempts| ensures AttemptOk(after.attempts[i], Sends(after.sent, i), d.Limit()) {
        OverlapIs(d, store, a, sends, i);
        assert AttemptOk(store.attempts[i], Sends(store.sent, i), d.Limit());
      }
    } else {
      assert !AttemptOk(after.attempts[a.id], Sends(after.sent, a.id), d.Limit());
    }
  }

  /** Two batches that read one row before either updated it send it twice and lose a count, whatever the
      replies; the row says that it failed although it was delivered exactly when only the first went out. */
  lemma OverlappingBatchesLoseACount(d: Dispatcher, store: Store, a: Attempt, first: Reply, second: Reply)
    requires Consistent(d, store) && a in store.attempts && Open(a)
    ensures var once := Send(d, store, a, first);
            var after := Send(d, once, a, second);
            && Sends(after.sent, a.id) == Sends(store.sent, a.id) + 2
            && Accounted(after.attempts[a.id]) == Accounted(a) + 1
            && !Counted(d, after)
            && (once.attempts[a.id].status == Delivered && after.attempts[a.id].status == Failed <==> first.ok && !second.ok)
  {
    var once := Send(d, store, a, first);
    var after := Send(d, once, a, second);
    assert AttemptOk(store.attempts[a.id], Sends(store.sent, a.id), d.Limit());
    SendsAppend(store.sent, a.id, a.id);
    SendsAppend(once.sent, a.id, a.id);
    assert !AttemptOk(after.attempts[a.id], Sends(after.sent, a.id), d.Limit());
  }
}
