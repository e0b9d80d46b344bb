/** What a run of the drain does: which children an expansion enqueues, and which jobs a batch takes. */
module BackfillDrainLaws {
  import opened Text
  import opened BackfillQueue
  import opened BackfillQueueLaws
  import opened BackfillPolicy
  import opened BackfillDrain
  import opened Sorting
  import RetryDelay

  // ---- Expansion ----

  /** The plan's claim is not held, and no plan before it makes it. */
  predicate IsFree(plans: seq<Plan>, i: nat, claims: Claims)
    requires i < |plans|
  {
    plans[i].claim !in claims && forall j :: 0 <= j < i ==> plans[j].claim != plans[i].claim
  }

  /** The plan's claim fails, or its claim is free and its push fails. */
  predicate Breaks(plans: seq<Plan>, i: nat, fault: Option<Fault>, claims: Claims)
    requires i < |plans|
  {
    fault.Some? && fault.value.at == i && (fault.value.onPush ==> IsFree(plans, i, claims))
  }

  predicate Ends(plans: seq<Plan>, i: nat, fault: Option<Fault>, claims: Claims)
    requires i < |plans|
  {
    Breaks(plans, i, fault, claims) || (IsFree(plans, i, claims) && plans[i].invalid)
  }

  /** The plans before `end` with a free claim, in order. */
  ghost predicate Picks(plans: seq<Plan>, end: nat, claims: Claims, picks: seq<nat>)
    requires end <= |plans|
  {
    && (forall j, k :: 0 <= j < k < |picks| ==> picks[j] < picks[k])
    && (forall k :: 0 <= k < |picks| ==> picks[k] < end && IsFree(plans, picks[k], claims))
    && (forall i :: 0 <= i < end && IsFree(plans, i, claims) ==> i in picks)
  }

  /** The first plan that fails or is refused is `end`; without one, `end` is the number of plans. */
  ghost predicate EndsAt(plans: seq<Plan>, fault: Option<Fault>, claims: Claims, end: nat) {
    && end <= |plans| && (forall i :: 0 <= i < end ==> !Ends(plans, i, fault, claims))
    && (end < |plans| ==> Ends(plans, end, fault, claims))
  }

  function StopAt(plans: seq<Plan>, fault: Option<Fault>, claims: Claims, end: nat): Option<Expansion> {
    if end >= |plans| then None else if Breaks(plans, end, fault, claims) then Some(Interrupted) else Some(Refused)
  }

  ghost predicate ChildrenOf(plans: seq<Plan>, picks: seq<nat>, jobs: seq<Job>) {
    |jobs| == |picks| && forall k :: 0 <= k < |picks| ==> picks[k] < |plans| && jobs[k] == plans[picks[k]].child
  }

  ghost predicate ClaimsUpTo(plans: seq<Plan>, end: nat, before: Claims, after: Claims)
    requires end <= |plans|
  {
    forall c :: c in after <==> c in before || exists i :: 0 <= i < end && plans[i].claim == c
  }

  /** What an expansion does, from its plans. It goes on to the first plan that fails or is refused, if there is
      one. Up to there it enqueues a child for exactly the plans whose claim is free, in order, and it leaves
      exactly their claims behind. */
  lemma {:induction false} ExpandIs(plans: seq<Plan>, fault: Option<Fault>, claims: Claims) returns (end: nat, picks: seq<nat>)
    ensures EndsAt(plans, fault, claims, end) && Expand(plans, fault, claims).stopped == StopAt(plans, fault, claims, end)
    ensures Picks(plans, end, claims, picks) && ChildrenOf(plans, picks, Expand(plans, fault, claims).jobs)
    ensures ClaimsUpTo(plans, end, claims, Expand(plans, fault, claims).claims)
  {
    if plans == [] {
      return 0, [];
    }
    var n := |plans| - 1;
    end, picks := ExpandIs(plans[..n], fault, claims);
    var so := Expand(plans[..n], fault, claims);
    EndsNext(plans, fault, claims, end);
    if end < n {
      PicksSame(plans, end, claims, picks);
    } else {
      FreeIsUnclaimed(plans, claims, so.claims);
      if Ends(plans, n, fault, claims) {
        PicksSame(plans, end, claims, picks);
      } else {
        end, picks := GoesOn(plans, fault, claims, so, picks);
      }
    }
  }

  /** The expansion goes past its last plan. */
  lemma {:induction false} GoesOn(plans: seq<Plan>, fault: Option<Fault>, claims: Claims, so: Progress, before: seq<nat>)
    returns (end: nat, picks: seq<nat>)
    requires plans != [] && so.stopped.None? && !Ends(plans, |plans| - 1, fault, claims)
    requires Picks(plans[..|plans| - 1], |plans| - 1, claims, before) && ChildrenOf(plans[..|plans| - 1], before, so.jobs)
    requires ClaimsUpTo(plans[..|plans| - 1], |plans| - 1, claims, so.claims)
    requires IsFree(plans, |plans| - 1, claims) <==> plans[|plans| - 1].claim !in so.claims
    ensures var next := Turn(so, plans[|plans| - 1], |plans| - 1, fault);
      && end == |plans| && next.stopped.None? && Picks(plans, end, claims, picks) && ChildrenOf(plans, picks, next.jobs)
      && ClaimsUpTo(plans, end, claims, next.claims)
  {
    var n := |plans| - 1;
    PicksNext(plans, claims, before, so.jobs);
    ClaimsNext(plans, claims, so.claims);
    end := n + 1;
    if IsFree(plans, n, claims) {
      picks := before + [n];
    } else {
      picks := before;
      assert so.claims + {plans[n].claim} == so.claims;
    }
  }

  lemma EndsNext(plans: seq<Plan>, fault: Option<Fault>, claims: Claims, end: nat)
    requires plans != [] && EndsAt(plans[..|plans| - 1], fault, claims, end)
    ensures var n := |plans| - 1;
      if end == n && !Ends(plans, n, fault, claims) then EndsAt(plans, fault, claims, n + 1)
      else
        && EndsAt(plans, fault, claims, end)
        && (end < n ==> StopAt(plans, fault, claims, end) == StopAt(plans[..n], fault, claims, end))
  {
    SamePlans(plans, |plans| - 1, fault, claims);
  }

  lemma SamePlans(plans: seq<Plan>, n: nat, fault: Option<Fault>, claims: Claims)
    requires n <= |plans|
    ensures forall i :: 0 <= i < n ==> IsFree(plans[..n], i, claims) == IsFree(plans, i, claims)
    ensures forall i :: 0 <= i < n ==> Ends(plans[..n], i, fault, claims) == Ends(plans, i, fault, claims)
  {
  }

  lemma PicksSame(plans: seq<Plan>, end: nat, claims: Claims, picks: seq<nat>)
    requires end < |plans| && Picks(plans[..|plans| - 1], end, claims, picks)
    ensures Picks(plans, end, claims, picks)
  {
    SamePlans(plans, |plans| - 1, None, claims);
  }

  lemma FreeIsUnclaimed(plans: seq<Plan>, claims: Claims, after: Claims)
    requires plans != [] && ClaimsUpTo(plans[..|plans| - 1], |plans| - 1, claims, after)
    ensures IsFree(plans, |plans| - 1, claims) <==> plans[|plans| - 1].claim !in after
  {
    var n := |plans| - 1;
    assert forall i :: 0 <= i < n ==> plans[..n][i] == plans[i];
  }

  lemma PicksNext(plans: seq<Plan>, claims: Claims, picks: seq<nat>, jobs: seq<Job>)
    requires plans != [] && Picks(plans[..|plans| - 1], |plans| - 1, claims, picks)
    requires ChildrenOf(plans[..|plans| - 1], picks, jobs)
    ensures var n := |plans| - 1;
      if IsFree(plans, n, claims) then
        Picks(plans, n + 1, claims, picks + [n]) && ChildrenOf(plans, picks + [n], jobs + [plans[n].child])
      else Picks(plans, n + 1, claims, picks) && ChildrenOf(plans, picks, jobs)
  {
    var n := |plans| - 1;
    PicksSame(plans, n, claims, picks);
    assert (picks + [n])[|picks|] == n;
    forall i | 0 <= i < n && IsFree(plans, i, claims) ensures i in picks + [n] {
      assert i in picks;
    }
  }

  lemma ClaimsNext(plans: seq<Plan>, claims: Claims, after: Claims)
    requires plans != [] && ClaimsUpTo(plans[..|plans| - 1], |plans| - 1, claims, after)
    ensures ClaimsUpTo(plans, |plans|, claims, after + {plans[|plans| - 1].claim})
  {
    var n := |plans| - 1;
    assert forall i :: 0 <= i < n ==> plans[..n][i] == plans[i];
  }

  // ---- How a turn ends ----

  /** Which error ends the ingest, if any: its own, that of the store command or the child that stopped the
      expansion, or one that comes after it. */
  ghost predicate EndsWith(ingest: Ingest, so: Progress, failure: Option<Failure>) {
    match ingest
    case IngestFailed(error) => failure == Some(error)
    case Ingested(_, fault, refusal, late) =>
      && (so.stopped.None? ==> failure == late)
      && (so.stopped == Some(Refused) ==> failure == Some(refusal))
      && (so.stopped == Some(Interrupted) ==> fault.Some? && failure == Some(fault.value.failure))
  }

  lemma {:induction false} FailureIs(ingest: Ingest, so: Progress)
    requires so.stopped.Some? ==> !so.stopped.value.Complete?
    requires so.stopped == Some(Interrupted) ==> ingest.Ingested? && ingest.fault.Some?
    ensures EndsWith(ingest, so, FailureOf(ingest, so.End()))
  {
  }

  /** The job is queued again: its count one up, and due after the delay for that count. */
  ghost predicate IsRetryOf(delays: Delays, job: Job, now: int, report: RunReport, again: Job) {
    && report.RetryScheduled?
    && report.retryCount == RetryCountOf(again) == RetryCountOf(job) + 1
    && report.retryDelay == RetryDelay.Delay(delays.base, delays.cap, report.retryCount)
    && again.requestedAt == Some(now + report.retryDelay) && again.chain == job.chain && again.address == Trim(job.address)
  }

  lemma {:induction false} ConclusionIs(config: Config, delays: Delays, job: Job, failure: Option<Failure>, now: int, enqueued: nat,
                                        report: RunReport, again: seq<Job>)
    requires Concludes(delays, job, failure, now, enqueued, report, again)
    ensures report.Processed? <==> failure.None?
    ensures report.RetryScheduled? <==> failure.Some? && failure.value.retryable && !failure.value.requeueFails
    ensures report.Processed? ==> report.expansionEnqueued == enqueued
    ensures if report.RetryScheduled? then |again| == 1 && IsRetryOf(delays, job, now, report, again[0]) else again == []
  {
    if report.RetryScheduled? {
      RetryKeepsQueueAndPolicy(config, job, now, report.retryDelay, failure.value.cause);
    }
  }

  /** A turn with a job is processed when no error ends it, and queues the job again, behind the children,
      exactly when the error is retryable and Redis takes the push. */
  lemma {:induction false} TurnEnds(config: Config, delays: Delays, t: TurnRecord) returns (so: Progress, failure: Option<Failure>)
    requires TurnOk(config, delays, t) && t.outcome.Taken?
    ensures so == ProgressOf(config, t.outcome.job, t.ingest, t.now, t.before.claims, t.all) && EndsWith(t.ingest, so, failure)
    ensures t.report.Processed? <==> failure.None?
    ensures t.report.RetryScheduled? <==> failure.Some? && failure.value.retryable && !failure.value.requeueFails
    ensures t.report.Processed? ==> t.report.expansionEnqueued == |so.jobs|
    ensures if t.report.RetryScheduled? then
              exists again :: t.pushed == so.jobs + [again] && IsRetryOf(delays, t.outcome.job, t.now, t.report, again)
            else t.pushed == so.jobs
  {
    so := ProgressOf(config, t.outcome.job, t.ingest, t.now, t.before.claims, t.all);
    failure := FailureOf(t.ingest, so.End());
    FailureIs(t.ingest, so);
    var again := t.pushed[|so.jobs|..];
    ConclusionIs(config, delays, t.outcome.job, failure, t.now, |so.jobs|, t.report, again);
    assert t.pushed == so.jobs + again;
    if t.report.RetryScheduled? {
      assert again == [again[0]];
    }
  }

  // ---- A batch of jobs that do not expand ----

  /** What a read can take, in the order it is taken. */
  function DueOf(so: Snapshot, now: int): seq<Payload> {
    DueIn(so.priority, now) + DueIn(so.ordinary, now)
  }

  /** The payload holds a job that does not expand, and whose retry would be due later. */
  predicate IsPlain(config: Config, delays: Delays, p: Payload) {
    var d := Decode(p);
    && d.Good? && PolicyForJob(config, d.job).expansionDepth == 1
    && RetryDelay.Delay(delays.base, delays.cap, RetryCountOf(d.job) + 1) > 0
  }

  /** The ingest succeeds or meets an error that queues the job again. */
  predicate Recovers(ingest: Ingest) {
    var failure := FailureOf(ingest, Complete(0));
    failure.Some? ==> failure.value.Retried()
  }

  lemma ListTakesDue(q: seq<Payload>, now: int)
    ensures DueIn(q, now) == [] ==> Scan(q, |q|, now) == (NothingDue, q)
    ensures DueIn(q, now) != [] ==>
      Scan(q, |q|, now).0 == Settle(DueIn(q, now)[0]) && DueIn(Scan(q, |q|, now).1, now) == DueIn(q, now)[1..]
  {
    var k := FirstDue(q, now);
    ScanAllOrNothing(q, now);
    if k == |q| {
      NoneDue(q, now);
    } else {
      ScanTakesFirstDue(q, k, |q|, now);
      SplitAtDue(q, k, now);
    }
  }

  lemma NoneDue(q: seq<Payload>, now: int)
    requires forall i :: 0 <= i < |q| ==> Delayed(q[i], now)
    ensures DueIn(q, now) == []
  {
    FilterNone((p: Payload) => !Delayed(p, now), q);
  }

  /** A read takes the first of what is due and leaves the others due, in order. */
  lemma ReadTakesDue(so: Snapshot, now: int)
    ensures var (outcome, lists) := ReadLists([so.priority] + [so.ordinary], now);
      if DueOf(so, now) == [] then outcome == NothingDue
      else
        && outcome == Settle(DueOf(so, now)[0]) && |lists| == 2
        && DueIn(lists[0], now) + DueIn(lists[1], now) == DueOf(so, now)[1..]
  {
    ReadCons(so.priority, [so.ordinary], now);
    ListTakesDue(so.priority, now);
    if DueIn(so.priority, now) == [] {
      ReadOneList(so.ordinary, now);
      ListTakesDue(so.ordinary, now);
    }
  }

  /** Payloads that are due later add nothing to what is due. */
  lemma DelayedAddNothing(q: seq<Payload>, more: seq<Payload>, now: int)
    requires forall i :: 0 <= i < |more| ==> Delayed(more[i], now)
    ensures DueIn(q + more, now) == DueIn(q, now)
  {
    NoneDue(more, now);
    FilterAppend((p: Payload) => !Delayed(p, now), q, more);
    assert DueIn(q, now) + [] == DueIn(q, now);
  }

  lemma RetryIsDelayed(name: string, job: Job, now: int, delay: int, cause: string)
    requires Validate(job).None? && delay > 0
    ensures forall i :: 0 <= i < |Pushed(name, [RetryJob(job, now, delay, cause)])| ==>
      Delayed(Pushed(name, [RetryJob(job, now, delay, cause)])[i], now)
  {
    var retry := RetryJob(job, now, delay, cause);
    RetryIsValid(job, now, delay, cause);
    PushedOne(retry);
    NormalizedTwice(retry);
  }

  lemma NormalizedTwice(job: Job)
    ensures NormalizeJob(NormalizeJob(job)) == NormalizeJob(job)
  {
    TrimIsTrimmed(job.source);
    TrimOfTrimmed(Trim(job.source));
    TrimIsTrimmed(job.address);
    TrimOfTrimmed(Trim(job.address));
  }

  /** A turn that takes a plain job works, enqueues no child, and leaves nothing else due than it found. */
  lemma PlainTurn(config: Config, delays: Delays, t: TurnRecord)
    requires TurnOk(config, delays, t) && Recovers(t.ingest)
    requires DueOf(t.before, t.now) != [] && IsPlain(config, delays, DueOf(t.before, t.now)[0])
    ensures t.outcome == Settle(DueOf(t.before, t.now)[0]) && DueOf(t.after, t.now) == DueOf(t.before, t.now)[1..]
    ensures if FailureOf(t.ingest, Complete(0)).None? then t.report == Processed(t.outcome.job, 0) else t.report.RetryScheduled?
  {
    ReadTakesDue(t.before, t.now);
    var (outcome, lists) := ReadLists([t.before.priority] + [t.before.ordinary], t.now);
    var job := outcome.job;
    TakenIsValid([t.before.priority] + [t.before.ordinary], t.now);
    var failure := FailureOf(t.ingest, Complete(0));
    assert t.pushed[0..] == t.pushed;
    if failure.Some? {
      var delay := RetryDelay.Delay(delays.base, delays.cap, RetryCountOf(job) + 1);
      assert t.pushed == [RetryJob(job, t.now, delay, failure.value.cause)];
      RetryIsDelayed(PRIORITY, job, t.now, delay, failure.value.cause);
      RetryIsDelayed(DEFAULT, job, t.now, delay, failure.value.cause);
    }
    DelayedAddNothing(lists[0], Pushed(PRIORITY, t.pushed), t.now);
    DelayedAddNothing(lists[1], Pushed(DEFAULT, t.pushed), t.now);
  }

  /** The clock stands still, and every ingest recovers. */
  ghost predicate Calm(world: nat -> (int, Ingest), now: int) {
    forall i: nat :: world(i).0 == now && Recovers(world(i).1)
  }

  lemma TurnAt(config: Config, delays: Delays, world: nat -> (int, Ingest), now: int, turns: seq<TurnRecord>,
               before: Snapshot, after: Snapshot, k: nat)
    requires Turns(Follows(config, delays, world), turns, before, after) && k < |turns| && Calm(world, now)
    ensures TurnOk(config, delays, turns[k]) && turns[k].now == now && turns[k].ingest == world(k).1 && Recovers(world(k).1)
  {
    assert Follows(config, delays, world)(k, turns[k]);
    assert world(k).0 == now;
  }

  /** The k-th turn finds due what was due at the start but for the first k. */
  lemma {:induction false} DueAt(config: Config, delays: Delays, world: nat -> (int, Ingest), now: int, turns: seq<TurnRecord>,
                                 before: Snapshot, after: Snapshot, k: nat)
    requires Turns(Follows(config, delays, world), turns, before, after) && Calm(world, now)
    requires forall i :: 0 <= i < |DueOf(before, now)| ==> IsPlain(config, delays, DueOf(before, now)[i])
    requires k < |turns| && k <= |DueOf(before, now)|
    ensures DueOf(turns[k].before, now) == DueOf(before, now)[k..]
  {
    if k > 0 {
      DueAt(config, delays, world, now, turns, before, after, k - 1);
      TurnAt(config, delays, world, now, turns, before, after, k - 1);
      assert DueOf(turns[k - 1].before, now)[0] == DueOf(before, now)[k - 1];
      PlainTurn(config, delays, turns[k - 1]);
      assert turns[k - 1].after == turns[k].before;
    }
  }

  lemma WorksAt(config: Config, delays: Delays, world: nat -> (int, Ingest), now: int, turns: seq<TurnRecord>,
                before: Snapshot, after: Snapshot, k: nat)
    requires Turns(Follows(config, delays, world), turns, before, after) && Calm(world, now)
    requires forall i :: 0 <= i < |DueOf(before, now)| ==> IsPlain(config, delays, DueOf(before, now)[i])
    requires k < |turns| && k <= |DueOf(before, now)|
    ensures k == |DueOf(before, now)| ==> turns[k].report == NothingDequeued
    ensures k < |DueOf(before, now)| ==>
      && turns[k].outcome == Settle(DueOf(before, now)[k])
      && if FailureOf(world(k).1, Complete(0)).None? then turns[k].report.Processed? && turns[k].report.expansionEnqueued == 0
         else turns[k].report.RetryScheduled?
  {
    DueAt(config, delays, world, now, turns, before, after, k);
    TurnAt(config, delays, world, now, turns, before, after, k);
    if k < |DueOf(before, now)| {
      PlainTurn(config, delays, turns[k]);
    } else {
      ReadTakesDue(turns[k].before, now);
    }
  }

  lemma {:induction false} NoChildren(turns: seq<TurnRecord>)
    requires forall k :: 0 <= k < |turns| ==> (turns[k].report.Processed? ==> turns[k].report.expansionEnqueued == 0)
    ensures ChildrenIn(turns) == 0
  {
    if turns != [] {
      NoChildren(turns[..|turns| - 1]);
    }
  }

  /** A batch over jobs that do not expand, while the clock stands still and no ingest fails for good,
      processes exactly as many jobs as its limit lets it of those that are due. It takes them in order, the
      priority list first, and schedules a retry for exactly those whose ingest fails. */
  lemma PlainBatch(config: Config, delays: Delays, limit: int, world: nat -> (int, Ingest), now: int,
                   before: Snapshot, after: Snapshot, turns: seq<TurnRecord>, report: BatchReport)
    requires limit > 0 && BatchRan(config, delays, limit, world, before, after, turns, report) && Calm(world, now)
    requires forall i :: 0 <= i < |DueOf(before, now)| ==> IsPlain(config, delays, DueOf(before, now)[i])
    ensures var due := DueOf(before, now);
      && !report.failed && report.jobsProcessed == (if limit <= |due| then limit else |due|) && report.expansionEnqueued == 0
      && report.jobsProcessed <= |turns|
      && forall k :: 0 <= k < report.jobsProcessed ==>
           && turns[k].outcome == Settle(due[k])
           && (turns[k].report.RetryScheduled? <==> FailureOf(world(k).1, Complete(0)).Some?)
  {
    var due := DueOf(before, now);
    forall k | 0 <= k < |turns| && k <= |due|
      ensures k == |due| ==> turns[k].report == NothingDequeued
      ensures k < |due| ==>
        && turns[k].outcome == Settle(due[k]) && Works(turns[k].report)
        && (turns[k].report.RetryScheduled? <==> FailureOf(world(k).1, Complete(0)).Some?)
        && (turns[k].report.Processed? ==> turns[k].report.expansionEnqueued == 0)
    {
      WorksAt(config, delays, world, now, turns, before, after, k);
    }
    if |turns| > |due| {
      assert !Works(turns[|due|].report);
    }
    NoChildren(turns);
  }
}
