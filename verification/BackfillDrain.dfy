/** The drain of the backfill queue: retries, hop expansion, and why it ends
    (apps/workers/backfill.go). */
module BackfillDrain {
  import opened Text
  import opened BackfillQueue
  import opened BackfillQueueLaws
  import opened BackfillPolicy
  import RetryDelay

  /** An error of the ingest, and whether `isRetryableWalletBackfillError` accepts it: provider errors
      and time-outs of any store or cache call do. `requeueFails` says that Redis refuses the push of the retry. */
  datatype Failure = Failure(retryable: bool, cause: string, requeueFails: bool) {
    predicate Retried() { retryable && !requeueFails }
  }

  /** A store command of the expansion that fails, at the counterparty it is for: the claim, or the push. */
  datatype Fault = Fault(at: nat, onPush: bool, failure: Failure)

  /** How the ingest of one job goes. It fails before the expansion, or it meets `fault` in the expansion,
      if any, and fails with `late` after it, if at all. `refusal` is how the retry check reads the error
      of a child that does not validate. */
  datatype Ingest =
    | IngestFailed(failure: Failure)
    | Ingested(counterparties: seq<Option<WalletRef>>, fault: Option<Fault>, refusal: Failure, late: Option<Failure>)

  datatype RunReport =
    | NothingDequeued
    | Processed(job: Job, expansionEnqueued: nat)
    | RetryScheduled(job: Job, retryCount: int, retryDelay: int)
    | RunFailed

  datatype BatchReport = BatchReport(jobsProcessed: nat, expansionEnqueued: nat, retriesScheduled: nat, failed: bool)

  function ChainOf(text: string): Chain {
    if text == "evm" then Evm else if text == "solana" then Solana else Unsupported(text)
  }

  function ChainText(chain: Chain): string {
    match chain case Evm => "evm" case Solana => "solana" case Unsupported(text) => text
  }

  function RootOf(job: Job): WalletRef { WalletRef(ChainText(job.chain), Trim(job.address)) }

  /** The job `enqueueCounterpartyExpansion` builds for one counterparty. */
  function ChildJob(job: Job, policy: Policy, ref: WalletRef, hits: nat, now: int): Job {
    var root := RootOf(job);
    Job(ChainOf(Lower(Trim(ref.chain))), ref.address, "wallet_backfill_expansion", Some(now),
        job.metadata[WindowDays := Number(policy.windowDays)][
                     Limit := Number(policy.limit)][
                     ExpansionDepth := Number(policy.expansionDepth - 1)][
                     StopServices := Flag(policy.stopServices)][
                     RootChain := Str(root.chain)][
                     RootAddress := Str(root.address)][
                     ParentChain := Str(root.chain)][
                     ParentAddress := Str(root.address)][
                     ExpansionHits := Number(hits)])
  }

  type Claims = set<(string, string)>

  /** A child to enqueue, the expansion claim it needs, and whether it fails validation. */
  datatype Plan = Plan(claim: (string, string), child: Job, invalid: bool)

  function PlanFor(claim: (string, string), child: Job): Plan {
    Plan(claim, child, Validate(NormalizeJob(child)).Some?)
  }

  function Plans(job: Job, policy: Policy, chosen: seq<Candidate>, now: int): (plans: seq<Plan>)
    ensures |plans| == |chosen|
  {
    seq(|chosen|, i requires 0 <= i < |chosen| =>
      PlanFor((chosen[i].key, CanonicalKey(RootOf(job))), ChildJob(job, policy, chosen[i].ref, chosen[i].count, now)))
  }

  /** What enqueueing the jobs appends to a list. */
  function Pushed(name: string, jobs: seq<Job>): seq<Payload> {
    if jobs == [] then []
    else
      var last := NormalizeJob(jobs[|jobs| - 1]);
      Pushed(name, jobs[..|jobs| - 1]) + if QueueNameForJob(last) == name then [Encoded(last)] else []
  }

  predicate Expands(policy: Policy, root: WalletRef) {
    policy.expansionDepth > 1 && root.chain != "" && root.address != ""
  }

  /** How an expansion ends: complete, with a child refused, or with a failing store command. */
  datatype Expansion = Complete(enqueued: nat) | Refused | Interrupted

  /** How far an expansion got: the children it enqueued, the claims it left, and how it stopped early, if
      it did. */
  datatype Progress = Progress(jobs: seq<Job>, claims: Claims, stopped: Option<Expansion>) {
    function End(): Expansion { if stopped.Some? then stopped.value else Complete(|jobs|) }
  }

  /** The turn of one plan: its claim may fail or be taken, and its child may not be pushed or not validate. */
  function Turn(so: Progress, plan: Plan, i: nat, fault: Option<Fault>): Progress {
    var fails := fault.Some? && fault.value.at == i;
    if fails && !fault.value.onPush then so.(stopped := Some(Interrupted))
    else if plan.claim in so.claims then so
    else if fails then so.(stopped := Some(Interrupted))
    else if plan.invalid then so.(stopped := Some(Refused))
    else Progress(so.jobs + [plan.child], so.claims + {plan.claim}, None)
  }

  /** The plans in turn, up to the first that stops the expansion. */
  function Expand(plans: seq<Plan>, fault: Option<Fault>, claims: Claims): (r: Progress)
    ensures |r.jobs| <= |plans| && (r.stopped.Some? ==> !r.stopped.value.Complete?)
    ensures r.stopped == Some(Interrupted) ==> fault.Some?
  {
    if plans == [] then Progress([], claims, None)
    else
      var n := |plans| - 1;
      var so := Expand(plans[..n], fault, claims);
      if so.stopped.Some? then so else Turn(so, plans[n], n, fault)
  }

  /** The plans of a job's expansion, from its counterparties in order of rank. */
  function PlansOf(config: Config, job: Job, now: int, all: seq<Candidate>): (plans: seq<Plan>)
    ensures |plans| <= MAX_EXPANSION_COUNTERPARTIES
  {
    Plans(job, PolicyForJob(config, job), BestFive(all), now)
  }

  /** The ingest of the job gets to its expansion, and there is one. */
  predicate GetsToExpand(config: Config, job: Job, ingest: Ingest) {
    ingest.Ingested? && Expands(PolicyForJob(config, job), RootOf(job))
  }

  /** The error that ends the ingest, given how its expansion ended. */
  function FailureOf(ingest: Ingest, expansion: Expansion): Option<Failure> {
    match ingest
    case IngestFailed(failure) => Some(failure)
    case Ingested(_, fault, refusal, late) =>
      match expansion
      case Complete(_) => late
      case Refused => Some(refusal)
      case Interrupted => if fault.Some? then Some(fault.value.failure) else late
  }

  /** What the ingest of a job does to the claims and enqueues. `all` ranks the job's counterparties. */
  function ProgressOf(config: Config, job: Job, ingest: Ingest, now: int, claims: Claims, all: seq<Candidate>): (so: Progress)
    ensures |so.jobs| <= MAX_EXPANSION_COUNTERPARTIES
  {
    if GetsToExpand(config, job, ingest) then Expand(PlansOf(config, job, now, all), ingest.fault, claims)
    else Progress([], claims, None)
  }

  ghost predicate RankedFor(config: Config, job: Job, ingest: Ingest, all: seq<Candidate>) {
    GetsToExpand(config, job, ingest) ==>
      Ranked(all, ingest.counterparties, RootOf(job), PolicyForJob(config, job).stopServices)
  }

  /** The delays of the retries. */
  datatype Delays = Delays(base: nat, cap: nat)

  /** What follows the ingest: nothing more, or the job's retry when the error is retryable. */
  ghost predicate Concludes(delays: Delays, job: Job, failure: Option<Failure>, now: int, enqueued: nat, report: RunReport, again: seq<Job>) {
    if failure.None? then report == Processed(job, enqueued) && again == []
    else if failure.value.Retried() then
      var retries := RetryCountOf(job) + 1;
      var delay := RetryDelay.Delay(delays.base, delays.cap, retries);
      report == RetryScheduled(job, retries, delay) && again == [RetryJob(job, now, delay, failure.value.cause)]
    else report == RunFailed && again == []
  }

  /** What the job's turn pushes and reports: its children, and its retry. */
  ghost predicate RanJob(config: Config, delays: Delays, job: Job, ingest: Ingest, now: int, claims: Claims, all: seq<Candidate>,
                         pushed: seq<Job>, report: RunReport)
  {
    var so := ProgressOf(config, job, ingest, now, claims, all);
    && RankedFor(config, job, ingest, all)
    && so.jobs <= pushed
    && Concludes(delays, job, FailureOf(ingest, so.End()), now, |so.jobs|, report, pushed[|so.jobs|..])
  }

  /** What one turn of the drain pushes and reports, given what its read took and how the ingest goes. */
  ghost predicate RanOnce(config: Config, delays: Delays, outcome: Outcome, ingest: Ingest, now: int, claims: Claims,
                          all: seq<Candidate>, pushed: seq<Job>, report: RunReport)
  {
    match outcome
    case NothingDue => report == NothingDequeued && pushed == []
    case Rejected(_) => report == RunFailed && pushed == []
    case Taken(job) => RanJob(config, delays, job, ingest, now, claims, all, pushed, report)
  }

  /** The turn takes a job, enqueues a child of it, and meets an error that queues the job again. */
  predicate Grows(config: Config, outcome: Outcome, ingest: Ingest, now: int, claims: Claims, all: seq<Candidate>) {
    && outcome.Taken?
    && var so := ProgressOf(config, outcome.job, ingest, now, claims, all);
       so.jobs != [] && FailureOf(ingest, so.End()).Some? && FailureOf(ingest, so.End()).value.Retried()
  }

  // ---- Turns ----

  /** What the drain reads and writes. */
  datatype Snapshot = Snapshot(priority: seq<Payload>, ordinary: seq<Payload>, claims: Claims)

  /** One turn: the state it found, its clock and ingest, what it took, pushed and reported, and the state it left. */
  datatype TurnRecord = TurnRecord(before: Snapshot, now: int, ingest: Ingest, outcome: Outcome, all: seq<Candidate>,
                                   pushed: seq<Job>, report: RunReport, after: Snapshot)

  ghost predicate TurnOk(config: Config, delays: Delays, t: TurnRecord) {
    var (outcome, lists) := ReadLists([t.before.priority] + [t.before.ordinary], t.now);
    && t.outcome == outcome && |lists| == 2
    && RanOnce(config, delays, outcome, t.ingest, t.now, t.before.claims, t.all, t.pushed, t.report)
    && t.after == Snapshot(lists[0] + Pushed(PRIORITY, t.pushed), lists[1] + Pushed(DEFAULT, t.pushed),
                           if outcome.Taken? then ProgressOf(config, outcome.job, t.ingest, t.now, t.before.claims, t.all).claims
                           else t.before.claims)
  }

  predicate Works(report: RunReport) { report.Processed? || report.RetryScheduled? }

  /** How many turns worked, how many children they enqueued, and how many were retries. */
  function JobsIn(turns: seq<TurnRecord>): nat {
    if turns == [] then 0 else JobsIn(turns[..|turns| - 1]) + if Works(turns[|turns| - 1].report) then 1 else 0
  }

  function ChildrenIn(turns: seq<TurnRecord>): nat {
    if turns == [] then 0
    else
      var last := turns[|turns| - 1].report;
      ChildrenIn(turns[..|turns| - 1]) + if last.Processed? then last.expansionEnqueued else 0
  }

  function RetriesIn(turns: seq<TurnRecord>): nat {
    if turns == [] then 0 else RetriesIn(turns[..|turns| - 1]) + if turns[|turns| - 1].report.RetryScheduled? then 1 else 0
  }

  /** The k-th turn, on the world's k-th clock and ingest. */
  ghost function Follows(config: Config, delays: Delays, world: nat -> (int, Ingest)): (nat, TurnRecord) -> bool {
    (k: nat, t: TurnRecord) => TurnOk(config, delays, t) && t.now == world(k).0 && t.ingest == world(k).1
  }

  /** The turns follow one another, each finding what the one before left, and all but the last one worked. */
  ghost predicate Turns(ok: (nat, TurnRecord) -> bool, turns: seq<TurnRecord>, before: Snapshot, after: Snapshot) {
    && (if turns == [] then before == after else turns[0].before == before && turns[|turns| - 1].after == after)
    && (forall j, k :: 0 <= j && k == j + 1 < |turns| ==> turns[j].after == turns[k].before)
    && (forall k :: 0 <= k < |turns| - 1 ==> Works(turns[k].report))
    && (forall k {:trigger ok(k, turns[k])} :: 0 <= k < |turns| ==> ok(k, turns[k]))
  }

  /** The report of a batch after one more turn. */
  function Counting(so: BatchReport, report: RunReport): BatchReport {
    match report
    case NothingDequeued => so
    case Processed(_, children) => so.(jobsProcessed := so.jobsProcessed + 1, expansionEnqueued := so.expansionEnqueued + children)
    case RetryScheduled(_, _, _) => so.(jobsProcessed := so.jobsProcessed + 1, retriesScheduled := so.retriesScheduled + 1)
    case RunFailed => BatchReport(0, 0, 0, true)
  }

  /** A batch whose turns all worked so far. */
  ghost predicate Running(config: Config, ok: (nat, TurnRecord) -> bool, turns: seq<TurnRecord>, before: Snapshot, after: Snapshot,
                          report: BatchReport)
  {
    && Turns(ok, turns, before, after) && WithinBound(config, turns, before, after)
    && (turns != [] ==> Works(turns[|turns| - 1].report))
    && report == BatchReport(JobsIn(turns), ChildrenIn(turns), RetriesIn(turns), false) && JobsIn(turns) == |turns|
  }

  /** A batch whose last turn failed or found nothing due. A failed one reports nothing. */
  ghost predicate Stopped(config: Config, ok: (nat, TurnRecord) -> bool, turns: seq<TurnRecord>, before: Snapshot, after: Snapshot,
                          report: BatchReport)
  {
    && Turns(ok, turns, before, after) && WithinBound(config, turns, before, after)
    && turns != [] && !Works(turns[|turns| - 1].report)
    && if turns[|turns| - 1].report == RunFailed then report == BatchReport(0, 0, 0, true)
       else report == BatchReport(JobsIn(turns), ChildrenIn(turns), RetriesIn(turns), false) && JobsIn(turns) == |turns| - 1
  }

  /** A whole batch: turns until the limit is reached, a turn fails, or a read finds nothing due. */
  ghost predicate BatchRan(config: Config, delays: Delays, limit: int, world: nat -> (int, Ingest), before: Snapshot, after: Snapshot,
                           turns: seq<TurnRecord>, report: BatchReport)
  {
    if limit <= 0 then turns == [] && before == after && report == BatchReport(0, 0, 0, true)
    else if |turns| == limit && Works(turns[limit - 1].report) then
      Running(config, Follows(config, delays, world), turns, before, after, report)
    else |turns| <= limit && Stopped(config, Follows(config, delays, world), turns, before, after, report)
  }

  /** The jobs taken and what is left weigh no more than what there was, and six for each retry. */
  ghost predicate WithinBound(config: Config, turns: seq<TurnRecord>, before: Snapshot, after: Snapshot) {
    LoadOf(config, after) + JobsIn(turns) <= LoadOf(config, before) + 6 * RetriesIn(turns)
  }

  /** What a job may still cost: itself, and five children if it expands. */
  function JobWeight(config: Config, job: Job): (w: nat)
    ensures w == 1 || w == 1 + MAX_EXPANSION_COUNTERPARTIES
  {
    if PolicyForJob(config, job).expansionDepth > 1 then 1 + MAX_EXPANSION_COUNTERPARTIES else 1
  }

  function Weight(config: Config, p: Payload): (w: nat)
    ensures w >= 1
  {
    match Decode(p) case Good(job) => JobWeight(config, job) case Bad(_) => 1
  }

  function WeightTaken(config: Config, outcome: Outcome): nat {
    match outcome case NothingDue => 0 case Rejected(_) => 1 case Taken(job) => JobWeight(config, job)
  }

  function Load(config: Config, q: seq<Payload>): nat {
    if q == [] then 0 else Weight(config, q[0]) + Load(config, q[1..])
  }

  function LoadOf(config: Config, so: Snapshot): nat {
    Load(config, so.priority) + Load(config, so.ordinary)
  }

  lemma {:induction false} LoadAppend(config: Config, a: seq<Payload>, b: seq<Payload>)
    ensures Load(config, a + b) == Load(config, a) + Load(config, b)
  {
    if a == [] {
      assert a + b == b;
    } else {
      assert (a + b)[1..] == a[1..] + b;
      LoadAppend(config, a[1..], b);
    }
  }

  /** A scan takes out of the list exactly the weight of what it pops for good. */
  lemma {:induction false} ScanTakesWeight(config: Config, q: seq<Payload>, budget: nat, now: int)
    ensures var (outcome, rest) := Scan(q, budget, now);
      Load(config, rest) + WeightTaken(config, outcome) == Load(config, q)
    decreases budget
  {
    if budget > 0 && q != [] && Delayed(q[0], now) {
      ScanTakesWeight(config, q[1..] + [q[0]], budget - 1, now);
      LoadAppend(config, q[1..], [q[0]]);
      assert Load(config, [q[0]]) == Weight(config, q[0]) + Load(config, [q[0]][1..]);
    }
  }

  /** A child of an expanding job does not expand: its own policy, recomputed from its metadata,
      has depth one. */
  lemma ChildDoesNotExpand(config: Config, job: Job, ref: WalletRef, hits: nat, now: int)
    ensures var child := ChildJob(job, PolicyForJob(config, job), ref, hits, now);
      PolicyForJob(config, child).expansionDepth == 1 && JobWeight(config, child) == 1
  {
    var policy := PolicyForJob(config, job);
    var child := ChildJob(job, policy, ref, hits, now);
    assert policy.expansionDepth in {1, 2};
    assert child.metadata[ExpansionDepth] == Number(policy.expansionDepth - 1);
    assert IntMeta(child.metadata, ExpansionDepth, DEFAULT_EXPANSION_DEPTH) == policy.expansionDepth - 1;
  }

  /** But for that, a child runs under its parent's policy: the same window, limit and stop flag. */
  lemma {:induction false} ChildKeepsPolicy(config: Config, job: Job, ref: WalletRef, hits: nat, now: int)
    ensures var policy := PolicyForJob(config, job);
      PolicyForJob(config, ChildJob(job, policy, ref, hits, now)) == policy.(expansionDepth := 1)
  {
    ChildDoesNotExpand(config, job, ref, hits, now);
    var policy := PolicyForJob(config, job);
    var child := ChildJob(job, policy, ref, hits, now);
    PolicyIsWithinBounds(config, job);
    assert child.metadata[WindowDays] == Number(policy.windowDays) && child.metadata[Limit] == Number(policy.limit);
    assert child.metadata[StopServices] == Flag(policy.stopServices);
  }

  /** A child is a job for its counterparty: its wallet has the key the counterparty was counted under. It is
      due at once, names its parent, and is urgent exactly when its parent is a seed-list job. */
  lemma {:induction false} ChildIsForCounterparty(job: Job, policy: Policy, ref: WalletRef, hits: nat, now: int)
    ensures var child := ChildJob(job, policy, ref, hits, now);
      && CanonicalKey(RootOf(child)) == CanonicalKey(ref) && child.requestedAt == Some(now)
      && child.metadata[ParentAddress] == Str(Trim(job.address)) && child.metadata[RootAddress] == Str(Trim(job.address))
      && (QueueNameForJob(child) == PRIORITY <==> Lower(SourceTypeOf(job.metadata)) == "seed_list")
  {
    var child := ChildJob(job, policy, ref, hits, now);
    KeyOfChild(ref, child);
    ExpansionIsNotSearch(child);
    ChildKeepsSourceType(job, policy, ref, hits, now);
  }

  lemma ChildKeepsSourceType(job: Job, policy: Policy, ref: WalletRef, hits: nat, now: int)
    ensures var child := ChildJob(job, policy, ref, hits, now);
      && (SourceType in child.metadata <==> SourceType in job.metadata)
      && (SourceType in job.metadata ==> child.metadata[SourceType] == job.metadata[SourceType])
  {
  }

  lemma {:induction false} KeyOfChild(ref: WalletRef, child: Job)
    requires child.chain == ChainOf(Lower(Trim(ref.chain))) && child.address == ref.address
    ensures CanonicalKey(RootOf(child)) == CanonicalKey(ref)
  {
    TrimIsTrimmed(ref.chain);
    LowerKeepsTrimmed(Trim(ref.chain));
    ChainRoundTrip(Lower(Trim(ref.chain)));
    TrimOfTrimmed(Lower(Trim(ref.chain)));
    TrimIsTrimmed(ref.address);
    TrimOfTrimmed(Trim(ref.address));
  }

  lemma ChainRoundTrip(text: string)
    ensures ChainText(ChainOf(text)) == text
  {
  }

  lemma {:induction false} ExpansionIsNotSearch(child: Job)
    requires child.source == "wallet_backfill_expansion"
    ensures QueueNameForJob(child) == PRIORITY <==> Lower(SourceTypeOf(child.metadata)) == "seed_list"
  {
    TrimOfTrimmed(child.source);
    assert Lower(child.source)[0] == 'w';
  }

  /** A plan for a child that does not expand. */
  ghost predicate PlanOk(config: Config, plan: Plan) {
    JobWeight(config, plan.child) == 1 && plan.invalid == Validate(NormalizeJob(plan.child)).Some?
  }

  lemma PlansAreOk(config: Config, job: Job, chosen: seq<Candidate>, now: int)
    ensures forall i :: 0 <= i < |chosen| ==> PlanOk(config, Plans(job, PolicyForJob(config, job), chosen, now)[i])
  {
    forall i | 0 <= i < |chosen| ensures PlanOk(config, Plans(job, PolicyForJob(config, job), chosen, now)[i]) {
      ChildDoesNotExpand(config, job, chosen[i].ref, chosen[i].count, now);
    }
  }

  lemma PushedNext(name: string, before: seq<Payload>, jobs: seq<Job>, job: Job)
    ensures before + Pushed(name, jobs) + Pushed(name, [job]) == before + Pushed(name, jobs + [job])
  {
    assert (jobs + [job])[..|jobs|] == jobs && [job][..0] == [];
  }

  lemma PushedAfter(name: string, before: seq<Payload>, jobs: seq<Job>, again: seq<Job>)
    requires |again| <= 1
    ensures before + Pushed(name, jobs) + Pushed(name, again) == before + Pushed(name, jobs + again)
  {
    if again == [] {
      assert jobs + again == jobs;
    } else {
      assert again == [again[0]];
      PushedNext(name, before, jobs, again[0]);
    }
  }

  lemma PushedBoth(jobs: seq<Job>, again: seq<Job>)
    requires |again| <= 1
    ensures forall name :: Pushed(name, jobs + again) == Pushed(name, jobs) + Pushed(name, again)
  {
    forall name ensures Pushed(name, jobs + again) == Pushed(name, jobs) + Pushed(name, again) {
      PushedAfter(name, [], jobs, again);
      assert [] + Pushed(name, jobs) == Pushed(name, jobs);
    }
  }

  lemma Associates(a: seq<Payload>, b: seq<Payload>, c: seq<Payload>)
    ensures (a + b) + c == a + (b + c)
  {
  }

  /** A read of the default queue takes out of the two lists exactly the weight of what it pops for good. */
  lemma ReadTakesWeight(config: Config, priority: seq<Payload>, ordinary: seq<Payload>, now: int)
    ensures var (outcome, rest) := ReadLists([priority] + [ordinary], now);
      && |rest| == 2
      && Load(config, priority) + Load(config, ordinary) ==
         Load(config, rest[0]) + Load(config, rest[1]) + WeightTaken(config, outcome)
  {
    ScanTakesWeight(config, priority, |priority|, now);
    ScanTakesWeight(config, ordinary, |ordinary|, now);
    ReadOneList(ordinary, now);
    assert ([priority] + [ordinary])[1..] == [ordinary];
  }

  lemma NormalizedWeight(config: Config, job: Job)
    ensures JobWeight(config, NormalizeJob(job)) == JobWeight(config, job)
    ensures Validate(NormalizeJob(job)).None? ==> Weight(config, Encoded(NormalizeJob(job))) == JobWeight(config, job)
  {
    TrimIsTrimmed(job.source);
    TrimOfTrimmed(Trim(job.source));
    TrimIsTrimmed(job.address);
    TrimOfTrimmed(Trim(job.address));
    SameFields(config, NormalizeJob(job), job);
    assert NormalizeJob(NormalizeJob(job)) == NormalizeJob(job);
  }

  lemma OneMore(config: Config, before: seq<Payload>, job: Job)
    requires Validate(NormalizeJob(job)).None?
    ensures Load(config, before + [Encoded(NormalizeJob(job))]) == Load(config, before) + JobWeight(config, job)
  {
    NormalizedWeight(config, job);
    var added := [Encoded(NormalizeJob(job))];
    LoadAppend(config, before, added);
    assert Load(config, added) == Weight(config, added[0]) + Load(config, added[1..]);
  }

  /** A valid job goes to one of the two lists, and its weight with it. */
  lemma OneMoreOf(config: Config, priority: seq<Payload>, ordinary: seq<Payload>, job: Job)
    requires Validate(NormalizeJob(job)).None?
    ensures Load(config, priority + Pushed(PRIORITY, [job])) + Load(config, ordinary + Pushed(DEFAULT, [job]))
            == Load(config, priority) + Load(config, ordinary) + JobWeight(config, job)
  {
    PushedOne(job);
    OneMore(config, priority, job);
    OneMore(config, ordinary, job);
    assert priority + [] == priority && ordinary + [] == ordinary;
  }

  lemma PushedOne(job: Job)
    ensures forall name :: Pushed(name, [job]) == if QueueNameForJob(NormalizeJob(job)) == name then [Encoded(NormalizeJob(job))] else []
  {
    assert [job][..0] == [];
  }

  lemma DecodedIsValid(p: Payload)
    ensures Decode(p).Good? ==> Validate(Decode(p).job).None?
  {
  }

  lemma {:induction false} ScannedIsValid(q: seq<Payload>, budget: nat, now: int)
    ensures Scan(q, budget, now).0.Taken? ==> Validate(Scan(q, budget, now).0.job).None?
    decreases budget
  {
    if budget > 0 && q != [] {
      if Delayed(q[0], now) {
        ScannedIsValid(q[1..] + [q[0]], budget - 1, now);
      } else {
        DecodedIsValid(q[0]);
      }
    }
  }

  /** A read hands out valid jobs only. */
  lemma {:induction false} TakenIsValid(lists: seq<seq<Payload>>, now: int)
    ensures ReadLists(lists, now).0.Taken? ==> Validate(ReadLists(lists, now).0.job).None?
  {
    if lists != [] {
      ScannedIsValid(lists[0], |lists[0]|, now);
      TakenIsValid(lists[1..], now);
    }
  }

  /** So a retry is never refused by its own queue. */
  lemma RetryIsValid(job: Job, now: int, delay: int, cause: string)
    requires Validate(job).None?
    ensures Validate(NormalizeJob(RetryJob(job, now, delay, cause))).None?
  {
    TrimIsTrimmed(job.source);
    TrimOfTrimmed(Trim(job.source));
    TrimIsTrimmed(job.address);
    TrimOfTrimmed(Trim(job.address));
  }

  /** The first plan that stops the expansion ends it. */
  lemma {:induction false} StopsThere(plans: seq<Plan>, i: nat, fault: Option<Fault>, claims: Claims)
    requires i <= |plans| && Expand(plans[..i], fault, claims).stopped.Some?
    ensures Expand(plans, fault, claims) == Expand(plans[..i], fault, claims)
    decreases |plans|
  {
    if i < |plans| {
      var n := |plans| - 1;
      assert plans[..n][..i] == plans[..i];
      StopsThere(plans[..n], i, fault, claims);
    } else {
      assert plans[..i] == plans;
    }
  }

  lemma NextTurn(plans: seq<Plan>, i: nat, fault: Option<Fault>, claims: Claims, so: Progress, next: Progress)
    requires i < |plans| && Expand(plans[..i], fault, claims) == so && so.stopped.None? && next == Turn(so, plans[i], i, fault)
    ensures Expand(plans[..i + 1], fault, claims) == next && (next.stopped.Some? ==> Expand(plans, fault, claims) == next)
  {
    assert plans[..i + 1][..i] == plans[..i];
    if next.stopped.Some? {
      StopsThere(plans, i + 1, fault, claims);
    }
  }

  class BackfillWorker {
    const queues: RedisBackfillQueues
    const config: Config
    const retryBase: nat
    const retryCap: nat
    /** Live expansion claims: (counterparty, root). */
    var expansionClaims: Claims

    constructor (queues: RedisBackfillQueues, config: Config, retryBase: nat, retryCap: nat)
      ensures this.queues == queues && this.config == config
      ensures this.retryBase == retryBase && this.retryCap == retryCap && expansionClaims == {}
    {
      this.queues, this.config, this.retryBase, this.retryCap := queues, config, retryBase, retryCap;
      expansionClaims := {};
    }

    ghost function Backlog(): nat
      reads this, queues
    {
      Load(config, queues.List(PRIORITY)) + Load(config, queues.List(DEFAULT))
    }

    method Enqueue(job: Job) returns (error: Option<JobError>)
      modifies queues
      ensures error == Validate(NormalizeJob(job))
      ensures Backlog() == old(Backlog()) + if error.None? then JobWeight(config, job) else 0
      ensures forall name :: queues.List(name) == old(queues.List(name)) + if error.None? then Pushed(name, [job]) else []
    {
      ghost var priority, ordinary := queues.List(PRIORITY), queues.List(DEFAULT);
      error := queues.Enqueue(job);
      PushedOne(job);
      forall name ensures queues.List(name) == old(queues.List(name)) + if error.None? then Pushed(name, [job]) else [] {
        assert old(queues.List(name)) + [] == old(queues.List(name));
      }
      if error.None? {
        OneMoreOf(config, priority, ordinary, job);
      }
    }

    method Dequeue(now: int) returns (outcome: Outcome)
      modifies queues
      ensures var (taken, lists) := ReadLists([old(queues.List(PRIORITY))] + [old(queues.List(DEFAULT))], now);
        outcome == taken && |lists| == 2 && queues.List(PRIORITY) == lists[0] && queues.List(DEFAULT) == lists[1]
      ensures Backlog() + WeightTaken(config, outcome) == old(Backlog())
    {
      ghost var priority, ordinary := queues.List(PRIORITY), queues.List(DEFAULT);
      ghost var before := queues.Named(ReadOrder(DEFAULT));
      assert QueueKey(DEFAULT) == DEFAULT && ReadOrder(DEFAULT) == [PRIORITY, DEFAULT];
      outcome := queues.Dequeue(DEFAULT, now);
      assert before == [priority] + [ordinary];
      ReadTakesWeight(config, priority, ordinary, now);
      assert queues.List(PRIORITY) == queues.Named(ReadOrder(DEFAULT))[0];
      assert queues.List(DEFAULT) == queues.Named(ReadOrder(DEFAULT))[1];
    }

    /** Make one claim and enqueue its child; a child that is refused or not pushed gives its claim back.
        `fault` may make a command of the plan's turn fail, and `jobs` is what was enqueued before it. */
    method EnqueueChild(plan: Plan, i: nat, fault: Option<Fault>, ghost jobs: seq<Job>) returns (enqueued: bool, stopped: Option<Expansion>)
      requires PlanOk(config, plan)
      modifies this, queues
      ensures var so := Turn(Progress(jobs, old(expansionClaims), None), plan, i, fault);
        so == Progress(if enqueued then jobs + [plan.child] else jobs, expansionClaims, stopped) && (stopped.Some? ==> !enqueued)
      ensures Backlog() == old(Backlog()) + if enqueued then 1 else 0
      ensures forall name :: queues.List(name) == old(queues.List(name)) + if enqueued then Pushed(name, [plan.child]) else []
    {
      var fails := fault.Some? && fault.value.at == i;
      if fails && !fault.value.onPush {
        return false, Some(Interrupted);
      }
      if plan.claim in expansionClaims {
        return false, None;
      }
      ghost var before := expansionClaims;
      expansionClaims := expansionClaims + {plan.claim};
      if fails {
        stopped := Some(Interrupted);
      } else {
        var error := Enqueue(plan.child);
        stopped := if error.Some? then Some(Refused) else None;
      }
      enqueued := stopped.None?;
      if !enqueued {
        expansionClaims := expansionClaims - {plan.claim};
        assert expansionClaims == before;
      }
    }

    /** One turn of the loop; `more` is what it enqueues. */
    method EnqueueNext(plans: seq<Plan>, i: nat, fault: Option<Fault>, ghost claims: Claims, ghost jobs: seq<Job>)
      returns (enqueued: bool, stopped: Option<Expansion>, ghost more: seq<Job>)
      requires i < |plans| && PlanOk(config, plans[i])
      requires Expand(plans[..i], fault, claims) == Progress(jobs, expansionClaims, None)
      modifies this, queues
      ensures |more| == if enqueued then 1 else 0
      ensures var next := Progress(jobs + more, expansionClaims, stopped);
        Expand(plans[..i + 1], fault, claims) == next && (stopped.Some? ==> more == [] && Expand(plans, fault, claims) == next)
      ensures forall name :: queues.List(name) == old(queues.List(name)) + Pushed(name, more)
      ensures Backlog() == old(Backlog()) + |more|
    {
      ghost var so := Progress(jobs, expansionClaims, None);
      enqueued, stopped := EnqueueChild(plans[i], i, fault, jobs);
      more := if enqueued then [plans[i].child] else [];
      assert jobs + more == if enqueued then jobs + [plans[i].child] else jobs;
      forall name ensures queues.List(name) == old(queues.List(name)) + Pushed(name, more) {
        assert old(queues.List(name)) + [] == old(queues.List(name));
      }
      NextTurn(plans, i, fault, claims, so, Progress(jobs + more, expansionClaims, stopped));
    }

    /** The loop over the chosen counterparties. */
    method EnqueueChildren(plans: seq<Plan>, fault: Option<Fault>) returns (result: Expansion, ghost jobs: seq<Job>)
      requires forall i :: 0 <= i < |plans| ==> PlanOk(config, plans[i])
      modifies this, queues
      ensures var so := Expand(plans, fault, old(expansionClaims));
        so == Progress(jobs, expansionClaims, if result.Complete? then None else Some(result))
      ensures |jobs| <= |plans| && (result.Complete? ==> result.enqueued == |jobs|) && (result.Interrupted? ==> fault.Some?)
      ensures forall name :: queues.List(name) == old(queues.List(name)) + Pushed(name, jobs)
      ensures Backlog() == old(Backlog()) + |jobs|
    {
      jobs := [];
      var count: nat := 0;
      for i := 0 to |plans|
        invariant Expand(plans[..i], fault, old(expansionClaims)) == Progress(jobs, expansionClaims, None) && count == |jobs|
        invariant Backlog() == old(Backlog()) + |jobs|
        invariant forall name :: queues.List(name) == old(queues.List(name)) + Pushed(name, jobs)
      {
        label before:
        var enqueued, stopped;
        ghost var more;
        enqueued, stopped, more := EnqueueNext(plans, i, fault, old(expansionClaims), jobs);
        forall name ensures queues.List(name) == old(queues.List(name)) + Pushed(name, jobs + more) {
          assert queues.List(name) == old@before(queues.List(name)) + Pushed(name, more);
          PushedAfter(name, old(queues.List(name)), jobs, more);
        }
        jobs := jobs + more;
        if stopped.Some? {
          return stopped.value, jobs;
        }
        if enqueued {
          count := count + 1;
        }
      }
      assert plans[..|plans|] == plans;
      result := Complete(count);
    }

    /** `enqueueCounterpartyExpansion`: claim and enqueue the best five counterparties. `jobs` is what was
        enqueued, also when the expansion ends early, and `all` the ranking of the counterparties. */
    method EnqueueExpansion(job: Job, ingest: Ingest, now: int)
      returns (result: Expansion, ghost jobs: seq<Job>, ghost all: seq<Candidate>)
      requires ingest.Ingested?
      modifies this, queues
      ensures RankedFor(config, job, ingest, all)
      ensures Progress(jobs, expansionClaims, if result.Complete? then None else Some(result))
              == ProgressOf(config, job, ingest, now, old(expansionClaims), all)
      ensures forall name :: queues.List(name) == old(queues.List(name)) + Pushed(name, jobs)
      ensures |jobs| < JobWeight(config, job)
      ensures (result.Complete? ==> result.enqueued == |jobs|) && (result.Interrupted? ==> ingest.fault.Some?)
      ensures Backlog() == old(Backlog()) + |jobs|
    {
      var policy := PolicyForJob(config, job);
      if !Expands(policy, RootOf(job)) {
        return Complete(0), [], [];
      }
      var candidates := ExpansionCandidates(ingest.counterparties, RootOf(job), policy.stopServices);
      all :| Ranked(all, ingest.counterparties, RootOf(job), policy.stopServices) && candidates == BestFive(all);
      var plans := Plans(job, policy, candidates, now);
      PlansAreOk(config, job, candidates, now);
      result, jobs := EnqueueChildren(plans, ingest.fault);
    }

    /** `requeueWalletBackfillRetry`. */
    method RequeueRetry(job: Job, cause: string, now: int) returns (retryCount: int, delay: int, error: Option<JobError>)
      requires retryBase < RetryDelay.TWO_63 && retryCap < RetryDelay.TWO_63
      modifies queues
      ensures retryCount == RetryCountOf(job) + 1
      ensures delay == RetryDelay.Delay(retryBase, retryCap, retryCount)
      ensures RetryDelay.NeverOverflows(retryBase, retryCap) ==>
        delay == RetryDelay.Capped(retryBase, retryCap, retryCount)
      ensures error == Validate(NormalizeJob(RetryJob(job, now, delay, cause)))
      ensures forall name :: queues.List(name) == old(queues.List(name))
                + if error.None? then Pushed(name, [RetryJob(job, now, delay, cause)]) else []
      ensures Backlog() == old(Backlog()) + if error.None? then JobWeight(config, job) else 0
    {
      retryCount := RetryCountOf(job) + 1;
      delay := RetryDelay.WalletBackfillRetryDelay(retryBase, retryCap, retryCount);
      RetryKeepsQueueAndPolicy(config, job, now, delay, cause);
      error := Enqueue(RetryJob(job, now, delay, cause));
    }

    /** What follows the ingest, after the children were pushed. */
    method Conclude(job: Job, failure: Option<Failure>, now: int, enqueued: nat) returns (report: RunReport, ghost again: seq<Job>)
      requires Validate(job).None?
      requires retryBase < RetryDelay.TWO_63 && retryCap < RetryDelay.TWO_63
      modifies queues
      ensures Concludes(Delays(retryBase, retryCap), job, failure, now, enqueued, report, again) && |again| <= 1
      ensures forall name :: queues.List(name) == old(queues.List(name)) + Pushed(name, again)
      ensures Backlog() == old(Backlog()) + if report.RetryScheduled? then JobWeight(config, job) else 0
      ensures match report case NothingDequeued => false case Processed(_, n) => n == enqueued && again == []
                           case RetryScheduled(_, _, _) => |again| == 1 case RunFailed => again == []
    {
      again := [];
      if failure.None? {
        report := Processed(job, enqueued);
      } else if failure.value.Retried() {
        var retryCount, delay, error := RequeueRetry(job, failure.value.cause, now);
        RetryIsValid(job, now, delay, failure.value.cause);
        report := RetryScheduled(job, retryCount, delay);
        again := [RetryJob(job, now, delay, failure.value.cause)];
      } else {
        report := RunFailed;
      }
    }

    /** The part of `runBatchIngest` that enqueues: nothing when it fails before the expansion. */
    method ExpandJob(job: Job, now: int, ingest: Ingest)
      returns (enqueued: nat, error: Option<Failure>, ghost so: Progress, ghost all: seq<Candidate>)
      modifies this, queues
      ensures RankedFor(config, job, ingest, all) && so == ProgressOf(config, job, ingest, now, old(expansionClaims), all)
      ensures error == FailureOf(ingest, so.End()) && expansionClaims == so.claims
      ensures forall name :: queues.List(name) == old(queues.List(name)) + Pushed(name, so.jobs)
      ensures Backlog() == old(Backlog()) + |so.jobs|
      ensures |so.jobs| < JobWeight(config, job)
      ensures error.None? ==> enqueued == |so.jobs|
    {
      if ingest.IngestFailed? {
        return 0, Some(ingest.failure), Progress([], expansionClaims, None), [];
      }
      var expansion;
      ghost var jobs;
      expansion, jobs, all := EnqueueExpansion(job, ingest, now);
      so := Progress(jobs, expansionClaims, if expansion.Complete? then None else Some(expansion));
      enqueued := if expansion.Complete? then expansion.enqueued else 0;
      error := FailureOf(ingest, expansion);
    }

    /** What `RunQueuedBackfillOnce` does with a job it took. */
    method RunJob(job: Job, now: int, ingest: Ingest) returns (report: RunReport, ghost all: seq<Candidate>, ghost pushed: seq<Job>)
      requires Validate(job).None?
      requires retryBase < RetryDelay.TWO_63 && retryCap < RetryDelay.TWO_63
      modifies this, queues
      ensures RanJob(config, Delays(retryBase, retryCap), job, ingest, now, old(expansionClaims), all, pushed, report)
      ensures forall name :: queues.List(name) == old(queues.List(name)) + Pushed(name, pushed)
      ensures expansionClaims == ProgressOf(config, job, ingest, now, old(expansionClaims), all).claims
      ensures Changes(report, pushed, JobWeight(config, job), Backlog() - old(Backlog()))
      ensures Grows(config, Taken(job), ingest, now, old(expansionClaims), all) <==> report.RetryScheduled? && |pushed| > 1
    {
      var enqueued, error;
      ghost var so, again;
      enqueued, error, so, all := ExpandJob(job, now, ingest);
      label expanded:
      report, again := Conclude(job, error, now, enqueued);
      pushed := so.jobs + again;
      PushedBoth(so.jobs, again);
      forall name ensures queues.List(name) == old(queues.List(name)) + Pushed(name, pushed) {
        assert queues.List(name) == old@expanded(queues.List(name)) + Pushed(name, again);
        Associates(old(queues.List(name)), Pushed(name, so.jobs), Pushed(name, again));
      }
      JobTurn(config, Delays(retryBase, retryCap), job, ingest, now, old(expansionClaims), all, enqueued, again, report);
    }

    ghost function State(): Snapshot
      reads this, queues
    {
      Snapshot(queues.List(PRIORITY), queues.List(DEFAULT), expansionClaims)
    }

    /** `RunQueuedBackfillOnce`. `turn` records what the read took, the ranking of its counterparties and the
        jobs enqueued after it. The backlog grows exactly when the job has a child to enqueue before an error
        that queues it again, and then by as many as there are. */
    method RunOnce(now: int, ingest: Ingest) returns (report: RunReport, ghost turn: TurnRecord)
      requires retryBase < RetryDelay.TWO_63 && retryCap < RetryDelay.TWO_63
      modifies this, queues
      ensures TurnOk(config, Delays(retryBase, retryCap), turn)
      ensures turn.before == old(State()) && turn.after == State()
      ensures turn.now == now && turn.ingest == ingest && turn.report == report
      ensures Backlog() > old(Backlog()) <==> Grows(config, turn.outcome, ingest, now, old(expansionClaims), turn.all)
      ensures Costs(config, turn)
    {
      ghost var before := State();
      var outcome := Dequeue(now);
      ghost var lists := ReadLists([before.priority] + [before.ordinary], now).1;
      match outcome {
        case NothingDue =>
          report := NothingDequeued;
          turn := TurnRecord(before, now, ingest, outcome, [], [], report, State());
        case Rejected(_) =>
          report := RunFailed;
          turn := TurnRecord(before, now, ingest, outcome, [], [], report, State());
        case Taken(job) =>
          TakenIsValid([before.priority] + [before.ordinary], now);
          ghost var all, pushed;
          report, all, pushed := RunJob(job, now, ingest);
          turn := TurnRecord(before, now, ingest, outcome, all, pushed, report, State());
      }
    }

    /** One turn of a batch: `next` adds it to the turns so far. */
    method RunTurn(world: nat -> (int, Ingest), i: nat, ghost so: BatchReport, ghost turns: seq<TurnRecord>, ghost start: Snapshot)
      returns (item: RunReport, ghost next: seq<TurnRecord>)
      requires retryBase < RetryDelay.TWO_63 && retryCap < RetryDelay.TWO_63
      requires |turns| == i && Running(config, Follows(config, Delays(retryBase, retryCap), world), turns, start, State(), so)
      modifies this, queues
      ensures |next| == i + 1
      ensures Works(item) ==>
        Running(config, Follows(config, Delays(retryBase, retryCap), world), next, start, State(), Counting(so, item))
      ensures !Works(item) ==>
        Stopped(config, Follows(config, Delays(retryBase, retryCap), world), next, start, State(), Counting(so, item))
      ensures item == NothingDequeued ==> AllDelayed(State(), world(i).0)
    {
      ghost var turn;
      item, turn := RunOnce(world(i).0, world(i).1);
      next := turns + [turn];
      RunningNext(config, Follows(config, Delays(retryBase, retryCap), world), turns, turn, start, so);
      if item == NothingDequeued {
        NothingIsDue(config, Delays(retryBase, retryCap), turn);
      }
    }

    /** What a turn adds to the report of its batch, and whether the batch ends with it. */
    static method Count(so: BatchReport, item: RunReport) returns (report: BatchReport, done: bool)
      ensures report == Counting(so, item) && done == !Works(item)
    {
      report, done := so, false;
      match item
      case RunFailed => return BatchReport(0, 0, 0, true), true;
      case NothingDequeued => done := true;
      case Processed(_, children) =>
        report := report.(jobsProcessed := report.jobsProcessed + 1, expansionEnqueued := report.expansionEnqueued + children);
      case RetryScheduled(_, _, _) =>
        report := report.(jobsProcessed := report.jobsProcessed + 1, retriesScheduled := report.retriesScheduled + 1);
    }

    /** `RunQueuedBackfillBatch`; `world(i)` is the clock and the ingest of the i-th job, and `turns` what the
        batch did, also when it ends with an error and reports nothing. */
    method RunBatch(limit: int, world: nat -> (int, Ingest)) returns (report: BatchReport, ghost turns: seq<TurnRecord>)
      requires retryBase < RetryDelay.TWO_63 && retryCap < RetryDelay.TWO_63
      modifies this, queues
      ensures BatchRan(config, Delays(retryBase, retryCap), limit, world, old(State()), State(), turns, report)
      // A batch that stops short of its limit without an error has read everything that was due.
      ensures !report.failed && report.jobsProcessed < limit ==> AllDelayed(State(), world(report.jobsProcessed).0)
    {
      turns := [];
      if limit <= 0 {
        return BatchReport(0, 0, 0, true), [];
      }
      report := BatchReport(0, 0, 0, false);
      for i := 0 to limit
        invariant |turns| == i
        invariant Running(config, Follows(config, Delays(retryBase, retryCap), world), turns, old(State()), State(), report)
      {
        var item, done;
        item, turns := RunTurn(world, i, report, turns, old(State()));
        report, done := Count(report, item);
        if done {
          return;
        }
      }
    }

    /** `RunQueuedBackfillLoop`, stopped after `cycles` batches; `batches` is what they did. The drain ends:
        over any number of batches, the jobs processed are at most the starting backlog plus six for each retry. */
    method RunLoop(cycles: nat, limit: int, world: (nat, nat) -> (int, Ingest))
      returns (report: BatchReport, ghost batches: seq<BatchRecord>)
      requires retryBase < RetryDelay.TWO_63 && retryCap < RetryDelay.TWO_63
      modifies this, queues
      ensures LoopRan(config, Delays(retryBase, retryCap), cycles, limit, world, old(State()), State(), batches, report)
      ensures Backlog() + JobsOver(batches) <= old(Backlog()) + 6 * RetriesOver(batches)
    {
      batches := [];
      report := BatchReport(0, 0, 0, false);
      for cycle := 0 to cycles
        invariant LoadOf(config, State()) + JobsOver(batches) <= old(LoadOf(config, State())) + 6 * RetriesOver(batches)
        invariant |batches| == cycle && Batches(InOrder(config, Delays(retryBase, retryCap), limit, world), old(State()), State(), batches)
        invariant Totalled(batches, report)
      {
        ghost var started := State();
        ghost var turns;
        var batch;
        batch, turns := RunBatch(limit, BatchWorld(world, cycle));
        ghost var more := BatchRecord(started, State(), turns, batch);
        BatchesNext(InOrder(config, Delays(retryBase, retryCap), limit, world), old(State()), batches, more);
        TotalledNext(batches, more, report);
        batches := batches + [more];
        if batch.failed {
          report := report.(failed := true);
          return;
        }
        report := BatchReport(report.jobsProcessed + batch.jobsProcessed, report.expansionEnqueued + batch.expansionEnqueued,
                              report.retriesScheduled + batch.retriesScheduled, false);
      }
    }
  }

  /** One batch of the loop. */
  datatype BatchRecord = BatchRecord(before: Snapshot, after: Snapshot, turns: seq<TurnRecord>, report: BatchReport)

  function BatchWorld(world: (nat, nat) -> (int, Ingest), cycle: nat): nat -> (int, Ingest) {
    (i: nat) => world(cycle, i)
  }

  function JobsOver(batches: seq<BatchRecord>): nat {
    if batches == [] then 0 else JobsOver(batches[..|batches| - 1]) + JobsIn(batches[|batches| - 1].turns)
  }

  function ChildrenOver(batches: seq<BatchRecord>): nat {
    if batches == [] then 0 else ChildrenOver(batches[..|batches| - 1]) + ChildrenIn(batches[|batches| - 1].turns)
  }

  function RetriesOver(batches: seq<BatchRecord>): nat {
    if batches == [] then 0 else RetriesOver(batches[..|batches| - 1]) + RetriesIn(batches[|batches| - 1].turns)
  }

  /** The batches follow one another, each finding what the one before left. */
  ghost predicate Batches(ok: (nat, BatchRecord) -> bool, before: Snapshot, after: Snapshot, batches: seq<BatchRecord>) {
    && (if batches == [] then before == after else batches[0].before == before && batches[|batches| - 1].after == after)
    && (forall j, k :: 0 <= j && k == j + 1 < |batches| ==> batches[j].after == batches[k].before)
    && (forall k {:trigger ok(k, batches[k])} :: 0 <= k < |batches| ==> ok(k, batches[k]))
  }

  /** No batch failed, and the report sums them. */
  ghost predicate Totalled(batches: seq<BatchRecord>, report: BatchReport) {
    && report == BatchReport(JobsOver(batches), ChildrenOver(batches), RetriesOver(batches), false)
    && forall k :: 0 <= k < |batches| ==> !batches[k].report.failed
  }

  /** The loop runs all its batches unless one fails, which ends it, and reports what those that did not fail did. */
  ghost predicate LoopRan(config: Config, delays: Delays, cycles: nat, limit: int, world: (nat, nat) -> (int, Ingest),
                          before: Snapshot, after: Snapshot, batches: seq<BatchRecord>, report: BatchReport)
  {
    && Batches(InOrder(config, delays, limit, world), before, after, batches)
    && |batches| <= cycles
    && if !report.failed then |batches| == cycles && Totalled(batches, report)
       else
         var n := |batches| - 1;
         && n >= 0 && batches[n].report.failed && Totalled(batches[..n], report.(failed := false))
  }

  lemma {:induction false} TotalledNext(batches: seq<BatchRecord>, more: BatchRecord, so: BatchReport)
    requires Totalled(batches, so)
    requires !more.report.failed ==> more.report == BatchReport(JobsIn(more.turns), ChildrenIn(more.turns), RetriesIn(more.turns), false)
    ensures (batches + [more])[..|batches|] == batches
    ensures JobsOver(batches + [more]) == JobsOver(batches) + JobsIn(more.turns)
    ensures RetriesOver(batches + [more]) == RetriesOver(batches) + RetriesIn(more.turns)
    ensures !more.report.failed ==>
      Totalled(batches + [more], BatchReport(so.jobsProcessed + more.report.jobsProcessed,
                                             so.expansionEnqueued + more.report.expansionEnqueued,
                                             so.retriesScheduled + more.report.retriesScheduled, false))
  {
    assert (batches + [more])[..|batches|] == batches;
  }

  ghost function InOrder(config: Config, delays: Delays, limit: int, world: (nat, nat) -> (int, Ingest)): (nat, BatchRecord) -> bool {
    (k: nat, batch: BatchRecord) =>
      BatchRan(config, delays, limit, BatchWorld(world, k), batch.before, batch.after, batch.turns, batch.report)
  }

  lemma BatchesNext(ok: (nat, BatchRecord) -> bool, before: Snapshot, batches: seq<BatchRecord>, more: BatchRecord)
    requires Batches(ok, before, more.before, batches) && ok(|batches|, more)
    ensures Batches(ok, before, more.after, batches + [more])
  {
  }

  lemma {:induction false} RunningNext(config: Config, ok: (nat, TurnRecord) -> bool, turns: seq<TurnRecord>, turn: TurnRecord,
                                       start: Snapshot, so: BatchReport)
    requires Running(config, ok, turns, start, turn.before, so)
    requires ok(|turns|, turn) && Costs(config, turn)
    ensures Works(turn.report) ==> Running(config, ok, turns + [turn], start, turn.after, Counting(so, turn.report))
    ensures !Works(turn.report) ==> Stopped(config, ok, turns + [turn], start, turn.after, Counting(so, turn.report))
  {
    TurnsNext(ok, turns, turn, start);
    CountsNext(turns, turn);
  }

  lemma TurnsNext(ok: (nat, TurnRecord) -> bool, turns: seq<TurnRecord>, turn: TurnRecord, start: Snapshot)
    requires Turns(ok, turns, start, turn.before) && ok(|turns|, turn)
    requires turns != [] ==> Works(turns[|turns| - 1].report)
    ensures Turns(ok, turns + [turn], start, turn.after)
  {
  }

  lemma {:induction false} CountsNext(turns: seq<TurnRecord>, turn: TurnRecord)
    ensures JobsIn(turns + [turn]) == JobsIn(turns) + if Works(turn.report) then 1 else 0
    ensures ChildrenIn(turns + [turn]) == ChildrenIn(turns) + if turn.report.Processed? then turn.report.expansionEnqueued else 0
    ensures RetriesIn(turns + [turn]) == RetriesIn(turns) + if turn.report.RetryScheduled? then 1 else 0
  {
    assert (turns + [turn])[..|turns|] == turns;
  }

  /** What a turn does to the backlog. */
  ghost predicate Costs(config: Config, t: TurnRecord) {
    match t.report
    case NothingDequeued => LoadOf(config, t.after) == LoadOf(config, t.before)
    case RetryScheduled(_, _, _) => 1 <= |t.pushed| <= 6 && LoadOf(config, t.after) == LoadOf(config, t.before) + |t.pushed| - 1
    case _ => LoadOf(config, t.after) < LoadOf(config, t.before)
  }

  ghost predicate AllDelayed(so: Snapshot, now: int) {
    forall p :: p in so.priority + so.ordinary ==> Delayed(p, now)
  }

  /** A turn that takes nothing finds everything delayed and leaves it as it was. */
  lemma NothingIsDue(config: Config, delays: Delays, t: TurnRecord)
    requires TurnOk(config, delays, t) && t.report == NothingDequeued
    ensures t.after == t.before && AllDelayed(t.after, t.now)
  {
    NothingRead(t.before.priority, t.before.ordinary, t.now);
  }

  lemma NothingRead(priority: seq<Payload>, ordinary: seq<Payload>, now: int)
    requires ReadLists([priority] + [ordinary], now).0 == NothingDue
    ensures ReadLists([priority] + [ordinary], now).1 == [priority] + [ordinary]
    ensures forall p :: p in priority + ordinary ==> Delayed(p, now)
  {
    ReadCons(priority, [ordinary], now);
    ReadOneList(ordinary, now);
    ScanAllOrNothing(priority, now);
    ScanAllOrNothing(ordinary, now);
  }

  /** What a job's turn adds to the backlog it was already taken out of. */
  ghost predicate Changes(report: RunReport, pushed: seq<Job>, weight: nat, change: int) {
    match report
    case NothingDequeued => false
    case Processed(_, children) => change == children < weight
    case RetryScheduled(_, _, _) => 1 <= |pushed| <= 1 + MAX_EXPANSION_COUNTERPARTIES && change == weight + |pushed| - 1
    case RunFailed => 0 <= change < weight
  }

  lemma JobTurn(config: Config, delays: Delays, job: Job, ingest: Ingest, now: int, claims: Claims, all: seq<Candidate>,
                enqueued: nat, again: seq<Job>, report: RunReport)
    requires RankedFor(config, job, ingest, all)
    requires var so := ProgressOf(config, job, ingest, now, claims, all);
      var failure := FailureOf(ingest, so.End());
      && (failure.None? ==> enqueued == |so.jobs|) && |so.jobs| < JobWeight(config, job)
      && Concludes(delays, job, failure, now, enqueued, report, again)
    ensures var so := ProgressOf(config, job, ingest, now, claims, all);
      && RanJob(config, delays, job, ingest, now, claims, all, so.jobs + again, report)
      && Changes(report, so.jobs + again, JobWeight(config, job),
                 |so.jobs| + if report.RetryScheduled? then JobWeight(config, job) else 0)
      && (Grows(config, Taken(job), ingest, now, claims, all) <==> report.RetryScheduled? && |so.jobs + again| > 1)
  {
    var children := ProgressOf(config, job, ingest, now, claims, all).jobs;
    assert (children + again)[|children|..] == again;
  }

  /** A turn that grows the backlog: a counterparty's child is enqueued, a later call of the ingest times
      out, and the job itself is queued again. */
  lemma LateTimeOutGrows(config: Config, job: Job, ref: WalletRef, now: int, cause: string)
    requires Expands(PolicyForJob(config, job), RootOf(job)) && !ChainOf(Lower(Trim(ref.chain))).Unsupported?
    requires Counted(Some(ref), RootOf(job), PolicyForJob(config, job).stopServices) == Some(ref)
    ensures var timeOut := Failure(true, cause, false);
      var ingest := Ingested([Some(ref)], None, timeOut, Some(timeOut));
      var all := [Candidate(CanonicalKey(ref), ref, 1)];
      && RankedFor(config, job, ingest, all) && Grows(config, Taken(job), ingest, now, {}, all)
      && ProgressOf(config, job, ingest, now, {}, all).jobs == [ChildJob(job, PolicyForJob(config, job), ref, 1, now)]
  {
    var all := [Candidate(CanonicalKey(ref), ref, 1)];
    OneIsRanked(ref, RootOf(job), PolicyForJob(config, job).stopServices);
    ChildIsValid(job, PolicyForJob(config, job), ref, now);
    OneTurn(PlansOf(config, job, now, all));
  }

  lemma ChildIsValid(job: Job, policy: Policy, ref: WalletRef, now: int)
    requires Trim(ref.address) != "" && !ChainOf(Lower(Trim(ref.chain))).Unsupported?
    ensures Validate(NormalizeJob(ChildJob(job, policy, ref, 1, now))).None?
  {
    TrimIsTrimmed(ref.address);
    TrimOfTrimmed(Trim(ref.address));
    TrimIsTrimmed("wallet_backfill_expansion");
    TrimOfTrimmed(Trim("wallet_backfill_expansion"));
    TrimOfTrimmed("wallet_backfill_expansion");
  }

  lemma {:induction false} OneTurn(plans: seq<Plan>)
    requires |plans| == 1 && !plans[0].invalid
    ensures Expand(plans, None, {}) == Progress([plans[0].child], {plans[0].claim}, None)
  {
    assert Expand(plans[..0], None, {}) == Progress([], {}, None);
  }

  lemma OneIsRanked(ref: WalletRef, root: WalletRef, stop: bool)
    requires Counted(Some(ref), root, stop) == Some(ref)
    ensures Ranked([Candidate(CanonicalKey(ref), ref, 1)], [Some(ref)], root, stop)
  {
    var all := [Candidate(CanonicalKey(ref), ref, 1)];
    forall key ensures Hits([Some(ref)], 1, root, stop, key) == if key == CanonicalKey(ref) then 1 else 0 {
      assert Hits([Some(ref)], 1, root, stop, key)
             == Hits([Some(ref)], 0, root, stop, key) + if CountsFor(Some(ref), key) then 1 else 0;
    }
    assert all[0] in all;
  }

  /** The backlog is empty exactly when the list is. */
  lemma EmptyLoad(config: Config, q: seq<Payload>)
    ensures Load(config, q) == 0 <==> q == []
    ensures Load(config, q) <= (1 + MAX_EXPANSION_COUNTERPARTIES) * |q|
  {
  }
}
