/** Queued backfill policies, retry jobs and expansion candidates (apps/workers/backfill.go). */
module BackfillPolicy {
  import opened Text
  import opened Sorting
  import opened BackfillQueue

  const DEFAULT_WINDOW_DAYS := 180
  const DEFAULT_LIMIT := 500
  const DEFAULT_EXPANSION_DEPTH := 1
  const MAX_EXPANSION_COUNTERPARTIES := 5

  datatype Policy = Policy(windowDays: int, limit: int, expansionDepth: int, stopServices: bool)

  /** The per-source policies that the environment sets. */
  datatype Config = Config(watchlistBootstrap: Policy, seedDiscovery: Policy)

  function IntMeta(metadata: Metadata, key: Field, fallback: int): int {
    if key !in metadata then fallback
    else
      match metadata[key]
      case Number(n) => n
      case Str(s) => (match Atoi(Trim(s)) case Some(n) => n case None => fallback)
      case _ => fallback
  }

  function BoolMeta(metadata: Metadata, key: Field, fallback: bool): bool {
    if key !in metadata then fallback
    else
      match metadata[key]
      case Flag(b) => b
      case Str(s) =>
        var word := Lower(Trim(s));
        if word in ["true", "1", "yes"] then true
        else if word in ["false", "0", "no"] then false
        else fallback
      case _ => fallback
  }

  function Clamp(value: int, fallback: int, most: int): int {
    if value <= 0 then fallback else if value > most then most else value
  }

  function PolicyForJob(config: Config, job: Job): Policy {
    var source := Trim(job.source);
    var base :=
      if source == "watchlist_bootstrap" then config.watchlistBootstrap.(stopServices := true)
      else if source == "seed_discovery" then config.seedDiscovery.(stopServices := true)
      else Policy(DEFAULT_WINDOW_DAYS, DEFAULT_LIMIT, DEFAULT_EXPANSION_DEPTH, true);
    Policy(
      Clamp(IntMeta(job.metadata, WindowDays, base.windowDays), DEFAULT_WINDOW_DAYS, 365),
      Clamp(IntMeta(job.metadata, Limit, base.limit), DEFAULT_LIMIT, 1000),
      Clamp(IntMeta(job.metadata, ExpansionDepth, base.expansionDepth), DEFAULT_EXPANSION_DEPTH, 2),
      BoolMeta(job.metadata, StopServices, base.stopServices))
  }

  /** Whatever a job's metadata says, its policy is within bounds, and a number within bounds is what it says. */
  lemma PolicyIsWithinBounds(config: Config, job: Job)
    ensures var policy := PolicyForJob(config, job);
      && 1 <= policy.windowDays <= 365 && 1 <= policy.limit <= 1000 && 1 <= policy.expansionDepth <= 2
      && (WindowDays in job.metadata && job.metadata[WindowDays].Number? && 1 <= job.metadata[WindowDays].n <= 365
          ==> policy.windowDays == job.metadata[WindowDays].n)
      && (Limit in job.metadata && job.metadata[Limit].Number? && 1 <= job.metadata[Limit].n <= 1000
          ==> policy.limit == job.metadata[Limit].n)
      && (ExpansionDepth in job.metadata && job.metadata[ExpansionDepth].Number? && 1 <= job.metadata[ExpansionDepth].n <= 2
          ==> policy.expansionDepth == job.metadata[ExpansionDepth].n)
  {
  }

  /** Without settings of its own, a job runs under the policy configured for its source. */
  lemma SourcePolicy(config: Config, job: Job)
    requires {WindowDays, Limit, ExpansionDepth, StopServices} !! job.metadata.Keys
    ensures var source := Trim(job.source);
      var policy := PolicyForJob(config, job);
      && (source == "watchlist_bootstrap" ==> SameOrDefault(policy, config.watchlistBootstrap))
      && (source == "seed_discovery" ==> SameOrDefault(policy, config.seedDiscovery))
      && (source !in {"watchlist_bootstrap", "seed_discovery"} ==>
           policy.windowDays == 180 && policy.limit == 500 && policy.expansionDepth == 1)
      && policy.stopServices
  {
  }

  /** The numbers are the configured ones, as far as those are within bounds. */
  predicate SameOrDefault(policy: Policy, configured: Policy) {
    && (1 <= configured.windowDays <= 365 ==> policy.windowDays == configured.windowDays)
    && (1 <= configured.limit <= 1000 ==> policy.limit == configured.limit)
    && (1 <= configured.expansionDepth <= 2 ==> policy.expansionDepth == configured.expansionDepth)
  }

  function RetryCountOf(job: Job): int { IntMeta(job.metadata, RetryCount, 0) }

  /** The job `requeueWalletBackfillRetry` enqueues. */
  function RetryJob(job: Job, now: int, delay: int, cause: string): Job {
    NormalizeJob(job.(
      requestedAt := Some(now + delay),
      metadata := job.metadata[
        RetryCount := Number(RetryCountOf(job) + 1)][
        LastError := Str(cause)][
        LastErrorAt := Compound][
        Retryable := Flag(true)][
        RetryDelaySeconds := Number(delay / 1_000_000_000)]))
  }

  /** A retry stays in its job's queue class and is run under the same policy; only its due time
      moves and its retry count grows by one. */
  lemma RetryKeepsQueueAndPolicy(config: Config, job: Job, now: int, delay: int, cause: string)
    ensures var retry := RetryJob(job, now, delay, cause);
      && QueueNameForJob(retry) == QueueNameForJob(job)
      && PolicyForJob(config, retry) == PolicyForJob(config, job)
      && RetryCountOf(retry) == RetryCountOf(job) + 1
      && retry.requestedAt == Some(now + delay)
      && retry.chain == job.chain && retry.address == Trim(job.address) && retry.source == Trim(job.source)
  {
    var retry := RetryJob(job, now, delay, cause);
    TrimIsTrimmed(job.source);
    TrimOfTrimmed(Trim(job.source));
    assert Trim(retry.source) == Trim(job.source);
    SameFields(config, job, retry);
  }

  /** The queue class and the policy depend only on the source and five metadata fields. */
  lemma SameFields(config: Config, a: Job, b: Job)
    requires Trim(a.source) == Trim(b.source)
    requires forall f :: f in {SourceType, WindowDays, Limit, ExpansionDepth, StopServices} ==>
      (f in a.metadata <==> f in b.metadata) && (f in a.metadata ==> a.metadata[f] == b.metadata[f])
    ensures QueueNameForJob(a) == QueueNameForJob(b)
    ensures PolicyForJob(config, a) == PolicyForJob(config, b)
  {
  }

  datatype WalletRef = WalletRef(chain: string, address: string)

  /** `BuildWalletCanonicalKey`. */
  function CanonicalKey(ref: WalletRef): string {
    Lower(Trim(ref.chain)) + ":" + Trim(ref.address)
  }

  predicate SkipCounterparty(root: WalletRef, ref: WalletRef, stopServices: bool) {
    var address := Trim(ref.address);
    || ref.chain == "" || address == ""
    || (ref.chain == root.chain && Lower(address) == Lower(Trim(root.address)))
    || (stopServices && (IsEvmZeroAddress(address) || IsSolanaSystemProgram(address)))
  }

  /** 0x and forty zeros. */
  predicate IsEvmZeroAddress(address: string) {
    |address| == 42 && LowerChar(address[1]) == 'x' && forall i :: 0 <= i < 42 && i != 1 ==> address[i] == '0'
  }

  /** Thirty-two ones. */
  predicate IsSolanaSystemProgram(address: string) {
    |address| == 32 && forall i :: 0 <= i < 32 ==> address[i] == '1'
  }

  /** A counterparty, the key it is counted under, and its hits. */
  datatype Candidate = Candidate(key: string, ref: WalletRef, count: nat)

  /** More hits first, then the smaller canonical key. */
  predicate Better(a: Candidate, b: Candidate) {
    if a.count == b.count then StringLess(a.key, b.key) else a.count > b.count
  }

  lemma BetterIsStrictOrder()
    ensures StrictOrder(Better)
  {
    forall a, b, c ensures !Better(a, a) && (Better(a, b) && Better(b, c) ==> Better(a, c)) {
      StringLessIsStrict(a.key, b.key, c.key);
    }
  }

  /** The wallet a counterparty counts for: present, trimmed and not skipped. */
  function Counted(c: Option<WalletRef>, root: WalletRef, stop: bool): Option<WalletRef> {
    if c.None? then None
    else
      var ref := c.value.(address := Trim(c.value.address));
      if SkipCounterparty(root, ref, stop) then None else Some(ref)
  }

  /** Every counterparty counts but one without a chain or an address, the root itself in any letter case, and
      the two service addresses where those are to be left out. */
  lemma {:induction false} CountedIff(ref: WalletRef, root: WalletRef, stop: bool)
    ensures Counted(Some(ref), root, stop) ==
      if ref.chain != "" && Trim(ref.address) != ""
         && !(ref.chain == root.chain && EqualFold(Trim(ref.address), Trim(root.address)))
         && !(stop && (IsEvmZeroAddress(Trim(ref.address)) || IsSolanaSystemProgram(Trim(ref.address))))
      then Some(WalletRef(ref.chain, Trim(ref.address))) else None
  {
    TrimIsTrimmed(ref.address);
    TrimOfTrimmed(Trim(ref.address));
    LowerFolds(Trim(ref.address), Trim(root.address));
  }

  predicate CountsFor(c: Option<WalletRef>, key: string) {
    c.Some? && CanonicalKey(c.value) == key
  }

  /** How many of the first `n` counterparties count for the canonical key. */
  function Hits(counterparties: seq<Option<WalletRef>>, n: nat, root: WalletRef, stop: bool, key: string): nat
    requires n <= |counterparties|
  {
    if n == 0 then 0
    else Hits(counterparties, n - 1, root, stop, key) + if CountsFor(Counted(counterparties[n - 1], root, stop), key) then 1 else 0
  }

  /** The counting loop of `enqueueCounterpartyExpansion`. */
  method CountCounterparties(counterparties: seq<Option<WalletRef>>, root: WalletRef, stop: bool)
    returns (counts: map<string, Candidate>)
    ensures forall k :: k in counts ==> counts[k].key == k == CanonicalKey(counts[k].ref) && counts[k].count > 0
    ensures forall k :: Hits(counterparties, |counterparties|, root, stop, k) == if k in counts then counts[k].count else 0
  {
    counts := map[];
    for i := 0 to |counterparties|
      invariant forall k :: k in counts ==> counts[k].key == k == CanonicalKey(counts[k].ref) && counts[k].count > 0
      invariant forall k :: Hits(counterparties, i, root, stop, k) == if k in counts then counts[k].count else 0
    {
      var counted := Counted(counterparties[i], root, stop);
      if counted.Some? {
        var key := CanonicalKey(counted.value);
        var count := if key in counts then counts[key].count else 0;
        counts := counts[key := Candidate(key, counted.value, count + 1)];
      }
    }
  }

  /** Copying the map into a slice, in whatever order the map is iterated. */
  method CandidateList(counts: map<string, Candidate>) returns (candidates: seq<Candidate>)
    requires forall k :: k in counts ==> counts[k].key == k
    ensures forall c :: c in candidates <==> c.key in counts && counts[c.key] == c
    ensures forall i, j :: 0 <= i < j < |candidates| ==> candidates[i].key != candidates[j].key
  {
    candidates := [];
    var left := counts.Keys;
    while left != {}
      invariant left <= counts.Keys
      invariant forall c :: c in candidates <==> c.key in counts.Keys - left && counts[c.key] == c
      invariant forall i, j :: 0 <= i < j < |candidates| ==> candidates[i].key != candidates[j].key
      decreases |left|
    {
      var key :| key in left;
      forall i | 0 <= i < |candidates| ensures candidates[i].key != key {
        assert candidates[i] in candidates;
      }
      candidates := candidates + [counts[key]];
      left := left - {key};
    }
  }

  /** `all` lists every counterparty that counts, once, with its hits, the ones with most hits first. */
  ghost predicate Ranked(all: seq<Candidate>, counterparties: seq<Option<WalletRef>>, root: WalletRef, stop: bool) {
    && Sorted(Better, all)
    && (forall c :: c in all ==>
         c.key == CanonicalKey(c.ref) && c.count == Hits(counterparties, |counterparties|, root, stop, c.key) > 0)
    && (forall key :: Hits(counterparties, |counterparties|, root, stop, key) > 0 ==> exists c :: c in all && c.key == key)
  }

  function BestFive(all: seq<Candidate>): seq<Candidate> {
    if |all| > MAX_EXPANSION_COUNTERPARTIES then all[..MAX_EXPANSION_COUNTERPARTIES] else all
  }

  /** The best five counterparties. */
  method ExpansionCandidates(counterparties: seq<Option<WalletRef>>, root: WalletRef, stop: bool)
    returns (chosen: seq<Candidate>)
    ensures exists all :: Ranked(all, counterparties, root, stop) && chosen == BestFive(all)
  {
    var counts := CountCounterparties(counterparties, root, stop);
    var candidates := CandidateList(counts);
    var sorted := Sort(Better, candidates);
    SortedCandidates(candidates);
    forall key | Hits(counterparties, |counterparties|, root, stop, key) > 0
      ensures exists c :: c in sorted && c.key == key
    {
      assert counts[key] in sorted;
    }
    assert Ranked(sorted, counterparties, root, stop);
    chosen := BestFive(sorted);
  }

  lemma SortedCandidates(candidates: seq<Candidate>)
    requires forall i, j :: 0 <= i < j < |candidates| ==> candidates[i].key != candidates[j].key
    ensures Sorted(Better, Sort(Better, candidates))
    ensures forall c :: c in Sort(Better, candidates) <==> c in candidates
  {
    BetterIsStrictOrder();
    forall i, j | 0 <= i < j < |candidates| ensures Better(candidates[i], candidates[j]) || Better(candidates[j], candidates[i]) {
      StringLessIsStrict(candidates[i].key, candidates[j].key, "");
    }
    SortIsSorted(Better, candidates);
    SortIsPermutation(Better, candidates);
  }
}
