# Verified models of the Qorvi workers and stores

A Dafny model of the parts of the repository that keep state over many steps, with proofs about every
run of them. SQL, Redis and Cypher statements are the atomic steps; what a provider, a sender or a clock
answers is an input, so every failure pattern is covered. Methods follow the Go methods step by step and are
proved against functions; the theorems are about those functions, over all inputs, runs or interleavings.

| files | what they model |
|---|---|
| `BackfillQueue`, `BackfillQueueLaws`, `QueueConsumers`, `LoneConsumer` | the two-tier delayed queue: the scan-and-rotate read, its FIFO and rotation theorems, several consumers at Redis-command granularity, and that one of them alone does what the read does |
| `RetryDelay`, `BackfillPolicy`, `BackfillDrain`, `BackfillDrainLaws` | retry delays on 64-bit integers, job policies, the drain with retries and hop expansion, why it ends, and what a batch takes before it does |
| `IngestClaims`, `IngestRun`, `InteractionGraph`, `DailyStats` | claim, write, materialise and release with a failure at any call; graph counters; the cumulative statistics query |
| `AlertDispatch`, `AlertCooldown` | cooldown windows, severity escalation and bucketed dedup keys |
| `AlertDelivery`, `AlertDeliveryLaws` | the life of a delivery attempt and the fairness of the retry batches |
| `CuratedIndex`, `CuratedIndexLaws`, `EntitySync`, `SyncOverlap`, `EntityStore` | the curated entity index, its sync interleaved with heuristic batches and with other syncs, and graph invalidation |
| `KeysetPaging`, `KeysetWalk`, `CursorCodec` | the cursor-paged feeds and the text of their cursors |
| `OutcomeMaturity` | when the outcome of an entry is settled |
| `ReadThroughCache`, `GraphCaches`, `CacheRaces` | the graph and feed caches, when they agree with their loaders, and their reads and invalidations one command at a time |
| `Text`, `Sorting` | strings, sorting and deduplication shared by the others |

`dafny verify dfyconfig.toml` checks the project.

## What the proofs found

Where the code promises less than its surroundings suggest, the model keeps the code, and the lemmas say when the
promise holds:

- An error after the expansion, or in it, may be retryable, and then the job is queued again beside the children it already enqueued. The backlog grows exactly then (`BackfillDrain.BackfillWorker.RunOnce`), so the drain is bounded by six jobs for each retry, not one (`BackfillDrain.BackfillWorker.RunLoop`, `BackfillDrain.LateTimeOutGrows`).
- A claim that errors part-way, a release that errors, or a crash leaves claims behind. That loses a transaction exactly when something still held is not stored (`IngestClaims.AbandonLosesIffUnstored`). A concurrent run that skips such a key can succeed without it being stored (`IngestClaims.SkippedDuplicateCanBeMissing`): exactly when the holder gave the key up and nobody claimed it since (`IngestClaims.SkippedIsMissingIff`).
- A transaction that was materialised and then released for retry is counted twice, for good (`IngestRun.RetryAfterReleaseDoubleCounts`). A run and its retry count everything once exactly when the run does not release what it materialised (`IngestRun.RetryMaterializesOnceIff`, `IngestRun.GuardedIff`).
- A claim that errors after a fresh one, or a release that errors before the graph has the transaction, leaves a key claimed that the graph never gets: its counters are too low for good, also when the transaction was stored (`IngestRun.LeakedForGood`, `IngestRun.FailedReleaseUndercounts`). A run and its retry count all that is claimed once exactly when the run neither leaves such a key nor releases what it materialised (`IngestRun.RetryCountsAllOnceIff`, `IngestRun.ExactIff`).
- A doubling delay overflows without notice exactly when some doubled value exceeds 63 bits (`RetryDelay.LoopIsCappedIffNoOverflow`), which base and cap alone decide (`RetryDelay.NeverOverflowsIff`).
- A statistics refresh never deletes, so the table is exact exactly when rows for days without transactions were (`DailyStats.RefreshIsExactIffNoStaleDay`).
- Dedup keys are a second line only for signals out of order (`AlertCooldown.OutOfOrderIsDeduped`, with the exact condition in `AlertCooldown.DedupedIff`).
- Two overlapping retry batches send an attempt twice and count once (`AlertDeliveryLaws.OverlappingBatchesLoseACount`); counts are right exactly when every retry starts from the row the one before left (`AlertDeliveryLaws.OverlapIsCountedIff`).
- Curated syncs that overlap and read different lists can leave a wallet with a key that no entity has, although all of them finish (`SyncOverlap.OverlappingSyncsDangle`). They cannot exactly when each index defines every key that one of them assigns (`SyncOverlap.NeverDanglesIff`), as it does when the lists are the same; at any point of a run, `SyncOverlap.DanglesIff` says which keys dangle.
- Invalidation folds the case of addresses, while the snapshot table does not (`EntityStore.AllAreInvalidatedIffOneCasing`).
- Cursors hold whole seconds, and a snapshot feed shows the payload's time and score: a page loses rows exactly when its last row's cursor passes them over (`KeysetWalk.ReturnedIff`), and a static table is paged right exactly when the cursor of every row but the last selects the rows after it (`KeysetWalk.StaticWalkIsSortIff`, `KeysetPaging.BehindItselfIff`).
- A finding that is updated in place keeps its id and changes its time, so it can be returned twice: only when it moved down the order past a cursor (`KeysetWalk.RepeatedIdMovedDown`), and for one change exactly when it moved down (`KeysetWalk.NoIdTwiceIffNoneMovesDown`).
- Maturing a row writes it back without its historical count (`OutcomeMaturity.HistoricalCountSurvivesIff`).
- The graph cache key leaves out the resolved depth and the case of the address (`GraphCaches.GraphCacheTransparentIff`), and invalidation deletes only the depth-1 key of the default size (`GraphCaches.AlwaysFreshIff`).
- A graph that is read while its wallet is invalidated can be cached after the deletion. A stored graph is stale, with no deletion to come, exactly when such a late fill left it (`CacheRaces.StaleIffLeftLate`).

## Model

| member | source | states |
|---|---|---|
| BackfillQueue.RedisBackfillQueues.Enqueue | packages/db/backfill_queue.go:82-103 | a valid job goes to the right end of the list its source puts it in, normalised; an invalid one is refused and no list changes |
| BackfillQueue.RedisBackfillQueues.ScanList | packages/db/backfill_queue.go:116-149 | popping and pushing in place does what the recursive scan says, with at most as many pops as the list was long |
| BackfillQueue.RedisBackfillQueues.Dequeue | packages/db/backfill_queue.go:105-152 | reads the lists of the read order one after the other, stops at the first that yields something, and touches no other list |
| BackfillQueue.UrgentJobs | packages/db/backfill_queue.go:163-187 | a job goes to the priority list exactly when its source type is `seed_list`, in any case and with blanks around it, or its source starts with `search_`; every other job goes to the default list |
| BackfillQueue.PriorityIsReadFirst | packages/db/backfill_queue.go:189-195 | a reader of the default queue, or of no named one, looks at the priority list and then the default one; any other looks at its own list alone |
| BackfillQueue.DelayedIff | packages/db/backfill_queue.go:128-145 | a payload is put off exactly when it holds a job with a supported chain, an address and a source that is due strictly later |
| BackfillQueueLaws.ScanTakesFirstDue | packages/db/backfill_queue.go:122-148 | a scan takes the first payload that is not delayed and moves exactly the delayed ones before it, in order, behind the rest |
| BackfillQueueLaws.ScanRotates | packages/db/backfill_queue.go:122-145 | with nothing due, each pop rotates the list by one |
| BackfillQueueLaws.ScanAllOrNothing | packages/db/backfill_queue.go:116-151 | a read of a list reports nothing exactly when all in it is delayed, and then the list is as before |
| BackfillQueueLaws.DrainListIsFifo | packages/db/backfill_queue.go:113-151 | rotation theorem: repeated reads return exactly the due payloads in their original order and leave the delayed ones as a rotation of themselves |
| BackfillQueueLaws.DrainReadsInOrder | packages/db/backfill_queue.go:113-151 | repeated reads of several lists drain the first before the second is touched |
| BackfillQueueLaws.DefaultDrain | packages/db/backfill_queue.go:189-195 | draining the default queue returns all due priority jobs, then all due default jobs, each in order; both lists keep their delayed jobs |
| BackfillQueueLaws.PriorityFirst | packages/db/backfill_queue.go:189-195 | a default read takes a default job only when no priority job is due, and then leaves the priority list untouched |
| QueueConsumers.MoveConserves | packages/db/backfill_queue.go:118-147 | no Redis command of a reader takes a payload out of lists and hand together, except the one that ends the call |
| QueueConsumers.NothingLostOrDuplicated | packages/db/backfill_queue.go:105-152 | in every interleaving of consumers and producers, each enqueued copy is queued, in one hand, returned, rejected or dropped by a failing command; without failures nothing is dropped |
| QueueConsumers.CallIsBounded | packages/db/backfill_queue.go:116-125 | a call issues at most one length read per list and two commands per pop it was granted, however much others enqueue |
| LoneConsumer.LoneCallIsRead | packages/db/backfill_queue.go:105-152 | a consumer with the lists to itself ends with the outcome and the lists of the sequential read |
| RetryDelay.WalletBackfillRetryDelay | apps/workers/backfill.go:903-922 | the doubling loop on 64-bit integers; without overflow, the base once and then the capped doubling |
| RetryDelay.DeliveryRetryBackoff | apps/workers/delivery.go:503-515 | the same for the delivery loop and its one-hour cap |
| RetryDelay.LoopComputesCapped | apps/workers/backfill.go:907-921 | from any loop state that has not overflowed, the rest of the loop gives the smaller of the full doubling and the cap |
| RetryDelay.LoopIsCappedIffNoOverflow | apps/workers/backfill.go:903-922 | the machine loop is the capped doubling for every retry count exactly when nothing it doubles overflows |
| RetryDelay.NeverOverflowsIff | apps/workers/backfill.go:903-922 | nothing overflows exactly when the base is zero, or below two to the 62nd with a cap no larger than the first doubling of it that reaches that |
| RetryDelay.SmallDelaysNeverOverflow | apps/workers/backfill.go:903-922 | no value goes above twice the larger of base and cap, so delays that small never overflow |
| RetryDelay.OverflowGoesNegative | apps/workers/backfill.go:911-916 | the first overflow makes the delay negative |
| RetryDelay.DelaysGrowIffBaseWithinCap | apps/workers/backfill.go:903-922 | delays never shrink with the retry count exactly when the base is within the cap |
| BackfillPolicy.RetryKeepsQueueAndPolicy | apps/workers/backfill.go:866-897 | a retry keeps the queue class, the policy and the wallet of its job, counts one more retry and is due after the delay |
| BackfillPolicy.PolicyIsWithinBounds | apps/workers/backfill.go:1022-1137 | whatever the metadata says, window, limit and depth are within bounds, and a number within bounds is taken as it is |
| BackfillPolicy.SourcePolicy | apps/workers/backfill.go:1022-1047 | a job without settings of its own runs under the policy configured for its source, as far as that is within bounds, or under the defaults |
| BackfillPolicy.SameFields | apps/workers/backfill.go:1022-1047 | queue class and policy depend only on the source and five metadata fields |
| BackfillPolicy.CountCounterparties | apps/workers/backfill.go:1499-1518 | the counting map holds exactly the canonical keys that some counterparty counts for, each with its number of hits |
| BackfillPolicy.CountedIff | apps/workers/backfill.go:1586-1611 | every counterparty counts but one without chain or address, the root in any letter case, and the service addresses where they are to be left out |
| BackfillPolicy.ExpansionCandidates | apps/workers/backfill.go:1499-1537 | the chosen counterparties are the first five of all that count, by hits and then key |
| BackfillDrain.ScanTakesWeight | packages/db/backfill_queue.go:122-148 | a scan takes from a list exactly the weight of what it pops for good |
| BackfillDrain.ReadTakesWeight | packages/db/backfill_queue.go:113-151 | so does a read of both lists |
| BackfillDrain.ChildDoesNotExpand | apps/workers/backfill.go:1541-1574 | the policy recomputed from a child's metadata has depth one, so it enqueues none |
| BackfillDrain.ChildKeepsPolicy | apps/workers/backfill.go:1541-1550 | but for the depth, a child runs under the policy of its parent: the same window, limit and stop flag |
| BackfillDrain.ChildIsForCounterparty | apps/workers/backfill.go:1541-1574 | the wallet of a child has the canonical key its counterparty was counted under; a child is due at once, names its parent, and is urgent exactly when its parent is a seed-list job |
| BackfillDrain.BackfillWorker.EnqueueChild | apps/workers/backfill.go:1552-1580 | a child is enqueued only with a fresh claim; a claim that Redis answers with an error ends the expansion, and a child that is refused or not pushed gives its claim back |
| BackfillDrain.BackfillWorker.EnqueueExpansion | apps/workers/backfill.go:1477-1584 | appends, in order, a child for each of the best five counterparties whose claim is free, up to the one whose turn stops the expansion, and grows the backlog by their number, at most five |
| BackfillDrainLaws.ExpandIs | apps/workers/backfill.go:1539-1583 | for all faults: an expansion goes on to the first plan whose claim fails, or whose claim is free and whose push fails or child is refused; up to there it enqueues a child for exactly the plans whose claim nobody holds, in order, and leaves exactly their claims behind |
| BackfillDrain.BackfillWorker.RequeueRetry | apps/workers/backfill.go:866-897 | appends the retry job, with the loop's delay, to its list; without overflow that is the capped doubling |
| BackfillDrain.TakenIsValid | packages/db/backfill_queue.go:128-148 | a read hands out valid jobs only |
| BackfillDrain.RetryIsValid | apps/workers/backfill.go:866-897 | the retry of a valid job is valid, so its queue never refuses it |
| BackfillDrain.LateTimeOutGrows | apps/workers/backfill.go:651-660 | such a turn: one counterparty on a supported chain with a free claim, and a time-out after the expansion |
| BackfillDrain.BackfillWorker.RunOnce | apps/workers/backfill.go:632-740 | one read of the lists, then the children, then the retry of a job whose error is retryable, with the lists and claims all that leaves; the backlog grows exactly when the counterparties, claims and faults of the taken job give it a child to enqueue and a retryable error, by as many as there are children, and shrinks whenever a job is processed or fails |
| BackfillDrainLaws.TurnEnds | apps/workers/backfill.go:651-730 | a job that was taken is processed exactly when no error ends its ingest, and queued again, behind its children, exactly when the error is retryable and Redis takes the push: with its count one up, due after the delay for that count |
| BackfillDrain.BackfillWorker.RunBatch | apps/workers/backfill.go:742-780 | the turns follow one another, each on what the one before left, until the limit is reached, a turn fails or a read finds nothing; a batch that ends short of its limit without an error leaves nothing in either list that is due; the report counts the jobs, children and retries of those turns, and nothing after an error; jobs taken are at most the backlog taken off plus six for each retry |
| BackfillDrain.BackfillWorker.Count | apps/workers/backfill.go:753-771 | a turn that works goes on and adds its job, its children or its retry to the report; one that finds nothing ends the batch with the report so far, and one that fails with an empty one |
| BackfillDrainLaws.PlainBatch | apps/workers/backfill.go:742-780 | over jobs that do not expand, with a clock that stands still and no ingest that fails for good, a batch processes exactly the smaller of its limit and the number of due jobs, takes them in order, the priority list first, enqueues no child and schedules a retry for exactly those whose ingest fails |
| BackfillDrain.BackfillWorker.RunLoop | apps/workers/backfill.go:782-828 | the loop runs all its batches, each on what the one before left, unless one fails, which ends it, and reports the sums of those that did not; over any number of batches, the jobs processed are at most the starting backlog plus six for each retryable failure: the drain ends |
| BackfillDrain.EmptyLoad | apps/workers/backfill.go:782-828 | the backlog of a list is zero exactly when it is empty, and at most six per job |
| IngestClaims.StepKeepsValid | apps/workers/backfill.go:1266-1302 | every step of every run keeps claims exclusive and what each phase knows of its keys |
| IngestClaims.StepLosesNothing | apps/workers/backfill.go:1266-1341 | every step but an abandoned run keeps each claimed key stored or in flight |
| IngestClaims.AbandonLosesIffUnstored | apps/workers/backfill.go:2022-2060 | an abandoned run (claim or release error, crash) loses nothing exactly when all it holds is stored |
| IngestClaims.NoLostTransactions | apps/workers/backfill.go:1266-1341 | in every interleaving of runs with any component failures, a claimed key is stored or held by one run in flight |
| IngestClaims.QuiescentClaimsAreStored | apps/workers/backfill.go:1266-1341 | when no run is in flight, every claimed transaction is stored |
| IngestClaims.HeldUntilGivenUp | apps/workers/backfill.go:2022-2060 | under any interleaving, crashes included, a key some run holds and that is not stored later is out of all hands exactly when a step gave it up and none took it since |
| IngestClaims.SkippedIsMissingIff | apps/workers/backfill.go:2034-2044 | a key that a run skipped as a duplicate and that is not stored later is missing exactly when its holder released it or was abandoned and nobody claimed it since |
| IngestClaims.SkippedDuplicateCanBeMissing | apps/workers/backfill.go:2034-2044 | two concurrent runs after which a run succeeded without a transaction it fetched being stored |
| IngestRun.IngestService.FilterDuplicates | apps/workers/backfill.go:2022-2048 | claims every key up to a failing call and keeps exactly the transactions not claimed before, each once |
| IngestRun.IngestService.Upsert | packages/db/transactions.go:199-210 | stores every write before a failing one: each key written holds its last write, and all other rows are as before |
| IngestRun.IngestService.MaterializeAll | packages/db/transaction_graph_materializer.go:129-140 | materialises every write before a failing one |
| IngestRun.IngestService.ReleaseKeys | apps/workers/backfill.go:2050-2060 | releases every key before a failing call |
| IngestRun.IngestService.RunBatchIngest | apps/workers/backfill.go:1206-1351 | with a failure at any call: every key a run stores holds the first transaction of that key in the batch, and all other rows are as before; it succeeds exactly when no call meets a failure, and then reports as written the number of distinct keys that were not claimed before, and the rest as duplicates; a successful run leaves all it fetched stored, duplicates included; claims stay stored unless a claim or release fails, and a run that fails up to its expansion gives back what it claimed; nothing is counted twice exactly when the run does not release what it materialised, and all that is claimed is counted exactly when it was, and the run neither does that nor leaves claimed what it did not materialise |
| IngestRun.IngestService.WriteAndMaterialize | apps/workers/backfill.go:1271-1309 | writes, statistics, graph and expansion, up to the first that fails, which gives the claims back; nothing is materialised when a write or the statistics fail |
| IngestRun.IngestService.RunHistory | apps/workers/backfill.go:1206-1351 | over any history in which no run releases what it materialised, no counter counts a transaction twice, and all that is claimed is in the graph exactly when no run leaves a claim it did not materialise; where claims and releases succeed, all that is claimed is stored |
| IngestRun.FreshKeys | packages/db/ingest_dedup.go:28-64 | the kept transactions have distinct keys, exactly those not claimed before |
| IngestRun.FreshIs | apps/workers/backfill.go:2022-2048 | a run keeps the first transaction of each key of its batch that was not claimed before |
| IngestRun.FreshInOrder | apps/workers/backfill.go:2028-2047 | the kept transactions are in the order of the batch |
| IngestRun.GuardedIff | apps/workers/backfill.go:1266-1309 | for all faults: after a run the materialised transactions are distinct and claimed exactly when it did not release a key it materialised, that is, when the graph failed after a statement or the expansion failed, and the first release went through |
| IngestRun.LeaksIff | apps/workers/backfill.go:1260-1309 | a run leaves a key claimed that it did not materialise exactly when a claim fails after a fresh one, or it gives up and a release fails at a transaction the graph does not have |
| IngestRun.ExactIff | apps/workers/backfill.go:1260-1309 | for all faults: after a run the graph holds all that is claimed, each once, exactly when it did before and the run neither releases what it materialised nor leaves claimed what it did not |
| IngestRun.ExactOver | apps/workers/backfill.go:1206-1351 | the same over any history in which no run releases what it materialised |
| IngestRun.HistoryCountsClaimed | packages/db/transaction_graph_materializer.go:38-75 | over such a history no counter exceeds the number of claimed transactions of its pair, and without leaks each is that number |
| IngestRun.CounterIsClaimedCountIff | packages/db/transaction_graph_materializer.go:38-75 | a counter is the number of claimed transactions of its pair exactly when all of them were materialised |
| IngestRun.LeakedForGood | apps/workers/backfill.go:2022-2060 | what a run leaves claimed without materialising it stays claimed and out of the graph, whatever runs follow |
| IngestRun.FailedReleaseUndercounts | apps/workers/backfill.go:1278-1290 | two runs: the writes are stored, the statistics and the first release fail, and the retry materialises nothing |
| IngestRun.OnlyGraphAndExpansionHarm | apps/workers/backfill.go:1271-1345 | runs whose graph and expansion succeed release nothing they materialised, whatever their claims, writes, statistics, releases and later calls do |
| IngestRun.ExactCounters | packages/db/transaction_graph_materializer.go:38-75 | in an exact state a counter is the number of distinct transactions of its pair |
| IngestRun.RetryAfterReleaseDoubleCounts | apps/workers/backfill.go:1291-1303 | two runs: what the first one materialised and released the second one materialises again, and the counter of its pair is above the number of its transactions |
| IngestRun.RetryMaterializesOnceIff | apps/workers/backfill.go:1266-1309 | for all faults: a run and its retry materialise everything once exactly when the run did not release what it materialised |
| IngestRun.RetryCountsAllOnceIff | apps/workers/backfill.go:1260-1309 | for all faults: after a run and its retry the graph holds all that is claimed, the fetched transactions included, each once, exactly when the run neither released what it materialised nor left claimed what it did not |
| InteractionGraph.CountersAreCounts | packages/db/transaction_graph_materializer.go:23-76 | after any history every counter of an ordered pair is its number of interactions, in total and by direction |
| InteractionGraph.EdgesCountTransfers | packages/db/transaction_graph_materializer.go:162-184 | a transfer of a wallet to itself, in any letter case, never makes an edge; every other one with a counterparty does, and counts once, by its direction |
| InteractionGraph.MirrorHolds | packages/db/transaction_graph_materializer.go:57-75 | FUNDED_BY(c, w) always equals the inbound count of INTERACTED_WITH(w, c), retries included |
| InteractionGraph.MaterializeKeepsMirror | packages/db/transaction_graph_materializer.go:57-75 | one statement keeps that mirror from any graph that has it |
| InteractionGraph.CounterIsDistinctCountIffNoRepeats | packages/db/transaction_graph_materializer.go:38-75 | a counter is the number of distinct transactions exactly when none was materialised twice |
| DailyStats.SeenByFirst | packages/db/wallet_daily_stats.go:45-53 | a counterparty is seen by a day exactly when its first day is no later |
| DailyStats.SeenStep | packages/db/wallet_daily_stats.go:45-61 | between active days the distinct counterparties grow by those first seen on the later day |
| DailyStats.StatsStep | packages/db/wallet_daily_stats.go:76-106 | all columns of the plain counts grow from one active day to the next by the day's groups |
| DailyStats.WindowedIsNaive | packages/db/wallet_daily_stats.go:23-132 | the windowed query equals the plain counts, distinct counterparties and latest observation of the history up to each active day |
| DailyStats.ColumnsCountRows | packages/db/wallet_daily_stats.go:23-132 | the columns of a day count the rows observed up to its end: all, those that came in, those that went out, the counterparties they name, and the latest of them |
| DailyStats.RefreshIsExactIffNoStaleDay | packages/db/wallet_daily_stats.go:107-132 | after a refresh every active day is exact, and the whole table exactly when rows of days without transactions already were |
| AlertDispatch.AlertStore.FindLatest | packages/db/alerts.go:184-192 | the loop finds the row the lookup's order puts first |
| AlertDispatch.AlertStore.Record | packages/db/alerts.go:201-214 | inserts the event, or nothing when its dedup key exists |
| AlertDispatch.AlertStore.Dispatch | apps/workers/alerts.go:59-155 | the rules meet the signal one after the other, each seeing the rows of those before; the report counts exactly the verdicts |
| AlertCooldown.LatestIsLast | packages/db/alerts.go:184-192 | the lookup returns the stream's last observed row, the newest of those observed together, or none when there is none |
| AlertCooldown.SuppressedIff | apps/workers/alerts.go:89-118 | a rule suppresses a signal exactly when its definition does not parse, it is snoozed, the signal is below its minimum severity, or the last row of the stream is less than a cooldown old and the rule does not re-notify or the signal is no more severe |
| AlertCooldown.ClearSignalIsRecorded | apps/workers/alerts.go:89-141 | a signal the rule takes that is a cooldown after, or under re-notify more severe than, each row of the rule for its event key makes a row of its own, with its severity and time |
| AlertCooldown.NewEventEscalates | apps/workers/alerts.go:104-113 | an event that passes the check is more severe than every row of its stream whose cooldown it falls in |
| AlertCooldown.NewQuietEventIsClear | apps/workers/alerts.go:104-113 | without re-notify, it is a cooldown after every row of its stream, in whatever order signals come |
| AlertCooldown.PassingMeansFreshKey | apps/workers/alerts.go:108-139 | the two suppression layers agree: what passes the cooldown check has a fresh dedup key |
| AlertCooldown.EqualKeysAreClose | apps/workers/alerts.go:191-208 | equal dedup keys mean one stream, one severity and less than a cooldown apart |
| AlertCooldown.DedupedIff | apps/workers/alerts.go:104-139 | with a cooldown, what passes the check is deduped exactly when the rule re-notifies, the stream's last row is less severe than the signal, and an equally severe row of the stream is in its bucket |
| AlertCooldown.DedupedIffSameSecond | apps/workers/alerts.go:191-208 | without a cooldown a signal is deduped exactly when a row of its stream has its severity and second |
| AlertCooldown.AtMostFourPerWindow | apps/workers/alerts.go:104-113 | over any run in observation order, a window one cooldown long holds at most four rows of a stream, with climbing severities |
| AlertCooldown.FourFitInAWindow | apps/workers/alerts.go:104-113 | four signals at one moment that make four rows: the bound is exact |
| AlertCooldown.QuietRowsAreSpaced | apps/workers/alerts.go:104-113 | over any run in any order, rows of a rule that never re-notifies are a cooldown apart |
| AlertCooldown.NothingIsDeduped | apps/workers/alerts.go:124-139 | over such runs no dispatch counts a deduped rule |
| AlertCooldown.OutOfOrderIsDeduped | apps/workers/alerts.go:124-139 | three signals out of order of which the last passes the cooldown check and is deduped |
| AlertDelivery.DeliveryService.Create | packages/db/alert_delivery.go:187-204 | a queued attempt for a new event and channel, nothing for a known pair |
| AlertDelivery.DeliveryService.BuildUpdate | apps/workers/delivery.go:441-479 | a row whose counters account for its sends accounts for one more after the update, and nothing but its outcome changes; a failure exhausts it exactly at the limit, and otherwise its next retry is the capped doubling after the failure, down to the whole second |
| AlertDelivery.DeliveryService.DeliverAlertEvent | apps/workers/delivery.go:101-161 | one attempt and one send for each channel that is not earlier in the list and has no attempt for the event; delivered and failed are the numbers of those whose sender accepts and refuses, each has a row with that answer, and the other channels are deduped |
| AlertDelivery.DeliveryService.Retry | apps/workers/delivery.go:227-264 | sends the candidate as it was read and updates its row; it is retried when the sender accepts, exhausted when that was its last failure, and requeued otherwise |
| AlertDelivery.DeliveryService.RunRetryBatch | apps/workers/delivery_retry.go:39-113 | retries the selected candidates in order; delivered, requeued and exhausted are the numbers of those the sender accepts, refuses with failures to spare, and refuses for the last time, and they add up to those found |
| AlertDelivery.CandidatesAreRows | packages/db/alert_delivery.go:218-268 | the selection returns rows as they stand, failed, not exhausted, on an enabled channel and not before their next retry |
| AlertDelivery.RetryableIff | packages/db/alert_delivery.go:246-268 | a row whose counters are right can be selected exactly when it failed, has a next retry whose time has come, and its channel is enabled |
| AlertDeliveryLaws.PickedOrBehind | packages/db/alert_delivery.go:246-268 | a due row is selected, or the batch is full of rows ordered ahead of it |
| AlertDelivery.UpdateKeepsCounters | apps/workers/delivery.go:441-479 | each send ends in one recorded failure or the delivery, and exhausted means the limit is reached |
| AlertDeliveryLaws.RetryAllKeeps | apps/workers/delivery_retry.go:65-91 | a batch updates each candidate's row from its own reply and touches no other row |
| AlertDeliveryLaws.RunIsSafe | apps/workers/delivery.go:101-161 | in every run: one attempt per event and channel, at most the limit of sends each, exhausted exactly at the limit, one delivery at most |
| AlertDeliveryLaws.StepAdvancesRows | apps/workers/delivery.go:227-264 | delivered and exhausted rows never change; an open row that is sent is delivered or one failure closer to the limit |
| AlertDelivery.NextRetryWaitsCapped | apps/workers/delivery.go:454-463 | the next retry is the failure time plus the capped doubling, down to the whole second |
| AlertDeliveryLaws.FailingGoesBehind | apps/workers/delivery.go:454-463 | with a base of at least a second, a row that fails goes behind everything already due |
| AlertDeliveryLaws.BatchShrinksAhead | packages/db/alert_delivery.go:218-268 | a batch sends a due row or takes a full batch out of those ahead of it |
| AlertDeliveryLaws.BoundedBypass | packages/db/alert_delivery.go:218-268 | a due failed attempt is retried once the batches have room for more than were ahead of it on the channels that are on at some time, whatever else is delivered, fails or is switched meanwhile |
| AlertDeliveryLaws.RetriedByBatch | apps/workers/delivery_retry.go:39-91 | with k ahead it is retried by batch k div limit + 1; when no channel is switched on, k counts the enabled channels only |
| AlertDeliveryLaws.AheadAreDue | packages/db/alert_delivery.go:246-268 | on the enabled channels, the rows ahead of a due one are exactly the due ones ordered before it |
| AlertDeliveryLaws.OverlapIsCountedIff | apps/workers/delivery.go:227-264 | however many retries of a row overlap, its counters account for its sends exactly when each was made from the row as the one before it left it |
| AlertDeliveryLaws.OverlappingBatchesLoseACount | apps/workers/delivery.go:227-264 | two sends from one reading of a row account for one, whatever the replies; a delivery is overwritten by a failure exactly when only the first went out |
| CuratedIndex.GroupItems | packages/db/curated_entity_index.go:292-311 | the grouping loop finds the lists in first-occurrence order, each with its first entity item and its wallet items |
| CuratedIndex.AssignWallets | packages/db/curated_entity_index.go:335-356 | the inner loop keeps the first pair of each wallet |
| CuratedIndex.SortDefinitions | packages/db/curated_entity_index.go:359-368 | the definitions of the map, strictly sorted by key |
| CuratedIndex.Build | packages/db/curated_entity_index.go:283-371 | definitions and assignments are those of the first-match index |
| CuratedIndexLaws.OrderIsByFirstItem | packages/db/curated_entity_index.go:292-300 | the lists come once each, by their first items |
| CuratedIndexLaws.EntityIsFirst | packages/db/curated_entity_index.go:301-306 | a list's entity is its first entity item |
| CuratedIndexLaws.WalletKeyRoundTrip | packages/db/curated_entity_index.go:420-433 | an item key written as chain and address names that wallet |
| CuratedIndexLaws.EntityKeyRoundTrip | packages/db/curated_entity_index.go:373-381 | an entity item key written as `entity:` and a name, or as the name alone, curates that name in lower case |
| CuratedIndexLaws.AssignedIffFirstMatch | packages/db/curated_entity_index.go:317-357 | a wallet gets an assignment exactly from the first list that pairs it with a usable entity |
| CuratedIndexLaws.NoWalletTwice | packages/db/curated_entity_index.go:341-345 | no wallet is assigned twice |
| CuratedIndexLaws.DefinedByLast | packages/db/curated_entity_index.go:323-333 | a key is defined by the last list that curates it |
| CuratedIndexLaws.AssignedKeysAreDefined | packages/db/curated_entity_index.go:328-356 | every assigned key is defined |
| EntitySync.MoveKeepsSound | packages/db/curated_entity_index.go:158-195 | every statement of a sync or a batch keeps the invariant of the tables |
| EntitySync.NothingDangles | packages/db/curated_entity_index.go:158-195 | in every interleaving of one sync at a time with any number of batches, each of which may stop anywhere, every key a wallet carries names an entity |
| EntitySync.FinishedSyncIsExact | packages/db/curated_entity_index.go:158-195 | once the last sync finished, the curated assignments and entities are exactly its index's, whatever batches do before, during or after |
| EntitySync.BatchLeavesCurated | packages/db/heuristic_entity_assignment.go:24-45 | a heuristic batch never changes a curated key |
| EntitySync.SyncAllIs | packages/db/curated_entity_index.go:158-195 | what a whole sync leaves for each wallet and each key |
| EntitySync.SyncIsIdempotent | packages/db/curated_entity_index.go:141-207 | syncing again from the same lists changes nothing |
| EntitySync.ChangedKeysAreInvalidated | packages/db/curated_entity_index.go:197-206 | every wallet whose key a sync changes is among those it invalidates |
| SyncOverlap.DanglesIff | packages/db/curated_entity_index.go:141-195 | for any number of syncs that may overlap and stop anywhere, and any batches: at any point of any interleaving a wallet carries a curated key that no entity has exactly when the last assignment of the wallet that no clear came after gave it that key and a deletion came after the key's last definition |
| SyncOverlap.FinishedDanglesByTwo | packages/db/curated_entity_index.go:141-195 | once all syncs have finished, such a key was assigned by one sync and deleted by another one whose index lacks it |
| SyncOverlap.OverlappingSyncsDangle | packages/db/curated_entity_index.go:141-195 | the failing run, from any tables: two syncs in program order that both finish, of which one assigns between the other's statements a key that the other's index does not define, leave that key on its wallet without an entity |
| SyncOverlap.NeverDanglesIff | packages/db/curated_entity_index.go:141-195 | from any tables, overlapping syncs from a collection of indexes never end in a dangling key, whatever the interleaving, exactly when each of the indexes defines every key that one of them assigns |
| SyncOverlap.SameListsMayOverlap | apps/api/internal/repository/admin_console.go:665-670 | so syncs from the same lists never do |
| EntityStore.BuiltIndexIsGood | packages/db/curated_entity_index.go:158-158 | the builder's result is an index the sync's guarantees apply to, and its keys are exactly those that some list curates |
| EntityStore.Store.SyncAdminCuratedEntityIndex | packages/db/curated_entity_index.go:141-207 | the statements leave the tables of a whole sync of the built index, which defines exactly the keys some list curates, and no dangling key; they invalidate the former and the assigned wallets, so every wallet whose key changes has its folded name invalidated |
| EntityStore.Store.UpsertHeuristicEntityAssignments | packages/db/heuristic_entity_assignment.go:85-140 | the deduplicated claims, no dangling key, and every curated wallet as it was; the wallets of the deduplicated claims are invalidated, so every wallet whose key changes has its folded name invalidated |
| EntityStore.Store.Dedupe | packages/db/heuristic_entity_assignment.go:142-173 | the first usable claim of each folded wallet and key |
| EntityStore.DedupedOnce | packages/db/heuristic_entity_assignment.go:142-173 | a batch writes, in order, exactly the usable claims that no usable one before them makes for the same wallet, up to letter case, and key |
| EntityStore.ChangedByBatchIsCalledFor | packages/db/heuristic_entity_assignment.go:127-135 | every wallet whose key a batch changes is invalidated under its folded name |
| EntityStore.Store.Invalidate | packages/db/wallet_graph_invalidation.go:8-41 | calls on the first ref of each folded name |
| EntityStore.InvalidatedOnce | packages/db/wallet_graph_invalidation.go:8-41 | the calls are, in order, for exactly the refs with a chain and an address that no such ref before them equals up to letter case |
| EntityStore.ClaimAllIs | packages/db/heuristic_entity_assignment.go:24-45 | a batch gives each wallet without a key or with a heuristic one the key of its last pair, and touches no other |
| EntityStore.AllAreInvalidatedIffOneCasing | packages/db/wallet_graph_invalidation.go:18-30 | every ref itself is invalidated exactly when no two differ in case alone |
| EntityStore.FoldedNameIsInvalidated | packages/db/wallet_graph_invalidation.go:18-38 | every folded name is invalidated |
| KeysetPaging.PageIs | packages/db/first_connection_feed.go:344-357 | a page is in order and behind its cursor, and a row it leaves out comes after all of it and there is a next page |
| KeysetPaging.ReadPage | packages/db/findings.go:264-316 | with each feed's limit, what is on the page is in order and comes before all else behind the cursor, and a next page is announced exactly when something is left |
| KeysetPaging.BehindIsClosed | packages/db/first_connection_feed.go:120-127 | what is behind a cursor stays so further down the order, for all five feeds |
| KeysetPaging.BehindFollows | packages/db/findings.go:140-143 | a cursor never reaches back before its row, when the row's item shows a lower score, or the same and no later second than its column |
| KeysetPaging.BehindItselfIff | packages/db/shadow_exit_feed.go:37-40 | a row is behind its own cursor exactly when its item shows a higher score, or the same and a later second |
| KeysetWalk.WalkIsSorted | packages/db/alert_delivery.go:112-124 | as long as no page ends in a row whose cursor reaches back, pages come in order within and across, whatever happens to the table between requests |
| KeysetWalk.RepeatedIdMovedDown | packages/db/findings.go:63-97 | in any walk without such a page end, an id comes again only when its row moved down the order between requests, from a page already read to behind that page's cursor |
| KeysetWalk.NoIdTwiceIffNoneMovesDown | packages/db/findings.go:63-97 | with exact whole-second cursors and one change of the table during the walk, no id comes twice for any page size exactly when the change moves no row but the last one down the order |
| KeysetWalk.ReturnedIff | packages/db/findings.go:296-315 | in a finished walk none of whose page ends reaches back, a row present throughout is returned exactly when no page end before it has a cursor that passes it over |
| KeysetWalk.ExactCursorsLoseNothing | packages/db/findings.go:119-144 | when the pages end in rows that show their exact position in whole seconds, a finished walk returns every row present throughout |
| KeysetWalk.InsertsDisturbNothing | packages/db/findings.go:119-144 | when rows are only inserted during a finished walk whose pages end in such rows, no id is returned twice and every row of the table it started on is returned once |
| KeysetWalk.StaticWalkIsSortIff | packages/db/first_connection_feed.go:233-358 | over any static table with distinct ids, the pages concatenate to the table in order for every page size exactly when the cursor of every row but the last selects the rows after it, no fewer and no more |
| KeysetWalk.StaticWalkFinishes | packages/db/shadow_exit_feed.go:100-176 | when no row but the last has a cursor that reaches back, a walk over a static table ends within one request more than it has rows |
| CursorCodec.CursorRoundTrip | packages/db/first_connection_feed.go:714-776 | every feed reads back the cursor it wrote, prefixes and scores included |
| CursorCodec.ScoreRoundTrip | packages/db/first_connection_feed.go:742-776 | so does the score cursor |
| CursorCodec.Request | packages/db/first_connection_feed.go:178-216 | an empty cursor starts over, an invalid one is refused, an encoded mark resumes behind it, and the next cursor is that page's mark |
| OutcomeMaturity.AggregateGrows | packages/db/wallet_entry_features.go:97-127 | more transactions and a longer window never lower the counts, and followed and short-lived counterparties add up |
| OutcomeMaturity.HoursAtLeast | packages/db/wallet_entry_features.go:107-113 | the rounded maximum reaches k hours exactly when some transaction does |
| OutcomeMaturity.CheckTellsVerdict | apps/workers/first_connection.go:327-361 | a check resolves a row to the verdict at maturity or leaves it pending, and resolves it from maturity on |
| OutcomeMaturity.VerdictIsScheduleIndependent | apps/workers/first_connection.go:327-389 | any checks in any order, over transactions stored late, resolve to what one check at 72 hours says |
| OutcomeMaturity.VerdictIff | packages/db/wallet_entry_features.go:97-127 | the verdict is sustained exactly when two distinct top counterparties are followed up within 72 hours and some follow-up comes 47 half hours or more after the window |
| OutcomeMaturity.WrittenCounts | apps/workers/first_connection.go:335-387 | what a check of a pending row writes: the distinct counterparties followed up by then, the others asked for, the latest follow-up in rounded hours, and the outcome these give |
| OutcomeMaturity.ResolvedStays | apps/workers/first_connection.go:327-329 | a resolved row never changes |
| OutcomeMaturity.HistoricalCountSurvivesIff | apps/workers/first_connection.go:370-387 | the historical count survives a check exactly when nothing is written or it was zero |
| OutcomeMaturity.EntryFeatures.LatestBefore | packages/db/wallet_entry_features.go:73-95 | finds the last row whose window ended before the time |
| OutcomeMaturity.EntryFeatures.MatureRow | apps/workers/first_connection.go:327-389 | a resolved row stays; a pending one is resolved to what one check at 72 hours would say, or stays pending, and from maturity on it is resolved |
| OutcomeMaturity.EntryFeatures.MaturePrior | apps/workers/first_connection.go:311-392 | only the last row before the time is matured, under its own day; all others stay |
| ReadThroughCache.CachedReader.ReadQuery | packages/db/wallet_graph_cache.go:125-179 | answers from the cache, then the snapshot, then the loader; keeps the answer in the cache, and in the snapshot table when that served neither, and touches nothing else |
| ReadThroughCache.EventKeepsFresh | packages/db/wallet_graph_cache.go:125-236 | reads of anything, expiries, and changes with the deletions they call for keep every answer stored for a watched query the loader's |
| ReadThroughCache.ReadsAreFresh | packages/db/wallet_graph_cache.go:125-236 | in every such run each watched read answers what the loader answers at that moment, whatever else is read |
| ReadThroughCache.TransparentIffCoherent | packages/db/wallet_graph_cache.go:114-179 | over a static source all read sequences with arbitrary expiry answer like the loader exactly when keys determine answers |
| GraphCaches.GraphCacheTransparentIff | packages/db/wallet_graph_cache.go:114-123 | the graph cache is transparent exactly for queries no two of which share a key |
| GraphCaches.SharedKeyIff | packages/db/wallet_graph_cache.go:114-123 | the key leaves out the resolved depth and the case of the address, and nothing else |
| GraphCaches.ResolvedDepthsCollide | packages/db/wallet_graph_cache.go:125-179 | a query resolved deeper is answered with the shallower one's graph |
| GraphCaches.AlwaysFreshIff | packages/db/wallet_graph_cache.go:114-236 | over all runs from empty stores of graph reads, lapses, and changes of a wallet's graph followed by its invalidation, the reads of a query are always fresh exactly when it asks for depth 1 and the default size and no other query that is asked shares its cache key |
| GraphCaches.CanonicalReadsAreFresh | packages/db/wallet_graph_cache.go:114-236 | when each wallet is asked for in one casing and queries resolve to no more depth than they ask for, the canonical depth-1 graph is fresh at every read of every such run, whatever other graphs are read |
| CacheRaces.StepKeepsCleanIff | packages/db/wallet_graph_cache.go:137-236 | command by command, stale stored graphs stay about to be deleted exactly unless a fill lands with an old version after the deletion it should have met |
| CacheRaces.StaleIffLeftLate | packages/db/wallet_graph_cache.go:137-236 | at any point of any interleaving of reads and invalidations, a stored graph whose deletion is not pending is stale exactly when such a late fill left it |
| CacheRaces.QuietReadIsFreshIff | packages/db/wallet_graph_cache.go:125-179 | when every change is invalidated, a read on its own is current exactly when no late fill left the cached graph, or the snapshot behind an empty cache |
| CacheRaces.ReadBetweenDeletions | packages/db/wallet_graph_cache.go:213-236 | a read between the two deletions of an invalidation caches the snapshot about to be deleted |
| GraphCaches.FeedCacheIsTransparent | packages/db/first_connection_feed_cache.go:107-150 | the feed cache always answers like its loader |

## Left out

- Commands whose reply is lost after they took effect, expansion claims whose release fails, and waits that a cancelled context cuts short, in `BackfillDrain`; a job run that cannot be recorded is a failure after the expansion that is not retryable.
- Redis replies that fail inside a read: `RedisBackfillQueues` takes them to succeed; failing commands are steps of the `QueueConsumers` machine.
- Expiry of claims and dedup keys by time, and reads under a nil dedup store.
- Providers, senders, raw payload storage, enrichment, labelling, tracking state, usage logs and job runs of an ingest run: calls that succeed or fail, or neither.
- The wallet a transaction row belongs to is its chain and address, not the database's wallet id.
- Graph edges written before the direction counters existed, and observation times on edges and nodes.
- Fractional numbers in job metadata, and integers a float64 cannot hold.
- `Text.Lower` and `Text.Trim` know ASCII only.
- Deliveries inside a dispatch: `AlertDispatch` stops at the recorded event, `AlertDelivery` starts there. Payloads and parsing of rule definitions are a flag.
- Postgres rounds stored times to microseconds; the alert and delivery models keep what they are given.
- Inserts and updates of attempt rows that fail, which end a delivery or a batch early: the models of both take them to succeed.
- Delivery details other than the retry fields, response codes, and channels that belong to another owner.
- Display names and types of entities and wallets, and the index builder's derivation of them.
- Feed items beyond what their order and cursor need, the findings' type filter and the inbox filters: a filtered feed is a smaller table.
- Rows of the snapshot feeds are the latest signal of a wallet; picking it is part of the table, so a wallet with a new signal is a new row.
- `CursorCodec` takes formatting and parsing of timestamps as functions that fit section 5.6 of RFC 3339; it does not spell them out.
- Errors of the cache, the snapshot table and the loader, an invalidation that ends between its deletions, and the served-from stamp on graphs. `GraphCaches` takes a read, and a change with its invalidation, as one step each; `CacheRaces` takes every command as one, for a single wallet and query. In both, a change of one wallet's graph is followed by the invalidation of that wallet.
- First-connection candidate metrics, reports, scoring, alert texts and evidence: counting and branches each read from one body.
- Billing, plans, seed discovery, watchlists and the web application.
