/** One ingest run after another: claim, write, refresh the daily stats, materialise, expand, and
    release on failure (`runBatchIngest`). Any component may fail at any of its calls. */
module IngestRun {
  import opened Text
  import opened IngestClaims
  import opened InteractionGraph

  /** Where a run meets a failure. An index is the call that fails, counted from zero. `late` is a
      failure after the expansion: invalidation, tracking state or the usage log. */
  datatype Faults = Faults(
    claimAt: Option<nat>, writeAt: Option<nat>, stats: bool, graphAt: Option<nat>,
    expansion: bool, late: bool, releaseAt: Option<nat>)

  function KeysOf(txs: seq<Tx>): set<TxKey> {
    set i | 0 <= i < |txs| :: txs[i].key
  }

  /** The transactions whose claim succeeds: not claimed before, and not earlier in the batch. */
  function Fresh(txs: seq<Tx>, claims: set<TxKey>): seq<Tx> {
    if txs == [] then []
    else
      var n := |txs| - 1;
      if txs[n].key in claims + KeysOf(txs[..n]) then Fresh(txs[..n], claims)
      else Fresh(txs[..n], claims) + [txs[n]]
  }

  ghost predicate DistinctKeys(txs: seq<Tx>) {
    forall i, j :: 0 <= i < j < |txs| ==> txs[i].key != txs[j].key
  }

  lemma KeysOfSnoc(txs: seq<Tx>, n: nat)
    requires n < |txs|
    ensures KeysOf(txs[..n + 1]) == KeysOf(txs[..n]) + {txs[n].key}
  {
    forall k ensures k in KeysOf(txs[..n + 1]) <==> k in KeysOf(txs[..n]) + {txs[n].key} {
      if k in KeysOf(txs[..n]) {
        var i :| 0 <= i < n && txs[..n][i].key == k;
        assert txs[..n + 1][i].key == k;
      }
      assert txs[..n + 1][n].key == txs[n].key;
    }
  }

  lemma {:induction false} FreshKeys(txs: seq<Tx>, claims: set<TxKey>)
    ensures KeysOf(Fresh(txs, claims)) == KeysOf(txs) - claims
    ensures DistinctKeys(Fresh(txs, claims))
  {
    if txs != [] {
      var n := |txs| - 1;
      FreshKeys(txs[..n], claims);
      KeysOfSnoc(txs, n);
      assert txs[..n + 1] == txs;
      if txs[n].key !in claims + KeysOf(txs[..n]) {
        var kept := Fresh(txs[..n], claims);
        KeysOfSnoc(kept + [txs[n]], |kept|);
        assert (kept + [txs[n]])[..|kept|] == kept;
        assert (kept + [txs[n]])[..|kept| + 1] == kept + [txs[n]];
        assert forall i :: 0 <= i < |kept| ==> kept[i].key in KeysOf(kept);
      }
    }
  }

  /** The part of a list handled before the call that fails. */
  function Before<T>(items: seq<T>, faultAt: Option<nat>): seq<T> {
    if faultAt.Some? && faultAt.value < |items| then items[..faultAt.value] else items
  }

  predicate Hits<T>(items: seq<T>, faultAt: Option<nat>) {
    faultAt.Some? && faultAt.value < |items|
  }

  /** A run gets past its claims and its writes, statistics included. */
  predicate Writes(txs: seq<Tx>, claims: set<TxKey>, f: Faults) {
    var writes := Fresh(txs, claims);
    !Hits(txs, f.claimAt) && !Hits(writes, f.writeAt) && (writes != [] ==> !f.stats)
  }

  /** A run fails where `runBatchIngest` releases what it claimed. */
  predicate GivesUp(txs: seq<Tx>, claims: set<TxKey>, f: Faults) {
    var writes := Fresh(txs, claims);
    && !Hits(txs, f.claimAt)
    && (Writes(txs, claims, f) ==> Hits(writes, f.graphAt) || (writes != [] && f.expansion))
  }

  /** What a run materialises, and what it releases. */
  function Materialized(txs: seq<Tx>, claims: set<TxKey>, f: Faults): seq<Tx> {
    if Writes(txs, claims, f) then Before(Fresh(txs, claims), f.graphAt) else []
  }

  function Released(txs: seq<Tx>, claims: set<TxKey>, f: Faults): seq<Tx> {
    if GivesUp(txs, claims, f) then Before(Fresh(txs, claims), f.releaseAt) else []
  }

  function RemainingClaims(txs: seq<Tx>, claims: set<TxKey>, f: Faults): set<TxKey> {
    claims + KeysOf(Before(txs, f.claimAt)) - KeysOf(Released(txs, claims, f))
  }

  /** What a run stores. */
  function StoredBy(txs: seq<Tx>, claims: set<TxKey>, f: Faults): seq<Tx> {
    if Hits(txs, f.claimAt) then [] else Before(Fresh(txs, claims), f.writeAt)
  }

  /** The run releases a transaction that it materialised: the graph fails after its first statement, or
      the expansion after the graph, and the first release goes through. */
  predicate ReleasesMaterialized(txs: seq<Tx>, claims: set<TxKey>, f: Faults) {
    var writes := Fresh(txs, claims);
    && Writes(txs, claims, f) && writes != []
    && (Hits(writes, f.graphAt) || f.expansion)
    && f.graphAt != Some(0) && f.releaseAt != Some(0)
  }

  /** The run leaves a fresh key claimed that it did not materialise: a claim fails after a fresh one, or the
      run gives up with a release that fails at a transaction the graph does not have. */
  predicate LeaksUncounted(txs: seq<Tx>, claims: set<TxKey>, f: Faults) {
    if Hits(txs, f.claimAt) then Fresh(Before(txs, f.claimAt), claims) != []
    else
      var writes := Fresh(txs, claims);
      GivesUp(txs, claims, f) && Hits(writes, f.releaseAt) && (Writes(txs, claims, f) ==> Hits(writes, f.graphAt))
  }

  /** A run: the transactions it fetched and the failures it meets. */
  datatype Batch = Batch(txs: seq<Tx>, faults: Faults)

  function ClaimsOver(batches: seq<Batch>, claims: set<TxKey>): set<TxKey> {
    if batches == [] then claims
    else
      var n := |batches| - 1;
      RemainingClaims(batches[n].txs, ClaimsOver(batches[..n], claims), batches[n].faults)
  }

  function MaterializedOver(batches: seq<Batch>, claims: set<TxKey>): seq<Tx> {
    if batches == [] then []
    else
      var n := |batches| - 1;
      MaterializedOver(batches[..n], claims) + Materialized(batches[n].txs, ClaimsOver(batches[..n], claims), batches[n].faults)
  }

  /** No run of the history releases what it materialised. */
  predicate NoneReleasesMaterialized(batches: seq<Batch>, claims: set<TxKey>) {
    batches == [] ||
    var n := |batches| - 1;
    NoneReleasesMaterialized(batches[..n], claims) && !ReleasesMaterialized(batches[n].txs, ClaimsOver(batches[..n], claims), batches[n].faults)
  }

  /** No run of the history leaves a fresh key claimed that it did not materialise. */
  predicate NoneLeaksUncounted(batches: seq<Batch>, claims: set<TxKey>) {
    batches == [] ||
    var n := |batches| - 1;
    NoneLeaksUncounted(batches[..n], claims) && !LeaksUncounted(batches[n].txs, ClaimsOver(batches[..n], claims), batches[n].faults)
  }

  lemma OverNext(batches: seq<Batch>, i: nat, claims: set<TxKey>)
    requires i < |batches|
    ensures var so := ClaimsOver(batches[..i], claims);
      && ClaimsOver(batches[..i + 1], claims) == RemainingClaims(batches[i].txs, so, batches[i].faults)
      && MaterializedOver(batches[..i + 1], claims)
         == MaterializedOver(batches[..i], claims) + Materialized(batches[i].txs, so, batches[i].faults)
  {
    assert batches[..i + 1][..i] == batches[..i] && batches[..i + 1][i] == batches[i];
  }

  lemma Associates<T>(a: seq<T>, b: seq<T>, c: seq<T>)
    ensures a + b + c == a + (b + c)
  {
  }

  lemma WholePrefix(batches: seq<Batch>)
    ensures batches[..|batches|] == batches
  {
  }

  /** Every claim and every release of every run succeeds. */
  predicate AllClaimAndRelease(batches: seq<Batch>) {
    forall i :: 0 <= i < |batches| ==> ClaimsAndReleases(batches[i].faults)
  }

  predicate ClaimsAndReleases(f: Faults) {
    f.claimAt.None? && f.releaseAt.None?
  }

  /** Every materialised transaction was materialised once and is still claimed. */
  ghost predicate GuardedBy(ledger: seq<Tx>, claims: set<TxKey>) {
    DistinctKeys(ledger) && KeysOf(ledger) <= claims
  }

  /** The graph holds exactly the claimed transactions, each once. */
  ghost predicate ExactBy(ledger: seq<Tx>, claims: set<TxKey>) {
    DistinctKeys(ledger) && KeysOf(ledger) == claims
  }

  predicate IsLastOfKey(txs: seq<Tx>, i: nat)
    requires i < |txs|
  {
    forall j :: i < j < |txs| ==> txs[j].key != txs[i].key
  }

  predicate IsFirstOfKey(txs: seq<Tx>, i: nat)
    requires i < |txs|
  {
    forall j :: 0 <= j < i ==> txs[j].key != txs[i].key
  }

  /** Every key written holds its last write, and all other rows are as before. */
  ghost predicate LastWritesHold(before: map<TxKey, Tx>, done: seq<Tx>, after: map<TxKey, Tx>) {
    && after.Keys == before.Keys + KeysOf(done)
    && (forall k :: k in before && k !in KeysOf(done) ==> after[k] == before[k])
    && (forall i :: 0 <= i < |done| && IsLastOfKey(done, i) ==> after[done[i].key] == done[i])
  }

  /** Every key stored holds the first transaction of that key in the batch, and all other rows are as before. */
  ghost predicate FirstsHold(before: map<TxKey, Tx>, txs: seq<Tx>, keys: set<TxKey>, after: map<TxKey, Tx>) {
    && after.Keys == before.Keys + keys
    && (forall k :: k in before && k !in keys ==> after[k] == before[k])
    && (forall i :: 0 <= i < |txs| && txs[i].key in keys && IsFirstOfKey(txs, i) ==> after[txs[i].key] == txs[i])
  }

  /** No call of the run meets a failure. */
  predicate MeetsNoFault(txs: seq<Tx>, writes: seq<Tx>, f: Faults) {
    && !Hits(txs, f.claimAt) && !Hits(writes, f.writeAt) && !Hits(writes, f.graphAt) && !f.late
    && (writes != [] ==> !f.stats && !f.expansion)
  }

  class IngestService {
    var claims: set<TxKey>
    var stored: map<TxKey, Tx>
    var graph: Graph
    /** Every materialised transaction, oldest first. */
    ghost var ledger: seq<Tx>

    constructor ()
      ensures Settled() && Exact()
    {
      claims, stored, graph, ledger := {}, map[], EMPTY, [];
    }

    /** The graph is what the ledger materialises. */
    ghost predicate Current()
      reads this
    {
      graph == GraphOf(ledger)
    }

    /** Between runs, every claimed transaction is stored. */
    ghost predicate Settled()
      reads this
    {
      claims <= stored.Keys
    }

    /** The graph holds each claimed transaction once. */
    ghost predicate Exact()
      reads this
    {
      Current() && ExactBy(ledger, claims)
    }

    /** The graph holds every materialised transaction once, and none of them can be claimed again. */
    ghost predicate Guarded()
      reads this
    {
      Current() && GuardedBy(ledger, claims)
    }

    method FilterDuplicates(txs: seq<Tx>, faultAt: Option<nat>) returns (ok: bool, kept: seq<Tx>, duplicates: nat)
      modifies this`claims
      ensures ok == !Hits(txs, faultAt)
      ensures claims == old(claims) + KeysOf(Before(txs, faultAt))
      ensures ok ==> kept == Fresh(txs, old(claims)) && duplicates + |kept| == |txs|
    {
      kept, duplicates := [], 0;
      for i := 0 to |txs|
        invariant faultAt.Some? ==> i <= faultAt.value
        invariant claims == old(claims) + KeysOf(txs[..i])
        invariant kept == Fresh(txs[..i], old(claims)) && duplicates + |kept| == i
      {
        if faultAt == Some(i) {
          return false, [], 0;
        }
        KeysOfSnoc(txs, i);
        assert txs[..i + 1][..i] == txs[..i];
        if txs[i].key in claims {
          duplicates := duplicates + 1;
        } else {
          claims := claims + {txs[i].key};
          kept := kept + [txs[i]];
        }
      }
      assert txs[..|txs|] == txs;
      ok := true;
    }

    /** `UpsertNormalizedTransactions`: statement by statement, stopping at the first error. */
    method Upsert(writes: seq<Tx>, faultAt: Option<nat>) returns (ok: bool)
      modifies this`stored
      ensures ok == !Hits(writes, faultAt)
      ensures LastWritesHold(old(stored), Before(writes, faultAt), stored)
    {
      for i := 0 to |writes|
        invariant faultAt.Some? ==> i <= faultAt.value
        invariant LastWritesHold(old(stored), writes[..i], stored)
      {
        if faultAt == Some(i) {
          return false;
        }
        assert writes[..i + 1] == writes[..i] + [writes[i]];
        WriteNext(old(stored), writes[..i], writes[i], stored);
        stored := stored[writes[i].key := writes[i]];
      }
      assert writes[..|writes|] == writes;
      ok := true;
    }

    /** `MaterializeNormalizedTransactions`. */
    method MaterializeAll(writes: seq<Tx>, faultAt: Option<nat>) returns (ok: bool)
      modifies this`graph, this`ledger
      ensures ok == !Hits(writes, faultAt)
      ensures ledger == old(ledger) + Before(writes, faultAt)
      ensures old(Current()) ==> Current()
    {
      for i := 0 to |writes|
        invariant faultAt.Some? ==> i <= faultAt.value
        invariant ledger == old(ledger) + writes[..i]
        invariant old(Current()) ==> Current()
      {
        if faultAt == Some(i) {
          return false;
        }
        GraphOfAppend(ledger, writes[i]);
        graph := Materialize(graph, writes[i]);
        ledger := ledger + [writes[i]];
      }
      assert writes[..|writes|] == writes;
      ok := true;
    }

    /** `releaseDedupKeys`: stops at the first error, and its caller ignores that error. */
    method ReleaseKeys(writes: seq<Tx>, faultAt: Option<nat>)
      modifies this`claims
      ensures claims == old(claims) - KeysOf(Before(writes, faultAt))
    {
      for i := 0 to |writes|
        invariant faultAt.Some? ==> i <= faultAt.value
        invariant claims == old(claims) - KeysOf(writes[..i])
      {
        if faultAt == Some(i) {
          return;
        }
        KeysOfSnoc(writes, i);
        claims := claims - {writes[i].key};
      }
      assert writes[..|writes|] == writes;
    }

    /** `runBatchIngest`, from the fetched transactions on. */
    method RunBatchIngest(txs: seq<Tx>, f: Faults) returns (ok: bool, written: nat, duplicates: nat)
      modifies this
      ensures FirstsHold(old(stored), txs, KeysOf(StoredBy(txs, old(claims), f)), stored)
      ensures ok <==> MeetsNoFault(txs, Fresh(txs, old(claims)), f)
      ensures written == if ok then |KeysOf(txs) - old(claims)| else 0
      ensures written + duplicates == if ok then |txs| else 0
      // No lost transactions: a successful run leaves every transaction it fetched in the store,
      // the skipped duplicates included.
      ensures ok && old(Settled()) ==> KeysOf(txs) <= stored.Keys
      ensures old(Settled()) && !Hits(txs, f.claimAt) && f.releaseAt.None? ==> Settled()
      // A claim that errors leaks the claims made so far, which is harmless exactly when they are stored.
      ensures old(Settled()) && Hits(txs, f.claimAt) ==>
        !ok && (Settled() <==> KeysOf(Before(txs, f.claimAt)) <= stored.Keys)
      ensures old(Current()) ==> Current()
      ensures ok ==> claims == old(claims) + KeysOf(txs)
      // A run that fails up to its expansion gives back exactly what it claimed, if its releases go through.
      ensures !ok && !f.late && !Hits(txs, f.claimAt) && f.releaseAt.None? ==> claims == old(claims)
      ensures ledger == old(ledger) + Materialized(txs, old(claims), f)
      ensures claims == RemainingClaims(txs, old(claims), f)
      // Under any failures, what is materialised stays claimed exactly when the run does not release it.
      ensures old(Guarded()) ==> (Guarded() <==> !ReleasesMaterialized(txs, old(claims), f))
      // Nothing claimed is missing in the graph exactly when nothing was, and the run neither releases what
      // it materialised nor leaves claimed what it did not.
      ensures old(Guarded()) ==>
        (Exact() <==> old(Exact()) && !ReleasesMaterialized(txs, old(claims), f) && !LeaksUncounted(txs, old(claims), f))
    {
      ok, written, duplicates := IngestFetched(txs, f);
      SettledAfter(txs, old(claims), f, old(stored.Keys), stored.Keys, ok);
      if old(Guarded()) {
        GuardedIff(old(ledger), txs, old(claims), f);
        ExactIff(old(ledger), txs, old(claims), f);
      }
    }

    /** The calls of a run, in order. */
    method IngestFetched(txs: seq<Tx>, f: Faults) returns (ok: bool, written: nat, duplicates: nat)
      modifies this
      ensures FirstsHold(old(stored), txs, KeysOf(StoredBy(txs, old(claims), f)), stored)
      ensures ok <==> MeetsNoFault(txs, Fresh(txs, old(claims)), f)
      ensures written == if ok then |KeysOf(txs) - old(claims)| else 0
      ensures written + duplicates == if ok then |txs| else 0
      ensures old(Current()) ==> Current()
      ensures ledger == old(ledger) + Materialized(txs, old(claims), f)
      ensures claims == RemainingClaims(txs, old(claims), f)
    {
      var filtered, writes, skipped := FilterDuplicates(txs, f.claimAt);
      if !filtered {
        return false, 0, 0;
      }
      FreshKeys(txs, old(claims));
      var stands := WriteAndMaterialize(writes, f);
      FirstsAreStored(old(stored), txs, old(claims), f.writeAt, stored);
      if !stands || f.late {
        return false, 0, 0;
      }
      DistinctCount(writes);
      return true, |writes|, skipped;
    }

    /** The part of a run between its claims and what follows the expansion; it releases the claims when it fails. */
    method WriteAndMaterialize(writes: seq<Tx>, f: Faults) returns (ok: bool)
      modifies this
      ensures LastWritesHold(old(stored), Before(writes, f.writeAt), stored)
      ensures ok <==> !Hits(writes, f.writeAt) && !Hits(writes, f.graphAt) && (writes != [] ==> !f.stats && !f.expansion)
      ensures claims == if ok then old(claims) else old(claims) - KeysOf(Before(writes, f.releaseAt))
      ensures ledger == old(ledger) + if Hits(writes, f.writeAt) || (writes != [] && f.stats) then [] else Before(writes, f.graphAt)
      ensures old(Current()) ==> Current()
    {
      var upserted := Upsert(writes, f.writeAt);
      if !upserted || (|writes| > 0 && f.stats) {
        ReleaseKeys(writes, f.releaseAt);
        return false;
      }
      var materialized := MaterializeAll(writes, f.graphAt);
      if !materialized || (|writes| > 0 && f.expansion) {
        ReleaseKeys(writes, f.releaseAt);
        return false;
      }
      ok := true;
    }

    /** Any sequence of runs, with whatever failures. As long as no run releases what it materialised, no
        counter counts a transaction twice; the graph then holds all that is claimed exactly when no run
        leaves a claim that it did not materialise. If no claim or release fails, all that is claimed is stored. */
    method RunHistory(batches: seq<Batch>)
      modifies this
      ensures claims == ClaimsOver(batches, old(claims))
      ensures ledger == old(ledger) + MaterializedOver(batches, old(claims))
      ensures old(Guarded()) && NoneReleasesMaterialized(batches, old(claims)) ==> Guarded() && CountersExact()
      ensures old(Exact()) && NoneReleasesMaterialized(batches, old(claims)) ==>
        (Exact() <==> NoneLeaksUncounted(batches, old(claims)))
      ensures old(Settled()) && AllClaimAndRelease(batches) ==> Settled()
    {
      for i := 0 to |batches|
        invariant Ran(batches[..i], old(claims), old(ledger))
        invariant old(Current()) ==> Current()
        invariant old(Settled()) && AllClaimAndRelease(batches) ==> Settled()
      {
        RunNext(batches, i, old(claims), old(ledger));
      }
      WholePrefix(batches);
      if old(Guarded()) && NoneReleasesMaterialized(batches, old(claims)) {
        GuardedOver(old(ledger), batches, old(claims));
        ExactOver(old(ledger), batches, old(claims));
        GuardedCountersExact();
      }
    }

    /** These runs, from these claims and this ledger, lead to the present ones. */
    ghost predicate Ran(batches: seq<Batch>, claims0: set<TxKey>, ledger0: seq<Tx>)
      reads this
    {
      claims == ClaimsOver(batches, claims0) && ledger == ledger0 + MaterializedOver(batches, claims0)
    }

    method RunNext(batches: seq<Batch>, i: nat, ghost claims0: set<TxKey>, ghost ledger0: seq<Tx>)
      requires i < |batches| && Ran(batches[..i], claims0, ledger0)
      modifies this
      ensures Ran(batches[..i + 1], claims0, ledger0)
      ensures old(Current()) ==> Current()
      ensures old(Settled()) && ClaimsAndReleases(batches[i].faults) ==> Settled()
    {
      OverNext(batches, i, claims0);
      var _, _, _ := RunBatchIngest(batches[i].txs, batches[i].faults);
      Associates(ledger0, MaterializedOver(batches[..i], claims0), Materialized(batches[i].txs, old(claims), batches[i].faults));
    }

    lemma GuardedCountersExact()
      requires Guarded()
      ensures CountersExact()
    {
      forall w, c ensures EdgeAt(graph.interacted, (w, c)).interactions == |KeysBetween(ledger, w, c)| {
        ExactCounters(ledger, w, c);
      }
    }

    /** Every counter is the number of distinct transactions that were materialised for its pair. */
    ghost predicate CountersExact()
      reads this
    {
      forall w, c :: EdgeAt(graph.interacted, (w, c)).interactions == |KeysBetween(ledger, w, c)|
    }
  }

  /** One more row written. */
  lemma WriteNext(before: map<TxKey, Tx>, done: seq<Tx>, tx: Tx, so: map<TxKey, Tx>)
    requires LastWritesHold(before, done, so)
    ensures LastWritesHold(before, done + [tx], so[tx.key := tx])
  {
    KeysOfAppend(done, [tx]);
    assert KeysOf([tx]) == {tx.key} by {
      assert [tx][0].key in KeysOf([tx]);
    }
    forall i | 0 <= i < |done| && IsLastOfKey(done + [tx], i) ensures done[i].key != tx.key && IsLastOfKey(done, i) {
      LastOfShorter(done, tx, i);
    }
  }

  lemma LastOfShorter(done: seq<Tx>, tx: Tx, i: nat)
    requires i < |done| && IsLastOfKey(done + [tx], i)
    ensures done[i].key != tx.key && IsLastOfKey(done, i)
  {
    assert (done + [tx])[|done|] == tx;
    assert forall j :: 0 <= j < |done| ==> (done + [tx])[j] == done[j];
  }

  lemma KeyInPrefix(txs: seq<Tx>, i: nat, n: nat)
    requires i < n <= |txs|
    ensures txs[i].key in KeysOf(txs[..n])
  {
    assert txs[..n][i] == txs[i];
  }

  /** The rows that the fresh transactions leave are those of the first transaction of each key. */
  lemma FirstsAreStored(before: map<TxKey, Tx>, txs: seq<Tx>, claims: set<TxKey>, faultAt: Option<nat>, after: map<TxKey, Tx>)
    requires LastWritesHold(before, Before(Fresh(txs, claims), faultAt), after)
    ensures FirstsHold(before, txs, KeysOf(Before(Fresh(txs, claims), faultAt)), after)
  {
    var done := Before(Fresh(txs, claims), faultAt);
    FreshKeys(txs, claims);
    forall i | 0 <= i < |txs| && txs[i].key in KeysOf(done) && IsFirstOfKey(txs, i)
      ensures after[txs[i].key] == txs[i]
    {
      var j :| 0 <= j < |done| && done[j].key == txs[i].key;
      assert Fresh(txs, claims)[j] == done[j];
      FreshIs(txs, claims, done[j]);
      OneFirst(txs, i, done[j]);
      assert IsLastOfKey(done, j);
    }
  }

  lemma OneFirst(txs: seq<Tx>, i: nat, x: Tx)
    requires i < |txs| && txs[i].key == x.key && IsFirstOfKey(txs, i)
    requires exists j :: 0 <= j < |txs| && txs[j] == x && x.key !in KeysOf(txs[..j])
    ensures txs[i] == x
  {
    var j :| 0 <= j < |txs| && txs[j] == x && x.key !in KeysOf(txs[..j]);
    if i < j {
      KeyInPrefix(txs, i, j);
    }
  }

  lemma {:induction false} DistinctCount(txs: seq<Tx>)
    requires DistinctKeys(txs)
    ensures |KeysOf(txs)| == |txs|
  {
    if txs != [] {
      var n := |txs| - 1;
      DistinctCount(txs[..n]);
      KeysOfSnoc(txs, n);
      assert txs[..n + 1] == txs;
    }
  }

  ghost predicate AtPlaces(txs: seq<Tx>, kept: seq<Tx>, places: seq<nat>) {
    && |places| == |kept| && (forall j, k :: 0 <= j < k < |places| ==> places[j] < places[k])
    && forall k :: 0 <= k < |places| ==> places[k] < |txs| && kept[k] == txs[places[k]]
  }

  lemma PlacesOfMore(txs: seq<Tx>, kept: seq<Tx>, places: seq<nat>)
    requires txs != [] && AtPlaces(txs[..|txs| - 1], kept, places)
    ensures AtPlaces(txs, kept, places) && AtPlaces(txs, kept + [txs[|txs| - 1]], places + [|txs| - 1])
  {
  }

  /** The kept transactions are in the order of the batch. */
  lemma {:induction false} FreshInOrder(txs: seq<Tx>, claims: set<TxKey>) returns (places: seq<nat>)
    ensures AtPlaces(txs, Fresh(txs, claims), places)
  {
    if txs == [] {
      return [];
    }
    var n := |txs| - 1;
    places := FreshInOrder(txs[..n], claims);
    PlacesOfMore(txs, Fresh(txs[..n], claims), places);
    if txs[n].key !in claims + KeysOf(txs[..n]) {
      places := places + [n];
    }
  }

  /** What a run leaves claimed is stored when it stored all its fresh transactions or released them. */
  lemma SettledAfter(txs: seq<Tx>, claims: set<TxKey>, f: Faults, before: set<TxKey>, after: set<TxKey>, ok: bool)
    requires after == before + KeysOf(StoredBy(txs, claims, f)) && (ok <==> MeetsNoFault(txs, Fresh(txs, claims), f))
    ensures ok ==> RemainingClaims(txs, claims, f) == claims + KeysOf(txs)
    ensures !ok && !f.late && !Hits(txs, f.claimAt) && f.releaseAt.None? ==> RemainingClaims(txs, claims, f) == claims
    ensures ok && claims <= before ==> KeysOf(txs) <= after
    ensures claims <= before && !Hits(txs, f.claimAt) && f.releaseAt.None? ==> RemainingClaims(txs, claims, f) <= after
    ensures claims <= before && Hits(txs, f.claimAt) ==>
      !ok && (RemainingClaims(txs, claims, f) <= after <==> KeysOf(Before(txs, f.claimAt)) <= after)
  {
    FreshKeys(txs, claims);
  }

  lemma KeysOfAppend(a: seq<Tx>, b: seq<Tx>)
    ensures KeysOf(a + b) == KeysOf(a) + KeysOf(b)
  {
    forall k | k in KeysOf(a + b) ensures k in KeysOf(a) + KeysOf(b) {
      var i :| 0 <= i < |a + b| && (a + b)[i].key == k;
      assert (a + b)[i] == if i < |a| then a[i] else b[i - |a|];
    }
    forall k | k in KeysOf(a) ensures k in KeysOf(a + b) {
      var i :| 0 <= i < |a| && a[i].key == k;
      assert (a + b)[i] == a[i];
    }
    forall k | k in KeysOf(b) ensures k in KeysOf(a + b) {
      var i :| 0 <= i < |b| && b[i].key == k;
      assert (a + b)[|a| + i] == b[i];
    }
  }

  /** A ledger of distinct claimed transactions stays one when fresh claims are added. */
  lemma LedgerGrows(ledger: seq<Tx>, writes: seq<Tx>, claims: set<TxKey>)
    requires DistinctKeys(writes) && KeysOf(writes) !! claims
    ensures KeysOf(ledger + writes) == KeysOf(ledger) + KeysOf(writes)
    ensures DistinctKeys(ledger) && KeysOf(ledger) <= claims ==> DistinctKeys(ledger + writes)
  {
    KeysOfAppend(ledger, writes);
    if DistinctKeys(ledger) && KeysOf(ledger) <= claims {
      assert forall i :: 0 <= i < |ledger| ==> ledger[i].key in KeysOf(ledger);
      assert forall i :: 0 <= i < |writes| ==> writes[i].key in KeysOf(writes);
    }
  }

  /** In an exact state, a counter is the number of distinct claimed transactions of its pair. */
  lemma ExactCounters(ledger: seq<Tx>, w: Wallet, c: Wallet)
    requires DistinctKeys(ledger)
    ensures EdgeAt(GraphOf(ledger).interacted, (w, c)).interactions == |KeysBetween(ledger, w, c)|
    ensures KeysBetween(ledger, w, c) <= KeysOf(ledger)
  {
    CounterIsDistinctCountIffNoRepeats(ledger, w, c);
    forall k | k in KeysBetween(ledger, w, c) ensures k in KeysOf(ledger) {
      KeysBetweenAt(ledger, w, c, k);
    }
  }

  /** So over a history: counting once survives as long as no run releases what it materialised. */
  lemma {:induction false} GuardedOver(ledger: seq<Tx>, batches: seq<Batch>, claims: set<TxKey>)
    requires GuardedBy(ledger, claims) && NoneReleasesMaterialized(batches, claims)
    ensures GuardedBy(ledger + MaterializedOver(batches, claims), ClaimsOver(batches, claims))
  {
    if batches == [] {
      assert ledger + [] == ledger;
    } else {
      var n := |batches| - 1;
      GuardedOver(ledger, batches[..n], claims);
      var so, before := ClaimsOver(batches[..n], claims), MaterializedOver(batches[..n], claims);
      GuardedIff(ledger + before, batches[n].txs, so, batches[n].faults);
      Associates(ledger, before, Materialized(batches[n].txs, so, batches[n].faults));
    }
  }

  /** The transactions a run keeps: the first of each key in the batch that was not claimed before. */
  lemma {:induction false} FreshIs(txs: seq<Tx>, claims: set<TxKey>, x: Tx)
    ensures x in Fresh(txs, claims) <==>
      x.key !in claims && exists i :: 0 <= i < |txs| && txs[i] == x && x.key !in KeysOf(txs[..i])
  {
    if txs != [] {
      var n := |txs| - 1;
      FreshIs(txs[..n], claims, x);
      assert forall i :: 0 <= i <= n ==> txs[..n][..i] == txs[..i];
      assert forall i :: 0 <= i < n ==> txs[..n][i] == txs[i];
    }
  }

  lemma BeforeIsPrefix<T>(items: seq<T>, faultAt: Option<nat>)
    ensures Before(items, faultAt) <= items
    ensures Before(items, faultAt) == [] <==> items == [] || faultAt == Some(0)
  {
  }

  lemma PrefixKeys(part: seq<Tx>, txs: seq<Tx>)
    requires part <= txs
    ensures KeysOf(part) <= KeysOf(txs)
    ensures DistinctKeys(txs) ==> DistinctKeys(part)
  {
    forall k | k in KeysOf(part) ensures k in KeysOf(txs) {
      var i :| 0 <= i < |part| && part[i].key == k;
      assert txs[i].key == k;
    }
  }

  /** A run keeps the ledger's keys distinct and claimed exactly when it does not release a key that it
      materialised. */
  lemma GuardedIff(ledger: seq<Tx>, txs: seq<Tx>, claims: set<TxKey>, f: Faults)
    requires GuardedBy(ledger, claims)
    ensures GuardedBy(ledger + Materialized(txs, claims, f), RemainingClaims(txs, claims, f))
      <==> !ReleasesMaterialized(txs, claims, f)
  {
    var writes := Fresh(txs, claims);
    var made, freed := Materialized(txs, claims, f), Released(txs, claims, f);
    FreshKeys(txs, claims);
    BeforeIsPrefix(writes, f.graphAt);
    BeforeIsPrefix(writes, f.releaseAt);
    PrefixKeys(made, writes);
    PrefixKeys(freed, writes);
    LedgerGrows(ledger, made, claims);
    if ReleasesMaterialized(txs, claims, f) {
      assert made[0] == writes[0] == freed[0];
      assert made[0].key in KeysOf(made) && freed[0].key in KeysOf(freed);
    } else if made == [] {
      assert ledger + made == ledger;
    } else {
      assert freed == [];
    }
  }

  /** The keys that are claimed and not materialised grow by what a run leaks, and by nothing else. */
  function Leaked(txs: seq<Tx>, claims: set<TxKey>, f: Faults): set<TxKey> {
    RemainingClaims(txs, claims, f) - claims - KeysOf(Materialized(txs, claims, f))
  }

  lemma PrefixUnion(txs: seq<Tx>, a: seq<Tx>, b: seq<Tx>)
    requires a <= txs && b <= txs && DistinctKeys(txs)
    ensures KeysOf(txs) == KeysOf(a) + KeysOf(b) <==> |a| == |txs| || |b| == |txs|
  {
    PrefixKeys(a, txs);
    PrefixKeys(b, txs);
    if |a| < |txs| && |b| < |txs| {
      var n := |txs| - 1;
      assert txs[n].key in KeysOf(txs);
      assert forall i :: 0 <= i < |a| ==> a[i] == txs[i];
      assert forall i :: 0 <= i < |b| ==> b[i] == txs[i];
    } else if |a| == |txs| {
      assert a == txs;
    } else {
      assert b == txs;
    }
  }

  lemma Covered<T>(all: set<T>, a: set<T>, b: set<T>)
    requires a <= all && b <= all
    ensures all - (a + b) == {} <==> all == a + b
  {
    if all - (a + b) == {} {
      forall x | x in all ensures x in a + b {
        assert x !in all - (a + b);
      }
    }
  }

  lemma LeakedAfterClaims(txs: seq<Tx>, claims: set<TxKey>, f: Faults)
    requires !Hits(txs, f.claimAt)
    ensures var writes, made, freed := Fresh(txs, claims), Materialized(txs, claims, f), Released(txs, claims, f);
      Leaked(txs, claims, f) != {} <==> |made| < |writes| && |freed| < |writes|
  {
    var writes, made, freed := Fresh(txs, claims), Materialized(txs, claims, f), Released(txs, claims, f);
    FreshKeys(txs, claims);
    BeforeIsPrefix(writes, f.graphAt);
    BeforeIsPrefix(writes, f.releaseAt);
    PrefixKeys(made, writes);
    PrefixKeys(freed, writes);
    PrefixUnion(writes, made, freed);
    Covered(KeysOf(writes), KeysOf(made), KeysOf(freed));
    assert Leaked(txs, claims, f) == KeysOf(writes) - (KeysOf(made) + KeysOf(freed));
  }

  lemma NoKeysNoTxs(txs: seq<Tx>)
    ensures KeysOf(txs) == {} <==> txs == []
  {
    if txs != [] {
      assert txs[0].key in KeysOf(txs);
    }
  }

  lemma LeakedAtClaim(txs: seq<Tx>, claims: set<TxKey>, f: Faults)
    requires Hits(txs, f.claimAt)
    ensures Leaked(txs, claims, f) != {} <==> Fresh(Before(txs, f.claimAt), claims) != []
  {
    var early := Fresh(Before(txs, f.claimAt), claims);
    FreshKeys(Before(txs, f.claimAt), claims);
    NoKeysNoTxs([]);
    NoKeysNoTxs(early);
    assert Leaked(txs, claims, f) == KeysOf(early);
  }

  /** A run leaks exactly when its faults say so. */
  lemma LeaksIff(txs: seq<Tx>, claims: set<TxKey>, f: Faults)
    ensures Leaked(txs, claims, f) != {} <==> LeaksUncounted(txs, claims, f)
  {
    if Hits(txs, f.claimAt) {
      LeakedAtClaim(txs, claims, f);
    } else {
      LeakedAfterClaims(txs, claims, f);
    }
  }

  /** A run leaves the graph with all that is claimed, each once, exactly when it had that before, and it
      neither releases a key that it materialised nor leaves one claimed that it did not. */
  lemma ExactIff(ledger: seq<Tx>, txs: seq<Tx>, claims: set<TxKey>, f: Faults)
    requires GuardedBy(ledger, claims)
    ensures ExactBy(ledger + Materialized(txs, claims, f), RemainingClaims(txs, claims, f))
      <==> ExactBy(ledger, claims) && !ReleasesMaterialized(txs, claims, f) && !LeaksUncounted(txs, claims, f)
  {
    var made := Materialized(txs, claims, f);
    GuardedIff(ledger, txs, claims, f);
    LeaksIff(txs, claims, f);
    KeysOfAppend(ledger, made);
    ClaimsStay(txs, claims, f);
    var after, so := KeysOf(ledger) + KeysOf(made), RemainingClaims(txs, claims, f);
    if after == so {
      assert forall k :: k in claims ==> k in so && k !in KeysOf(made);
      assert KeysOf(ledger) == claims && Leaked(txs, claims, f) == {};
    } else if KeysOf(ledger) == claims && after <= so {
      var k :| k in so && k !in after;
      assert k in Leaked(txs, claims, f);
    }
  }

  /** A run releases nothing that was claimed before it, and materialises nothing of that. */
  lemma ClaimsStay(txs: seq<Tx>, claims: set<TxKey>, f: Faults)
    ensures claims <= RemainingClaims(txs, claims, f)
    ensures KeysOf(Materialized(txs, claims, f)) !! claims
  {
    FreshKeys(txs, claims);
    BeforeIsPrefix(Fresh(txs, claims), f.graphAt);
    BeforeIsPrefix(Fresh(txs, claims), f.releaseAt);
    PrefixKeys(Materialized(txs, claims, f), Fresh(txs, claims));
    PrefixKeys(Released(txs, claims, f), Fresh(txs, claims));
  }

  /** So over a history in which no run releases what it materialised. */
  lemma {:induction false} ExactOver(ledger: seq<Tx>, batches: seq<Batch>, claims: set<TxKey>)
    requires GuardedBy(ledger, claims) && NoneReleasesMaterialized(batches, claims)
    ensures ExactBy(ledger + MaterializedOver(batches, claims), ClaimsOver(batches, claims))
      <==> ExactBy(ledger, claims) && NoneLeaksUncounted(batches, claims)
  {
    if batches == [] {
      assert ledger + [] == ledger;
    } else {
      var n := |batches| - 1;
      ExactOver(ledger, batches[..n], claims);
      GuardedOver(ledger, batches[..n], claims);
      var so, before := ClaimsOver(batches[..n], claims), MaterializedOver(batches[..n], claims);
      ExactIff(ledger + before, batches[n].txs, so, batches[n].faults);
      Associates(ledger, before, Materialized(batches[n].txs, so, batches[n].faults));
    }
  }

  /** What is claimed stays claimed and is never materialised again, whatever runs follow. */
  lemma {:induction false} ClaimedForGood(batches: seq<Batch>, claims: set<TxKey>, k: TxKey)
    requires k in claims
    ensures k in ClaimsOver(batches, claims) && k !in KeysOf(MaterializedOver(batches, claims))
  {
    if batches == [] {
    } else {
      var n := |batches| - 1;
      ClaimedForGood(batches[..n], claims, k);
      var so := ClaimsOver(batches[..n], claims);
      ClaimsStay(batches[n].txs, so, batches[n].faults);
      KeysOfAppend(MaterializedOver(batches[..n], claims), Materialized(batches[n].txs, so, batches[n].faults));
    }
  }

  const NO_FAULTS := Faults(None, None, false, None, false, false, None)

  /** A run with failures, and a second run of the same transactions without any. */
  function Retried(txs: seq<Tx>, f: Faults): seq<Batch> { [Batch(txs, f), Batch(txs, NO_FAULTS)] }

  lemma RetriedIs(txs: seq<Tx>, claims: set<TxKey>, f: Faults)
    ensures var again := Fresh(txs, RemainingClaims(txs, claims, f));
      MaterializedOver(Retried(txs, f), claims) == Materialized(txs, claims, f) + again
  {
    var batches := Retried(txs, f);
    assert batches[..0] == [] && batches[..2] == batches;
    OverNext(batches, 0, claims);
    OverNext(batches, 1, claims);
    FaultlessMaterializesAll(txs, RemainingClaims(txs, claims, f));
    assert MaterializedOver(batches[..1], claims) == [] + Materialized(txs, claims, f) == Materialized(txs, claims, f);
  }

  lemma FaultlessMaterializesAll(txs: seq<Tx>, claims: set<TxKey>)
    ensures Materialized(txs, claims, NO_FAULTS) == Fresh(txs, claims)
  {
  }

  /** What a run materialised and released, the second run materialises again. */
  lemma ReleasedIsFreshAgain(txs: seq<Tx>, claims: set<TxKey>, f: Faults, tx: Tx)
    requires tx in Released(txs, claims, f)
    ensures tx in Fresh(txs, RemainingClaims(txs, claims, f))
  {
    var freed := Released(txs, claims, f);
    BeforeIsPrefix(Fresh(txs, claims), f.releaseAt);
    var i :| 0 <= i < |freed| && freed[i] == tx;
    assert tx.key in KeysOf(freed);
    assert Fresh(txs, claims)[i] == tx;
    FreshIs(txs, claims, tx);
    FreshIs(txs, RemainingClaims(txs, claims, f), tx);
  }

  lemma AppearsTwice(ledger: seq<Tx>, made: seq<Tx>, again: seq<Tx>, tx: Tx) returns (i: nat, j: nat)
    requires tx in made && tx in again
    ensures i < j < |ledger + (made + again)| && (ledger + (made + again))[i] == tx == (ledger + (made + again))[j]
  {
    var m :| 0 <= m < |made| && made[m] == tx;
    var n :| 0 <= n < |again| && again[n] == tx;
    i, j := |ledger| + m, |ledger| + |made| + n;
  }

  /** Two runs that lead to the double count: what the first materialised and released, the second one
      counts again, and the counter of its pair stays above the number of its transactions. */
  lemma RetryAfterReleaseDoubleCounts(ledger: seq<Tx>, txs: seq<Tx>, claims: set<TxKey>, f: Faults, tx: Tx)
    requires tx in Materialized(txs, claims, f) && tx in Released(txs, claims, f) && Interacts(tx)
    ensures var after := ledger + MaterializedOver(Retried(txs, f), claims);
      EdgeAt(GraphOf(after).interacted, (tx.wallet, tx.counterparty.value)).interactions
      > |KeysBetween(after, tx.wallet, tx.counterparty.value)|
  {
    RetriedIs(txs, claims, f);
    ReleasedIsFreshAgain(txs, claims, f, tx);
    var made, again := Materialized(txs, claims, f), Fresh(txs, RemainingClaims(txs, claims, f));
    var i, j := AppearsTwice(ledger, made, again, tx);
    CountersAreCounts(ledger + (made + again), tx.wallet, tx.counterparty.value);
    CountVersusKeys(ledger + (made + again), tx.wallet, tx.counterparty.value);
  }

  lemma ReleasedComesTwice(ledger: seq<Tx>, txs: seq<Tx>, claims: set<TxKey>, f: Faults)
    requires ReleasesMaterialized(txs, claims, f)
    ensures var again := Fresh(txs, RemainingClaims(txs, claims, f));
      !DistinctKeys(ledger + (Materialized(txs, claims, f) + again))
  {
    var first := Fresh(txs, claims)[0];
    assert Materialized(txs, claims, f)[0] == first == Released(txs, claims, f)[0];
    ReleasedIsFreshAgain(txs, claims, f, first);
    var i, j := AppearsTwice(ledger, Materialized(txs, claims, f), Fresh(txs, RemainingClaims(txs, claims, f)), first);
  }

  /** A run and its retry materialise everything once exactly when the run does not release what it
      materialised, whatever fails in it. */
  lemma RetryMaterializesOnceIff(ledger: seq<Tx>, txs: seq<Tx>, claims: set<TxKey>, f: Faults)
    requires GuardedBy(ledger, claims)
    ensures DistinctKeys(ledger + MaterializedOver(Retried(txs, f), claims)) <==> !ReleasesMaterialized(txs, claims, f)
  {
    RetriedIs(txs, claims, f);
    var made, so := Materialized(txs, claims, f), RemainingClaims(txs, claims, f);
    if ReleasesMaterialized(txs, claims, f) {
      ReleasedComesTwice(ledger, txs, claims, f);
    } else {
      GuardedIff(ledger, txs, claims, f);
      NextGrows(ledger + made, txs, so);
      assert ledger + made + Fresh(txs, so) == ledger + (made + Fresh(txs, so));
    }
  }

  lemma NextGrows(ledger: seq<Tx>, txs: seq<Tx>, claims: set<TxKey>)
    requires GuardedBy(ledger, claims)
    ensures DistinctKeys(ledger + Fresh(txs, claims))
  {
    FreshKeys(txs, claims);
    LedgerGrows(ledger, Fresh(txs, claims), claims);
  }

  /** Claims, writes, statistics, releases and what follows the expansion may fail in any run. */
  lemma {:induction false} OnlyGraphAndExpansionHarm(batches: seq<Batch>, claims: set<TxKey>)
    requires forall b :: b in batches ==> (b.faults.graphAt.None? && !b.faults.expansion)
    ensures NoneReleasesMaterialized(batches, claims)
  {
    if batches != [] {
      var n := |batches| - 1;
      assert batches[n] in batches;
      OnlyGraphAndExpansionHarm(batches[..n], claims);
    }
  }

  // ---- Counts and claims ----

  /** What a run leaks is claimed and out of the graph for good, whatever runs follow. */
  lemma {:induction false} LeakedForGood(ledger: seq<Tx>, txs: seq<Tx>, claims: set<TxKey>, f: Faults, later: seq<Batch>, k: TxKey)
    requires GuardedBy(ledger, claims) && k in Leaked(txs, claims, f)
    ensures var so := RemainingClaims(txs, claims, f);
      k in ClaimsOver(later, so) && k !in KeysOf(ledger + Materialized(txs, claims, f) + MaterializedOver(later, so))
  {
    var so := RemainingClaims(txs, claims, f);
    ClaimedForGood(later, so, k);
    KeysOfAppend(ledger, Materialized(txs, claims, f));
    KeysOfAppend(ledger + Materialized(txs, claims, f), MaterializedOver(later, so));
  }

  /** Such a run and its retry: the writes are stored, the statistics fail, and so does the first release.
      The retry finds everything claimed, and the graph never gets any of it. */
  lemma {:induction false} FailedReleaseUndercounts(txs: seq<Tx>, claims: set<TxKey>, f: Faults)
    requires !Hits(txs, f.claimAt) && !Hits(Fresh(txs, claims), f.writeAt) && f.stats && f.releaseAt == Some(0)
    ensures StoredBy(txs, claims, f) == Fresh(txs, claims) && Leaked(txs, claims, f) == KeysOf(Fresh(txs, claims))
    ensures MaterializedOver(Retried(txs, f), claims) == []
  {
    FreshKeys(txs, claims);
    RetriedIs(txs, claims, f);
    NoKeysNoTxs([]);
    FreshKeys(txs, RemainingClaims(txs, claims, f));
    NoKeysNoTxs(Fresh(txs, RemainingClaims(txs, claims, f)));
  }

  /** After a run and its retry the graph holds all that is claimed, the fetched transactions included, each
      once, exactly when the run neither releases what it materialised nor leaves claimed what it did not. */
  lemma RetryCountsAllOnceIff(ledger: seq<Tx>, txs: seq<Tx>, claims: set<TxKey>, f: Faults)
    requires ExactBy(ledger, claims)
    ensures KeysOf(txs) <= ClaimsOver(Retried(txs, f), claims)
    ensures ExactBy(ledger + MaterializedOver(Retried(txs, f), claims), ClaimsOver(Retried(txs, f), claims))
      <==> !ReleasesMaterialized(txs, claims, f) && !LeaksUncounted(txs, claims, f)
  {
    var made, so := Materialized(txs, claims, f), RemainingClaims(txs, claims, f);
    RetriedIs(txs, claims, f);
    RetriedClaims(txs, claims, f);
    RetryMaterializesOnceIff(ledger, txs, claims, f);
    if !ReleasesMaterialized(txs, claims, f) {
      GuardedIff(ledger, txs, claims, f);
      ExactIff(ledger, txs, claims, f);
      ExactIff(ledger + made, txs, so, NO_FAULTS);
      FaultlessMaterializesAll(txs, so);
      Associates(ledger, made, Fresh(txs, so));
    }
  }

  lemma RetriedClaims(txs: seq<Tx>, claims: set<TxKey>, f: Faults)
    ensures ClaimsOver(Retried(txs, f), claims) == RemainingClaims(txs, RemainingClaims(txs, claims, f), NO_FAULTS)
    ensures KeysOf(txs) <= ClaimsOver(Retried(txs, f), claims)
  {
    var batches := Retried(txs, f);
    assert batches[..0] == [] && batches[..2] == batches;
    OverNext(batches, 0, claims);
    OverNext(batches, 1, claims);
    assert KeysOf([]) == {};
  }

  /** One key, one transaction: every fetch of a transaction gives the same. */
  ghost predicate TrueTo(txs: seq<Tx>, truth: TxKey -> Tx) {
    forall i :: 0 <= i < |txs| ==> truth(txs[i].key) == txs[i]
  }

  /** The claimed transactions of a pair. */
  function ClaimedBetween(claims: set<TxKey>, truth: TxKey -> Tx, w: Wallet, c: Wallet): set<TxKey> {
    set k | k in claims && Between(truth(k), w, c)
  }

  lemma SmallerIff<T>(a: set<T>, b: set<T>)
    requires a <= b
    ensures |a| <= |b| && (|a| == |b| <==> b <= a)
  {
    assert b == a + (b - a);
    if b <= a {
      assert a == b;
    }
    if |a| == |b| {
      assert b - a == {};
    }
  }

  /** No counter exceeds the number of claimed transactions of its pair, and it equals it exactly when all
      of them are materialised. */
  lemma CounterIsClaimedCountIff(ledger: seq<Tx>, claims: set<TxKey>, truth: TxKey -> Tx, w: Wallet, c: Wallet)
    requires GuardedBy(ledger, claims) && TrueTo(ledger, truth)
    ensures var counter := EdgeAt(GraphOf(ledger).interacted, (w, c)).interactions;
      && counter <= |ClaimedBetween(claims, truth, w, c)|
      && (counter == |ClaimedBetween(claims, truth, w, c)| <==> ClaimedBetween(claims, truth, w, c) <= KeysOf(ledger))
  {
    var counted, claimed := KeysBetween(ledger, w, c), ClaimedBetween(claims, truth, w, c);
    ExactCounters(ledger, w, c);
    forall k ensures k in counted <==> k in claimed && k in KeysOf(ledger) {
      KeysBetweenAt(ledger, w, c, k);
      if k in KeysOf(ledger) {
        var i :| 0 <= i < |ledger| && ledger[i].key == k;
        assert truth(k) == ledger[i];
      }
    }
    SmallerIff(counted, claimed);
  }

  lemma {:induction false} MaterializedIsTrue(batches: seq<Batch>, claims: set<TxKey>, truth: TxKey -> Tx)
    requires forall i :: 0 <= i < |batches| ==> TrueTo(batches[i].txs, truth)
    ensures TrueTo(MaterializedOver(batches, claims), truth)
  {
    if batches != [] {
      var n := |batches| - 1;
      var so := ClaimsOver(batches[..n], claims);
      var before, made := MaterializedOver(batches[..n], claims), Materialized(batches[n].txs, so, batches[n].faults);
      MaterializedIsTrue(batches[..n], claims, truth);
      BeforeIsPrefix(Fresh(batches[n].txs, so), batches[n].faults.graphAt);
      forall i | 0 <= i < |made| ensures truth(made[i].key) == made[i] {
        assert made[i] == Fresh(batches[n].txs, so)[i];
        FreshIs(batches[n].txs, so, made[i]);
      }
    }
  }

  /** The counters of a history, from the first run on: if no run releases what it materialised, none of them
      exceeds the number of claimed transactions of its pair; if none leaks either, each of them is that number. */
  lemma {:induction false} HistoryCountsClaimed(batches: seq<Batch>, truth: TxKey -> Tx, w: Wallet, c: Wallet)
    requires forall i :: 0 <= i < |batches| ==> TrueTo(batches[i].txs, truth)
    requires NoneReleasesMaterialized(batches, {})
    ensures var counter := EdgeAt(GraphOf(MaterializedOver(batches, {})).interacted, (w, c)).interactions;
      && counter <= |ClaimedBetween(ClaimsOver(batches, {}), truth, w, c)|
      && (NoneLeaksUncounted(batches, {}) ==> counter == |ClaimedBetween(ClaimsOver(batches, {}), truth, w, c)|)
  {
    var ledger := MaterializedOver(batches, {});
    assert [] + ledger == ledger && KeysOf([]) == {};
    GuardedOver([], batches, {});
    ExactOver([], batches, {});
    MaterializedIsTrue(batches, {}, truth);
    CounterIsClaimedCountIff(ledger, ClaimsOver(batches, {}), truth, w, c);
  }
}
