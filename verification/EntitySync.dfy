/** Syncing the curated entities while heuristic batches assign theirs: the statements the stores
    issue, and every interleaving of them (packages/db/curated_entity_index.go,
    packages/db/heuristic_entity_assignment.go). */
module EntitySync {
  import opened Text
  import opened CuratedIndex

  datatype Pair = Pair(wallet: Wallet, key: Key)

  /** The keys to define and the wallets to assign, as the builder lists them. */
  datatype Index = Index(keys: seq<Key>, pairs: seq<Pair>)

  /** The entities and wallets tables: which keys are defined, and each wallet's key. */
  datatype Tables = Tables(entities: set<Key>, wallets: map<Wallet, Option<Key>>)

  predicate IsCurated(key: Option<Key>) { key.Some? && key.value.Curated? }

  // ---- The statements ----

  /** `clearCuratedWalletEntityAssignmentsSQL`. */
  function Clear(t: Tables): Tables {
    t.(wallets := map w | w in t.wallets :: if IsCurated(t.wallets[w]) then None else t.wallets[w])
  }

  /** `deleteCuratedEntitiesSQL`. */
  function Delete(t: Tables): Tables {
    t.(entities := set k | k in t.entities && !k.Curated?)
  }

  /** `upsertCuratedEntitySQL` and `upsertHeuristicEntitySQL`. */
  function Define(t: Tables, key: Key): Tables {
    t.(entities := t.entities + {key})
  }

  /** `upsertCuratedEntityWalletAssignmentSQL`. */
  function AssignCurated(t: Tables, p: Pair): Tables {
    t.(wallets := t.wallets[p.wallet := Some(p.key)])
  }

  /** A wallet a heuristic may claim: no key, or a heuristic one. */
  predicate Claimable(t: Tables, w: Wallet) {
    w !in t.wallets || t.wallets[w].None? || t.wallets[w].value.Heuristic?
  }

  /** `upsertHeuristicWalletEntityAssignmentSQL`. */
  function AssignHeuristic(t: Tables, p: Pair): Tables {
    if Claimable(t, p.wallet) then t.(wallets := t.wallets[p.wallet := Some(p.key)]) else t
  }

  // ---- The interleavings ----

  /** Where the sync is: about to clear, about to delete, defining and then assigning (what is left
      of each, and what was assigned). With nothing left it has finished. */
  datatype Sync =
    | Idle
    | Clearing(index: Index)
    | Deleting(index: Index)
    | Building(index: Index, keys: seq<Key>, done: seq<Pair>, left: seq<Pair>)

  /** Where a heuristic batch is: the entities left to define, then the wallets left to assign. */
  datatype Batch = Batch(define: seq<Pair>, claim: seq<Pair>)

  datatype World = World(tables: Tables, sync: Sync, batches: seq<Batch>)

  /** A sync or a batch starts, or one that runs issues its next statement. A sync that starts
      replaces the last one, which has finished or stopped where it was. */
  datatype Move = BeginSync(index: Index) | SyncMove | BeginBatch(pairs: seq<Pair>) | BatchMove(i: nat)

  function StepSync(w: World): World {
    match w.sync
    case Idle => w
    case Clearing(index) => w.(tables := Clear(w.tables), sync := Deleting(index))
    case Deleting(index) => w.(tables := Delete(w.tables), sync := Building(index, index.keys, [], index.pairs))
    case Building(index, keys, done, left) =>
      if keys != [] then w.(tables := Define(w.tables, keys[0]), sync := Building(index, keys[1..], done, left))
      else if left != [] then
        w.(tables := AssignCurated(w.tables, left[0]), sync := Building(index, keys, done + [left[0]], left[1..]))
      else w
  }

  function StepBatch(w: World, i: nat): World {
    if i >= |w.batches| then w
    else
      var b := w.batches[i];
      if b.define != [] then
        w.(tables := Define(w.tables, b.define[0].key), batches := w.batches[i := Batch(b.define[1..], b.claim)])
      else if b.claim != [] then
        w.(tables := AssignHeuristic(w.tables, b.claim[0]), batches := w.batches[i := Batch([], b.claim[1..])])
      else w
  }

  function Do(w: World, move: Move): World {
    match move
    case BeginSync(index) => w.(sync := Clearing(index))
    case SyncMove => StepSync(w)
    case BeginBatch(pairs) => w.(batches := w.batches + [Batch(pairs, pairs)])
    case BatchMove(i) => StepBatch(w, i)
  }

  function Run(w: World, moves: seq<Move>): World {
    if moves == [] then w else Do(Run(w, moves[..|moves| - 1]), moves[|moves| - 1])
  }

  // ---- What the callers hand in ----

  /** The index a sync works from: curated keys, each pair's key among them, no wallet twice. */
  ghost predicate GoodIndex(index: Index) {
    && (forall i :: 0 <= i < |index.keys| ==> index.keys[i].Curated?)
    && (forall i :: 0 <= i < |index.pairs| ==> index.pairs[i].key in index.keys)
    && (forall i, j :: 0 <= i < j < |index.pairs| ==> index.pairs[i].wallet != index.pairs[j].wallet)
  }

  ghost predicate AllHeuristic(pairs: seq<Pair>) {
    forall i :: 0 <= i < |pairs| ==> pairs[i].key.Heuristic?
  }

  ghost predicate GoodMove(move: Move) {
    (move.BeginSync? ==> GoodIndex(move.index)) && (move.BeginBatch? ==> AllHeuristic(move.pairs))
  }

  ghost predicate GoodMoves(moves: seq<Move>) {
    forall i :: 0 <= i < |moves| ==> GoodMove(moves[i])
  }

  // ---- The invariant ----

  /** Every key a wallet carries names an entity. */
  ghost predicate NoDanglingKey(t: Tables) {
    forall w :: w in t.wallets && t.wallets[w].Some? ==> t.wallets[w].value in t.entities
  }

  ghost predicate KeyedIn(pairs: seq<Pair>, keys: set<Key>) {
    forall i :: 0 <= i < |pairs| ==> pairs[i].key in keys
  }

  function KeysOf(pairs: seq<Pair>): set<Key> {
    set i | 0 <= i < |pairs| :: pairs[i].key
  }

  function KeySet(keys: seq<Key>): set<Key> {
    set i | 0 <= i < |keys| :: keys[i]
  }

  /** What a batch will claim with is defined or about to be. */
  ghost predicate BatchOk(b: Batch, entities: set<Key>) {
    && AllHeuristic(b.define) && AllHeuristic(b.claim)
    && KeyedIn(b.claim, entities + KeysOf(b.define))
  }

  ghost predicate BatchesOk(batches: seq<Batch>, entities: set<Key>) {
    forall i :: 0 <= i < |batches| ==> BatchOk(batches[i], entities)
  }

  /** The curated keys in the wallets table are exactly the pairs assigned so far. */
  ghost predicate CuratedAre(wallets: map<Wallet, Option<Key>>, done: seq<Pair>) {
    forall w, k: Key :: k.Curated? ==> ((w in wallets && wallets[w] == Some(k)) <==> Pair(w, k) in done)
  }

  ghost predicate SyncOk(s: Sync, t: Tables) {
    match s
    case Idle => true
    case Clearing(index) => GoodIndex(index)
    case Deleting(index) => GoodIndex(index) && CuratedAre(t.wallets, [])
    case Building(index, keys, done, left) =>
      && GoodIndex(index)
      && index.pairs == done + left
      && CuratedAre(t.wallets, done)
      && KeySet(keys) <= KeySet(index.keys) <= t.entities + KeySet(keys)
      && (forall k :: k in t.entities && k.Curated? ==> k in index.keys)
      && (keys != [] ==> done == [])
  }

  ghost predicate Sound(w: World) {
    && NoDanglingKey(w.tables)
    && BatchesOk(w.batches, w.tables.entities)
    && SyncOk(w.sync, w.tables)
  }

  lemma MoreEntitiesKeepBatches(batches: seq<Batch>, entities: set<Key>, more: set<Key>)
    requires BatchesOk(batches, entities)
    requires forall k :: k in entities && k.Heuristic? ==> k in more
    ensures BatchesOk(batches, more)
  {
    forall i | 0 <= i < |batches| ensures BatchOk(batches[i], more) {
      assert BatchOk(batches[i], entities);
    }
  }

  lemma ClearKeeps(w: World, index: Index)
    requires Sound(w) && w.sync == Clearing(index)
    ensures Sound(StepSync(w))
  {
  }

  lemma DeleteKeeps(w: World, index: Index)
    requires Sound(w) && w.sync == Deleting(index)
    ensures Sound(StepSync(w))
  {
    var after := StepSync(w);
    MoreEntitiesKeepBatches(w.batches, w.tables.entities, after.tables.entities);
    assert [] + index.pairs == index.pairs;
  }

  lemma DefineKeeps(w: World, index: Index, keys: seq<Key>, done: seq<Pair>, left: seq<Pair>)
    requires Sound(w) && w.sync == Building(index, keys, done, left) && keys != []
    ensures Sound(StepSync(w))
  {
    var after := StepSync(w);
    MoreEntitiesKeepBatches(w.batches, w.tables.entities, after.tables.entities);
    assert keys[0] in KeySet(keys);
    forall k | k in KeySet(keys) ensures k in {keys[0]} + KeySet(keys[1..]) {
      var i :| 0 <= i < |keys| && keys[i] == k;
      assert i > 0 ==> keys[1..][i - 1] == k;
    }
    forall k | k in KeySet(keys[1..]) ensures k in KeySet(keys) {
      var i :| 0 <= i < |keys[1..]| && keys[1..][i] == k;
      assert keys[i + 1] == k;
    }
  }

  lemma AssignKeeps(w: World, index: Index, done: seq<Pair>, left: seq<Pair>)
    requires Sound(w) && w.sync == Building(index, [], done, left) && left != []
    ensures Sound(StepSync(w))
  {
    var p := left[0];
    assert index.pairs[|done|] == p;
    assert done + left == (done + [p]) + left[1..];
    assert p.key in index.keys && p.key in KeySet(index.keys);
    forall i | 0 <= i < |done| ensures done[i].wallet != p.wallet {
      assert index.pairs[i] == done[i];
    }
  }

  /** A batch's next statement leaves what it still claims defined or about to be, and claims a defined key. */
  lemma BatchMoveIsOk(w: World, i: nat)
    requires BatchesOk(w.batches, w.tables.entities) && i < |w.batches|
    ensures BatchesOk(StepBatch(w, i).batches, StepBatch(w, i).tables.entities)
    ensures var b := w.batches[i];
      && (b.define != [] ==> b.define[0].key.Heuristic?)
      && (b.define == [] && b.claim != [] ==> b.claim[0].key.Heuristic? && b.claim[0].key in w.tables.entities)
  {
    var b := w.batches[i];
    assert BatchOk(b, w.tables.entities);
    var after := StepBatch(w, i);
    if b.define != [] {
      MoreEntitiesKeepBatches(w.batches, w.tables.entities, after.tables.entities);
      forall j | 0 <= j < |b.claim| ensures b.claim[j].key in after.tables.entities + KeysOf(b.define[1..]) {
        if b.claim[j].key in KeysOf(b.define) {
          var m :| 0 <= m < |b.define| && b.define[m].key == b.claim[j].key;
          assert m > 0 ==> b.define[1..][m - 1].key == b.claim[j].key;
        }
      }
    } else if b.claim != [] {
      assert KeysOf([]) == {};
    }
  }

  lemma BatchMoveKeeps(w: World, i: nat)
    requires Sound(w) && i < |w.batches|
    ensures Sound(StepBatch(w, i))
  {
    BatchMoveIsOk(w, i);
  }

  lemma MoveKeepsSound(w: World, move: Move)
    requires Sound(w) && GoodMove(move)
    ensures Sound(Do(w, move))
  {
    match move
    case BeginSync(index) =>
    case SyncMove =>
      match w.sync {
        case Idle =>
        case Clearing(index) => ClearKeeps(w, index);
        case Deleting(index) => DeleteKeeps(w, index);
        case Building(index, keys, done, left) =>
          if keys != [] { DefineKeeps(w, index, keys, done, left); }
          else if left != [] { AssignKeeps(w, index, done, left); }
      }
    case BeginBatch(pairs) =>
      forall i | 0 <= i < |pairs| ensures pairs[i].key in KeysOf(pairs) {
      }
    case BatchMove(i) => if i < |w.batches| { BatchMoveKeeps(w, i); }
  }

  ghost predicate Starts(w: World) {
    w.sync == Idle && w.batches == [] && NoDanglingKey(w.tables)
  }

  lemma {:induction false} RunKeepsSound(w: World, moves: seq<Move>)
    requires Starts(w) && GoodMoves(moves)
    ensures Sound(Run(w, moves))
  {
    if moves != [] {
      RunKeepsSound(w, moves[..|moves| - 1]);
      MoveKeepsSound(Run(w, moves[..|moves| - 1]), moves[|moves| - 1]);
    }
  }

  // ---- The theorems about interleavings ----

  /** At every point of every interleaving of one sync at a time with any number of batches, each of
      which may stop for good after any statement, every key a wallet carries names an entity. */
  lemma NothingDangles(w: World, moves: seq<Move>)
    requires Starts(w) && GoodMoves(moves)
    ensures NoDanglingKey(Run(w, moves).tables)
  {
    RunKeepsSound(w, moves);
  }

  predicate Finished(s: Sync) {
    s.Building? && s.keys == [] && s.left == []
  }

  /** Whenever the last sync has finished, the curated assignments are exactly its index's pairs and
      the curated entities exactly its keys, whatever heuristic batches did before, during or after. */
  lemma FinishedSyncIsExact(w: World, moves: seq<Move>)
    requires Starts(w) && GoodMoves(moves) && Finished(Run(w, moves).sync)
    ensures var after := Run(w, moves);
            && (forall x, k: Key :: k.Curated? ==>
                 ((x in after.tables.wallets && after.tables.wallets[x] == Some(k)) <==> Pair(x, k) in after.sync.index.pairs))
            && (forall k: Key :: k.Curated? ==> (k in after.tables.entities <==> k in after.sync.index.keys))
  {
    RunKeepsSound(w, moves);
    var after := Run(w, moves);
    assert after.sync.done + [] == after.sync.done;
    forall k: Key | k in after.sync.index.keys ensures k in after.tables.entities {
      var i :| 0 <= i < |after.sync.index.keys| && after.sync.index.keys[i] == k;
      assert k in KeySet(after.sync.index.keys);
      assert KeySet([]) == {};
    }
  }

  /** A heuristic batch never changes a wallet that carries a curated key. */
  lemma BatchLeavesCurated(w: World, i: nat, x: Wallet)
    requires Sound(w) && x in w.tables.wallets && IsCurated(w.tables.wallets[x])
    ensures x in StepBatch(w, i).tables.wallets && StepBatch(w, i).tables.wallets[x] == w.tables.wallets[x]
  {
  }

  // ---- One sync alone ----

  function DefineAll(t: Tables, keys: seq<Key>): Tables {
    if keys == [] then t else Define(DefineAll(t, keys[..|keys| - 1]), keys[|keys| - 1])
  }

  function AssignAll(t: Tables, pairs: seq<Pair>): Tables {
    if pairs == [] then t else AssignCurated(AssignAll(t, pairs[..|pairs| - 1]), pairs[|pairs| - 1])
  }

  function SyncAll(t: Tables, index: Index): Tables {
    AssignAll(DefineAll(Delete(Clear(t)), index.keys), index.pairs)
  }

  /** The key a wallet has, absent rows and NULL alike. */
  function KeyAt(t: Tables, x: Wallet): Option<Key> {
    if x in t.wallets then t.wallets[x] else None
  }

  function PairedWith(pairs: seq<Pair>, x: Wallet): Option<Key> {
    if pairs == [] then None
    else if pairs[|pairs| - 1].wallet == x then Some(pairs[|pairs| - 1].key)
    else PairedWith(pairs[..|pairs| - 1], x)
  }

  lemma {:induction false} AssignAllIs(t: Tables, pairs: seq<Pair>, x: Wallet)
    ensures AssignAll(t, pairs).entities == t.entities
    ensures KeyAt(AssignAll(t, pairs), x) == if PairedWith(pairs, x).Some? then PairedWith(pairs, x) else KeyAt(t, x)
    ensures x in AssignAll(t, pairs).wallets <==> x in t.wallets || PairedWith(pairs, x).Some?
  {
    if pairs != [] {
      AssignAllIs(t, pairs[..|pairs| - 1], x);
    }
  }

  lemma {:induction false} DefineAllIs(t: Tables, keys: seq<Key>)
    ensures DefineAll(t, keys).wallets == t.wallets
    ensures forall k :: k in DefineAll(t, keys).entities <==> k in t.entities || k in keys
  {
    if keys != [] {
      DefineAllIs(t, keys[..|keys| - 1]);
    }
  }

  /** What a sync leaves: the index's key on each wallet it pairs, no other curated key, every other
      wallet as it was; the index's curated entities and every other entity as it was. */
  lemma SyncAllIs(t: Tables, index: Index, x: Wallet, k: Key)
    ensures KeyAt(SyncAll(t, index), x) == if PairedWith(index.pairs, x).Some? then PairedWith(index.pairs, x)
                                           else if IsCurated(KeyAt(t, x)) then None else KeyAt(t, x)
    ensures x in SyncAll(t, index).wallets <==> x in t.wallets || PairedWith(index.pairs, x).Some?
    ensures k in SyncAll(t, index).entities <==> k in index.keys || (k in t.entities && !k.Curated?)
  {
    DefineAllIs(Delete(Clear(t)), index.keys);
    AssignAllIs(DefineAll(Delete(Clear(t)), index.keys), index.pairs, x);
  }

  /** Syncing again from the same lists changes nothing. */
  lemma SyncIsIdempotent(t: Tables, index: Index)
    ensures SyncAll(SyncAll(t, index), index) == SyncAll(t, index)
  {
    var once := SyncAll(t, index);
    var twice := SyncAll(once, index);
    forall x ensures (x in twice.wallets <==> x in once.wallets) && KeyAt(twice, x) == KeyAt(once, x) {
      SyncAllIs(t, index, x, Curated(""));
      SyncAllIs(once, index, x, Curated(""));
    }
    forall k ensures k in twice.entities <==> k in once.entities {
      SyncAllIs(t, index, Wallet("", ""), k);
      SyncAllIs(once, index, Wallet("", ""), k);
    }
    forall x | x in once.wallets ensures twice.wallets[x] == once.wallets[x] {
      assert KeyAt(twice, x) == KeyAt(once, x);
    }
    assert twice.wallets == once.wallets;
  }

  /** The wallets whose graphs a sync invalidates: those that carried a curated key before, in the
      order the database lists them, then those it assigned. */
  function InvalidatedRefs(previous: seq<Wallet>, index: Index): seq<Wallet> {
    previous + seq(|index.pairs|, i requires 0 <= i < |index.pairs| => index.pairs[i].wallet)
  }

  /** Every wallet whose key a sync changes is invalidated. */
  lemma ChangedKeysAreInvalidated(t: Tables, index: Index, previous: seq<Wallet>, x: Wallet)
    requires forall y :: y in previous <==> y in t.wallets && IsCurated(t.wallets[y])
    requires KeyAt(SyncAll(t, index), x) != KeyAt(t, x)
    ensures x in InvalidatedRefs(previous, index)
  {
    SyncAllIs(t, index, x, Curated(""));
    if PairedWith(index.pairs, x).Some? {
      var i := PairedAt(index.pairs, x);
      assert InvalidatedRefs(previous, index)[|previous| + i] == x;
    }
  }

  lemma {:induction false} PairedAt(pairs: seq<Pair>, x: Wallet) returns (i: nat)
    requires PairedWith(pairs, x).Some?
    ensures i < |pairs| && pairs[i] == Pair(x, PairedWith(pairs, x).value)
  {
    i := |pairs| - 1;
    if pairs[i].wallet != x {
      i := PairedAt(pairs[..i], x);
    }
  }
}
