/** Syncs of the curated entities that overlap: any number of them, from any lists, interleaved statement
    by statement with heuristic batches, each of which may stop anywhere
    (packages/db/curated_entity_index.go; every request of the admin console and every import runs one). */
module SyncOverlap {
  import opened Text
  import opened CuratedIndex
  import opened EntitySync

  datatype Race = Race(tables: Tables, syncs: seq<Sync>, batches: seq<Batch>)

  /** A sync or a batch starts, or issues its next statement. */
  datatype Step = StartSync(index: Index) | SyncStep(s: nat) | StartBatch(pairs: seq<Pair>) | BatchStep(i: nat)

  function Next(r: Race, step: Step): Race {
    match step
    case StartSync(index) => r.(syncs := r.syncs + [Clearing(index)])
    case SyncStep(s) =>
      if s < |r.syncs| then
        var w := StepSync(World(r.tables, r.syncs[s], r.batches));
        Race(w.tables, r.syncs[s := w.sync], r.batches)
      else r
    case StartBatch(pairs) => r.(batches := r.batches + [Batch(pairs, pairs)])
    case BatchStep(i) =>
      var w := StepBatch(World(r.tables, Idle, r.batches), i);
      Race(w.tables, r.syncs, w.batches)
  }

  /** The tables, the syncs and the batches after the steps. */
  function After(start: Tables, steps: seq<Step>): Race {
    if steps == [] then Race(start, [], []) else Next(After(start, steps[..|steps| - 1]), steps[|steps| - 1])
  }

  /** Syncs start from these indexes, batches from heuristic pairs. */
  ghost predicate Uses(steps: seq<Step>, used: Index -> bool) {
    forall i :: 0 <= i < |steps| ==>
      (steps[i].StartSync? ==> used(steps[i].index)) && (steps[i].StartBatch? ==> AllHeuristic(steps[i].pairs))
  }

  /** The indexes are such as the builder makes. */
  ghost predicate AllGood(used: Index -> bool) {
    forall index :: used(index) ==> GoodIndex(index)
  }

  // ---- The statements that matter ----

  datatype Statement = ClearAll | DeleteAll | DefineKey(key: Key) | AssignPair(p: Pair) | Harmless

  /** What a step issues, as far as curated keys are concerned. */
  function Issued(r: Race, step: Step): Statement {
    if step.SyncStep? && step.s < |r.syncs| then
      match r.syncs[step.s]
      case Idle => Harmless
      case Clearing(_) => ClearAll
      case Deleting(_) => DeleteAll
      case Building(_, keys, _, left) =>
        if keys != [] then DefineKey(keys[0]) else if left != [] then AssignPair(left[0]) else Harmless
    else Harmless
  }

  /** The sync that assigned a key. */
  datatype Mark = Mark(sync: nat, key: Key)

  function NextAssigned(r: Race, step: Step, x: Wallet, last: Option<Mark>): Option<Mark> {
    match Issued(r, step)
    case ClearAll => None
    case AssignPair(p) => if p.wallet == x then Some(Mark(step.s, p.key)) else last
    case _ => last
  }

  function NextDeleted(r: Race, step: Step, k: Key, last: Option<nat>): Option<nat> {
    match Issued(r, step)
    case DeleteAll => Some(step.s)
    case DefineKey(key) => if key == k then None else last
    case _ => last
  }

  /** The last assignment of the wallet that no clear came after. */
  function AssignedLast(start: Tables, steps: seq<Step>, x: Wallet): Option<Mark> {
    if steps == [] then None
    else
      var n := |steps| - 1;
      NextAssigned(After(start, steps[..n]), steps[n], x, AssignedLast(start, steps[..n], x))
  }

  /** The sync whose deletion came last, if no definition of the key came after it. */
  function DeletedLast(start: Tables, steps: seq<Step>, k: Key): Option<nat> {
    if steps == [] then None
    else
      var n := |steps| - 1;
      NextDeleted(After(start, steps[..n]), steps[n], k, DeletedLast(start, steps[..n], k))
  }

  // ---- The invariant ----

  /** No sync has issued a statement. */
  predicate NoneCleared(syncs: seq<Sync>) {
    forall s :: 0 <= s < |syncs| ==> syncs[s].Clearing?
  }

  ghost predicate SyncIsGood(s: Sync) {
    match s
    case Idle => false
    case Clearing(index) => GoodIndex(index)
    case Deleting(index) => GoodIndex(index)
    case Building(index, keys, done, left) =>
      GoodIndex(index) && index.pairs == done + left && KeySet(keys) <= KeySet(index.keys)
  }

  /** The sync builds, and has defined the key if its index has it. */
  ghost predicate HasDefined(s: Sync, k: Key) {
    s.Building? && k in KeySet(s.index.keys) - KeySet(s.keys)
  }

  /** How a wallet came by its key. */
  ghost predicate AssignedIs(start: Tables, r: Race, x: Wallet, last: Option<Mark>) {
    match last
    case Some(m) =>
      && KeyAt(r.tables, x) == Some(m.key) && m.key.Curated?
      && m.sync < |r.syncs| && r.syncs[m.sync].Building?
      && r.syncs[m.sync].keys == [] && Pair(x, m.key) in r.syncs[m.sync].index.pairs
    case None => IsCurated(KeyAt(r.tables, x)) ==> KeyAt(start, x) == KeyAt(r.tables, x) && NoneCleared(r.syncs)
  }

  /** How a curated key came to name no entity. */
  ghost predicate DeletedIs(r: Race, k: Key, last: Option<nat>) {
    match last
    case Some(d) => k !in r.tables.entities && d < |r.syncs| && r.syncs[d].Building? && !HasDefined(r.syncs[d], k)
    case None => k !in r.tables.entities ==> forall s :: 0 <= s < |r.syncs| ==> !HasDefined(r.syncs[s], k)
  }

  ghost predicate Tracked(start: Tables, r: Race, x: Wallet, k: Key, mark: Option<Mark>, gone: Option<nat>) {
    && (forall s :: 0 <= s < |r.syncs| ==> SyncIsGood(r.syncs[s]))
    && (NoneCleared(r.syncs) ==> forall key :: key in start.entities ==> key in r.tables.entities)
    && AssignedIs(start, r, x, mark)
    && DeletedIs(r, k, gone)
  }

  lemma HeadAndTail(keys: seq<Key>)
    requires keys != []
    ensures KeySet(keys) == {keys[0]} + KeySet(keys[1..])
  {
    assert keys == [keys[0]] + keys[1..];
    forall k | k in KeySet(keys) ensures k in {keys[0]} + KeySet(keys[1..]) {
      var i :| 0 <= i < |keys| && keys[i] == k;
      assert i > 0 ==> keys[1..][i - 1] == k;
    }
    forall k | k in KeySet(keys[1..]) ensures k in KeySet(keys) {
      var i :| 0 <= i < |keys[1..]| && keys[1..][i] == k;
      assert keys[i + 1] == k;
    }
  }

  /** No other key dangles: nothing deletes an entity that is not curated. */
  ghost predicate OthersOk(r: Race) {
    && BatchesOk(r.batches, r.tables.entities)
    && forall x :: x in r.tables.wallets && r.tables.wallets[x].Some? && !r.tables.wallets[x].value.Curated? ==>
         r.tables.wallets[x].value in r.tables.entities
  }

  ghost predicate GoodStep(step: Step) {
    (step.StartSync? ==> GoodIndex(step.index)) && (step.StartBatch? ==> AllHeuristic(step.pairs))
  }

  /** What a sync's statement does to the tables. */
  function Apply(t: Tables, statement: Statement): Tables {
    match statement
    case ClearAll => Clear(t)
    case DeleteAll => Delete(t)
    case DefineKey(key) => Define(t, key)
    case AssignPair(p) => AssignCurated(t, p)
    case Harmless => t
  }

  lemma SyncStepIs(r: Race, s: nat)
    requires s < |r.syncs| && SyncIsGood(r.syncs[s])
    ensures var r' := Next(r, SyncStep(s));
      && r'.tables == Apply(r.tables, Issued(r, SyncStep(s)))
      && r'.batches == r.batches && |r'.syncs| == |r.syncs| && SyncIsGood(r'.syncs[s])
      && (forall i :: 0 <= i < |r.syncs| && i != s ==> r'.syncs[i] == r.syncs[i])
      && (Issued(r, SyncStep(s)).DefineKey? || Issued(r, SyncStep(s)).AssignPair? || Issued(r, SyncStep(s)).DeleteAll? ==>
            r'.syncs[s].Building? && !r.syncs[s].Clearing?)
  {
    match r.syncs[s]
    case Building(index, keys, done, left) =>
      if keys != [] {
        HeadAndTail(keys);
      } else if left != [] {
        assert done + left == (done + [left[0]]) + left[1..];
      }
    case Deleting(index) => assert [] + index.pairs == index.pairs;
    case _ =>
  }

  lemma AssignIssued(r: Race, s: nat)
    requires s < |r.syncs| && SyncIsGood(r.syncs[s]) && Issued(r, SyncStep(s)).AssignPair?
    ensures var p := Issued(r, SyncStep(s)).p;
      && p in r.syncs[s].index.pairs && p.key.Curated? && HasDefined(r.syncs[s], p.key)
      && r.syncs[s].keys == [] && Next(r, SyncStep(s)).syncs[s].keys == []
      && Next(r, SyncStep(s)).syncs[s].index == r.syncs[s].index
  {
    var sync := r.syncs[s];
    var p := sync.left[0];
    assert sync.index.pairs[|sync.done|] == p && p.key in sync.index.keys;
    var i :| 0 <= i < |sync.index.keys| && sync.index.keys[i] == p.key;
    assert KeySet([]) == {} && p.key in KeySet(sync.index.keys);
  }

  lemma DefineIssued(r: Race, s: nat, k: Key)
    requires s < |r.syncs| && SyncIsGood(r.syncs[s]) && Issued(r, SyncStep(s)).DefineKey? && Issued(r, SyncStep(s)).key != k
    ensures HasDefined(Next(r, SyncStep(s)).syncs[s], k) == HasDefined(r.syncs[s], k)
  {
    HeadAndTail(r.syncs[s].keys);
  }

  lemma StepIsOthersOk(r: Race, step: Step)
    requires OthersOk(r) && GoodStep(step) && forall s :: 0 <= s < |r.syncs| ==> SyncIsGood(r.syncs[s])
    ensures OthersOk(Next(r, step))
  {
    var r' := Next(r, step);
    match step
    case StartSync(index) =>
    case StartBatch(pairs) =>
      forall i | 0 <= i < |pairs| ensures pairs[i].key in KeysOf(pairs) {
      }
    case BatchStep(i) =>
      if i < |r.batches| {
        BatchMoveIsOk(World(r.tables, Idle, r.batches), i);
      }
    case SyncStep(s) =>
      if s < |r.syncs| {
        SyncStepIs(r, s);
        MoreEntitiesKeepBatches(r.batches, r.tables.entities, r'.tables.entities);
        if Issued(r, step).AssignPair? {
          AssignIssued(r, s);
        }
      }
  }

  lemma StepIsAssigned(start: Tables, r: Race, step: Step, x: Wallet, k: Key, mark: Option<Mark>, gone: Option<nat>)
    requires Tracked(start, r, x, k, mark, gone) && GoodStep(step) && OthersOk(r)
    ensures AssignedIs(start, Next(r, step), x, NextAssigned(r, step, x, mark))
  {
    match step
    case StartSync(index) =>
    case StartBatch(pairs) =>
    case BatchStep(i) =>
      if i < |r.batches| {
        BatchMoveIsOk(World(r.tables, Idle, r.batches), i);
      }
    case SyncStep(s) =>
      if s < |r.syncs| {
        SyncStepIs(r, s);
        if Issued(r, step).AssignPair? {
          AssignIssued(r, s);
        }
      }
  }

  lemma StepIsDeleted(start: Tables, r: Race, step: Step, x: Wallet, k: Key, mark: Option<Mark>, gone: Option<nat>)
    requires Tracked(start, r, x, k, mark, gone) && GoodStep(step) && OthersOk(r) && k.Curated?
    ensures DeletedIs(Next(r, step), k, NextDeleted(r, step, k, gone))
  {
    match step
    case StartSync(index) =>
    case StartBatch(pairs) =>
    case BatchStep(i) =>
      if i < |r.batches| {
        BatchMoveIsOk(World(r.tables, Idle, r.batches), i);
      }
    case SyncStep(s) =>
      if s < |r.syncs| {
        SyncStepIs(r, s);
        if Issued(r, step).DefineKey? && Issued(r, step).key != k {
          DefineIssued(r, s, k);
        }
      }
  }

  lemma StepIsTracked(start: Tables, r: Race, step: Step, x: Wallet, k: Key, mark: Option<Mark>, gone: Option<nat>)
    requires Tracked(start, r, x, k, mark, gone) && GoodStep(step) && OthersOk(r) && k.Curated?
    ensures Tracked(start, Next(r, step), x, k, NextAssigned(r, step, x, mark), NextDeleted(r, step, k, gone))
  {
    StepIsAssigned(start, r, step, x, k, mark, gone);
    StepIsDeleted(start, r, step, x, k, mark, gone);
    match step
    case StartSync(index) =>
      assert forall s :: 0 <= s < |r.syncs| ==> Next(r, step).syncs[s] == r.syncs[s];
    case StartBatch(pairs) =>
    case BatchStep(i) =>
    case SyncStep(s) =>
      if s < |r.syncs| {
        SyncStepIs(r, s);
      }
  }

  lemma {:induction false} RunIsTracked(start: Tables, steps: seq<Step>, used: Index -> bool, x: Wallet, k: Key)
    requires NoDanglingKey(start) && Uses(steps, used) && AllGood(used) && k.Curated?
    ensures OthersOk(After(start, steps))
    ensures Tracked(start, After(start, steps), x, k, AssignedLast(start, steps, x), DeletedLast(start, steps, k))
  {
    if steps != [] {
      var n := |steps| - 1;
      RunIsTracked(start, steps[..n], used, x, k);
      assert GoodStep(steps[n]);
      StepIsOthersOk(After(start, steps[..n]), steps[n]);
      StepIsTracked(start, After(start, steps[..n]), steps[n], x, k, AssignedLast(start, steps[..n], x), DeletedLast(start, steps[..n], k));
    }
  }

  // ---- When a key dangles ----

  /** The wallet carries the key, and no entity has it. */
  predicate Dangles(t: Tables, x: Wallet, k: Key) {
    KeyAt(t, x) == Some(k) && k !in t.entities
  }

  /** At any point of any interleaving of any syncs and batches, a wallet carries a curated key that no
      entity has exactly when the last assignment of the wallet that no clear came after gave it that key,
      and a deletion came after the last definition of the key. */
  lemma DanglesIff(start: Tables, steps: seq<Step>, used: Index -> bool, x: Wallet, k: Key)
    requires NoDanglingKey(start) && Uses(steps, used) && AllGood(used) && k.Curated?
    ensures Dangles(After(start, steps).tables, x, k) <==>
      && AssignedLast(start, steps, x).Some? && AssignedLast(start, steps, x).value.key == k
      && DeletedLast(start, steps, k).Some?
  {
    RunIsTracked(start, steps, used, x, k);
    var r, mark := After(start, steps), AssignedLast(start, steps, x);
    if mark.Some? && mark.value.key == k {
      HasDefinedAll(r.syncs[mark.value.sync], Pair(x, k));
    }
  }

  /** A sync that assigns has defined all its keys. */
  lemma HasDefinedAll(s: Sync, p: Pair)
    requires SyncIsGood(s) && s.Building? && s.keys == [] && p in s.index.pairs
    ensures HasDefined(s, p.key)
  {
    var i :| 0 <= i < |s.index.pairs| && s.index.pairs[i] == p;
    assert s.index.pairs[i].key in s.index.keys;
    var j :| 0 <= j < |s.index.keys| && s.index.keys[j] == p.key;
    assert KeySet([]) == {} && p.key in KeySet(s.index.keys);
  }

  ghost predicate AllFinished(r: Race) {
    forall s :: 0 <= s < |r.syncs| ==> Finished(r.syncs[s])
  }

  /** Once the syncs have finished, such a key was assigned by one sync and deleted by another one whose
      index lacks it. */
  lemma FinishedDanglesByTwo(start: Tables, steps: seq<Step>, used: Index -> bool, x: Wallet, k: Key) returns (a: nat, d: nat)
    requires NoDanglingKey(start) && Uses(steps, used) && AllGood(used) && k.Curated?
    requires AllFinished(After(start, steps)) && Dangles(After(start, steps).tables, x, k)
    ensures var r := After(start, steps);
      && a != d && a < |r.syncs| && d < |r.syncs|
      && AssignedLast(start, steps, x) == Some(Mark(a, k)) && DeletedLast(start, steps, k) == Some(d)
      && Pair(x, k) in r.syncs[a].index.pairs && k !in r.syncs[d].index.keys
  {
    DanglesIff(start, steps, used, x, k);
    RunIsTracked(start, steps, used, x, k);
    var r := After(start, steps);
    a, d := AssignedLast(start, steps, x).value.sync, DeletedLast(start, steps, k).value;
    HasDefinedAll(r.syncs[a], Pair(x, k));
  }

  // ---- Which lists may overlap ----

  /** However syncs from these indexes overlap, with each other and with batches, once they have finished
      every key that a wallet carries names an entity. */
  ghost predicate NeverDangles(start: Tables, used: Index -> bool) {
    forall steps :: Uses(steps, used) && AllFinished(After(start, steps)) ==> NoDanglingKey(After(start, steps).tables)
  }

  /** Each of the indexes defines the keys that any of them assigns. */
  ghost predicate DefineEachOther(used: Index -> bool) {
    forall a: Index, d: Index, p: Pair :: used(a) && used(d) && p in a.pairs ==> p.key in d.keys
  }

  lemma {:induction false} SyncsAreUsed(start: Tables, steps: seq<Step>, used: Index -> bool)
    requires Uses(steps, used)
    ensures forall s :: 0 <= s < |After(start, steps).syncs| ==>
      var sync := After(start, steps).syncs[s]; !sync.Idle? && used(sync.index)
  {
    if steps != [] {
      SyncsAreUsed(start, steps[..|steps| - 1], used);
    }
  }

  lemma FittingRunIsClean(start: Tables, steps: seq<Step>, used: Index -> bool)
    requires NoDanglingKey(start) && AllGood(used) && DefineEachOther(used)
    requires Uses(steps, used) && AllFinished(After(start, steps))
    ensures NoDanglingKey(After(start, steps).tables)
  {
    var r := After(start, steps);
    forall x | x in r.tables.wallets && r.tables.wallets[x].Some? ensures r.tables.wallets[x].value in r.tables.entities {
      var k := r.tables.wallets[x].value;
      RunIsTracked(start, steps, used, x, Curated(""));
      if k.Curated? && k !in r.tables.entities {
        var a, d := FinishedDanglesByTwo(start, steps, used, x, k);
        SyncsAreUsed(start, steps, used);
        assert false;
      }
    }
  }

  lemma Then(start: Tables, steps: seq<Step>, used: Index -> bool, step: Step) returns (more: seq<Step>)
    requires Uses(steps, used) && (step.StartSync? ==> used(step.index)) && !step.StartBatch?
    ensures Uses(more, used) && After(start, more) == Next(After(start, steps), step)
  {
    more := steps + [step];
    assert more[..|steps|] == steps;
  }

  /** The sync defines what it has left to define. */
  lemma {:induction false} DefineRest(start: Tables, steps: seq<Step>, used: Index -> bool, s: nat) returns (more: seq<Step>)
    requires Uses(steps, used) && s < |After(start, steps).syncs| && After(start, steps).syncs[s].Building?
    ensures Uses(more, used)
    ensures var (r, sync) := (After(start, steps), After(start, steps).syncs[s]);
      After(start, more) == Race(r.tables.(entities := r.tables.entities + KeySet(sync.keys)),
                                 r.syncs[s := sync.(keys := [])], r.batches)
    decreases |After(start, steps).syncs[s].keys|
  {
    var r, sync := After(start, steps), After(start, steps).syncs[s];
    if sync.keys == [] {
      more := steps;
      assert KeySet([]) == {} && r.syncs[s := sync] == r.syncs;
    } else {
      more := Then(start, steps, used, SyncStep(s));
      more := DefineRest(start, more, used, s);
      HeadAndTail(sync.keys);
      assert r.tables.entities + {sync.keys[0]} + KeySet(sync.keys[1..]) == r.tables.entities + KeySet(sync.keys);
    }
  }

  /** The sync assigns what it has left to assign. */
  lemma {:induction false} AssignRest(start: Tables, steps: seq<Step>, used: Index -> bool, s: nat) returns (more: seq<Step>)
    requires Uses(steps, used) && s < |After(start, steps).syncs|
    requires var sync := After(start, steps).syncs[s];
      sync.Building? && sync.keys == [] && forall i, j :: 0 <= i < j < |sync.left| ==> sync.left[i].wallet != sync.left[j].wallet
    ensures Uses(more, used)
    ensures var (r, r') := (After(start, steps), After(start, more));
      var sync := r.syncs[s];
      && r'.syncs == r.syncs[s := sync.(done := sync.done + sync.left, left := [])]
      && r'.tables.entities == r.tables.entities
      && (forall p :: p in sync.left ==> KeyAt(r'.tables, p.wallet) == Some(p.key))
      && (forall x :: (forall p :: p in sync.left ==> p.wallet != x) ==> KeyAt(r'.tables, x) == KeyAt(r.tables, x))
    decreases |After(start, steps).syncs[s].left|
  {
    var r, sync := After(start, steps), After(start, steps).syncs[s];
    if sync.left == [] {
      more := steps;
      assert sync.done + [] == sync.done && r.syncs[s := sync] == r.syncs;
    } else {
      more := Then(start, steps, used, SyncStep(s));
      var p, rest := sync.left[0], sync.left[1..];
      assert sync.left == [p] + rest && sync.done + [p] + rest == sync.done + sync.left;
      more := AssignRest(start, more, used, s);
      assert forall q :: q in rest ==> q.wallet != p.wallet;
    }
  }

  lemma BothAreBuilding(start: Tables, used: Index -> bool, first: Index, second: Index) returns (steps: seq<Step>)
    requires AllGood(used) && used(first) && used(second)
    ensures Uses(steps, used)
    ensures var r := After(start, steps);
      && r.syncs == [Building(first, first.keys, [], first.pairs), Building(second, [], [], second.pairs)]
      && forall k :: k in r.tables.entities ==> !k.Curated?
  {
    steps := Then(start, [], used, StartSync(first));
    steps := Then(start, steps, used, SyncStep(0));
    steps := Then(start, steps, used, StartSync(second));
    steps := Then(start, steps, used, SyncStep(1));
    steps := Then(start, steps, used, SyncStep(1));
    assert After(start, steps).syncs == [Deleting(first), Building(second, second.keys, [], second.pairs)];
    steps := DefineRest(start, steps, used, 1);
    steps := Then(start, steps, used, SyncStep(0));
  }

  /** The failing run: the second sync does all but assign between the first one's clear and its deletion,
      and assigns when the first one has finished. Both finish; a key that the second one's lists assign and
      the first one's do not define is left on its wallet without an entity. */
  lemma OverlappingSyncsDangle(start: Tables, used: Index -> bool, first: Index, second: Index, p: Pair) returns (steps: seq<Step>)
    requires AllGood(used) && used(first) && used(second) && p in second.pairs && p.key !in first.keys
    ensures Uses(steps, used)
    ensures var r := After(start, steps);
      && |r.syncs| == 2 && AllFinished(r) && r.syncs[0].index == first && r.syncs[1].index == second
      && Dangles(r.tables, p.wallet, p.key)
  {
    assert p.key.Curated? by {
      var i :| 0 <= i < |second.pairs| && second.pairs[i] == p;
      assert second.pairs[i].key in second.keys;
    }
    steps := BothAreBuilding(start, used, first, second);
    steps := DefineRest(start, steps, used, 0);
    steps := AssignRest(start, steps, used, 0);
    steps := AssignRest(start, steps, used, 1);
  }

  /** A check before the call: from any tables, overlapping syncs from a collection of indexes never end in
      a dangling key, whatever the interleaving, exactly when each of the indexes defines every key that
      one of them assigns. */
  lemma NeverDanglesIff(start: Tables, used: Index -> bool)
    requires NoDanglingKey(start) && AllGood(used)
    ensures NeverDangles(start, used) <==> DefineEachOther(used)
  {
    if DefineEachOther(used) {
      forall steps | Uses(steps, used) && AllFinished(After(start, steps)) ensures NoDanglingKey(After(start, steps).tables) {
        FittingRunIsClean(start, steps, used);
      }
    } else {
      var second: Index, first: Index, p: Pair :| used(second) && used(first) && p in second.pairs && p.key !in first.keys;
      var steps := OverlappingSyncsDangle(start, used, first, second, p);
      assert !NoDanglingKey(After(start, steps).tables);
    }
  }

  function OnlyThis(index: Index): Index -> bool { (other: Index) => other == index }

  /** So syncs that read the same lists may overlap. */
  lemma SameListsMayOverlap(start: Tables, index: Index)
    requires NoDanglingKey(start) && GoodIndex(index)
    ensures NeverDangles(start, OnlyThis(index))
  {
    forall p | p in index.pairs ensures p.key in index.keys {
      var i :| 0 <= i < |index.pairs| && index.pairs[i] == p;
    }
    NeverDanglesIff(start, OnlyThis(index));
  }
}
