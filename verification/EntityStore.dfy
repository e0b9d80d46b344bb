/** The two entity stores statement by statement, and the graphs they invalidate
    (packages/db/curated_entity_index.go, packages/db/heuristic_entity_assignment.go,
    packages/db/wallet_graph_invalidation.go). */
module EntityStore {
  import opened Text
  import opened Sorting
  import opened CuratedIndex
  import opened CuratedIndexLaws
  import opened EntitySync

  // ---- From the builder's result to the statements ----

  function KeysToDefine(definitions: seq<Definition>): seq<Key> {
    seq(|definitions|, i requires 0 <= i < |definitions| => definitions[i].key)
  }

  function PairsToAssign(assignments: seq<Assignment>): seq<Pair> {
    seq(|assignments|, i requires 0 <= i < |assignments| => Pair(assignments[i].wallet, assignments[i].key))
  }

  function IndexOf(definitions: seq<Definition>, assignments: seq<Assignment>): Index {
    Index(KeysToDefine(definitions), PairsToAssign(assignments))
  }

  /** Some list curates the key. */
  ghost predicate IsCuratedBySome(items: seq<Item>, key: Key) {
    exists l :: 0 <= l < |Order(items)| && Curates(items, Order(items)[l], key)
  }

  lemma DefinedIffCurated(items: seq<Item>, definitions: seq<Definition>, key: Key)
    requires AreDefinitions(items, definitions)
    ensures key in KeysToDefine(definitions) <==> IsCuratedBySome(items, key)
  {
    var keys := KeysToDefine(definitions);
    if key in keys {
      var i :| 0 <= i < |keys| && keys[i] == key;
      assert definitions[i] in definitions;
      DefinedIsCurated(items, Order(items), key);
    }
    if IsCuratedBySome(items, key) {
      var l :| 0 <= l < |Order(items)| && Curates(items, Order(items)[l], key);
      var last := SomeLast(items, Order(items), key, l);
      DefinedByLast(items, Order(items), key, last);
      var d := Definition(key, Defined(items, Order(items))[key]);
      var i :| 0 <= i < |definitions| && definitions[i] == d;
      assert keys[i] == key;
    }
  }

  /** What the builder makes is an index the sync can work from, and it defines the keys that some list curates. */
  lemma BuiltIndexIsGood(items: seq<Item>, definitions: seq<Definition>)
    requires AreDefinitions(items, definitions)
    ensures GoodIndex(IndexOf(definitions, Assignments(items)))
    ensures forall k :: k in KeysToDefine(definitions) <==> IsCuratedBySome(items, k)
  {
    var assignments := Assignments(items);
    var index := IndexOf(definitions, assignments);
    forall k ensures k in index.keys <==> IsCuratedBySome(items, k) {
      DefinedIffCurated(items, definitions, k);
    }
    forall i | 0 <= i < |index.keys| ensures index.keys[i].Curated? {
      assert definitions[i] in definitions;
      DefinedIsCurated(items, Order(items), definitions[i].key);
    }
    forall i | 0 <= i < |index.pairs| ensures index.pairs[i].key in index.keys {
      AssignedKeysAreDefined(items, definitions, assignments[i]);
      var d :| d in definitions && d.key == assignments[i].key;
      var j :| 0 <= j < |definitions| && definitions[j] == d;
      assert index.keys[j] == d.key;
    }
    forall i, j | 0 <= i < j < |index.pairs| ensures index.pairs[i].wallet != index.pairs[j].wallet {
      NoWalletTwice(items, i, j);
    }
  }

  // ---- Invalidation ----

  function Fold(w: Wallet): Wallet { Wallet(Trim(w.chain), Lower(Trim(w.address))) }

  predicate Named(w: Wallet) { Trim(w.chain) != "" && Trim(w.address) != "" }

  /** The wallets `invalidateWalletGraphSnapshots` calls on, one per folded name. */
  function ToInvalidate(refs: seq<Wallet>): seq<Wallet> {
    FirstBy(Fold, Filter(Named, refs))
  }

  /** Every wallet named among the refs is itself called on exactly when no two of them differ in
      the case of the address alone: the cache is keyed by the folded address, the snapshot table is not. */
  lemma AllAreInvalidatedIffOneCasing(refs: seq<Wallet>)
    ensures (forall w :: w in refs && Named(w) ==> w in ToInvalidate(refs))
            <==> (forall v, w :: v in refs && w in refs && Named(v) && Named(w) && Fold(v) == Fold(w) ==> v == w)
  {
    FirstByKeepsAllIff(Fold, Filter(Named, refs));
  }

  predicate SameButCase(v: Wallet, w: Wallet) {
    Trim(v.chain) == Trim(w.chain) && EqualFold(Trim(v.address), Trim(w.address))
  }

  /** The ref names a wallet, and no ref before it names the same one up to letter case. */
  predicate IsFirstOfName(refs: seq<Wallet>, i: nat)
    requires i < |refs|
  {
    && Trim(refs[i].chain) != "" && Trim(refs[i].address) != ""
    && forall j :: 0 <= j < i && Trim(refs[j].chain) != "" && Trim(refs[j].address) != "" ==> !SameButCase(refs[j], refs[i])
  }

  /** The calls are made for the first ref of each name, in order. */
  lemma InvalidatedOnce(refs: seq<Wallet>) returns (places: seq<nat>)
    ensures |places| == |ToInvalidate(refs)| && forall j, k :: 0 <= j < k < |places| ==> places[j] < places[k]
    ensures forall k :: 0 <= k < |places| ==> places[k] < |refs| && ToInvalidate(refs)[k] == refs[places[k]]
    ensures forall i :: 0 <= i < |refs| ==> (i in places <==> IsFirstOfName(refs, i))
  {
    places := KeptAre(Named, Fold, refs, |refs|);
    assert refs[..|refs|] == refs;
    forall i | 0 <= i < |refs| ensures IsFirstUsable(Named, Fold, refs, i) <==> IsFirstOfName(refs, i) {
      forall j ensures 0 <= j < i ==> (Fold(refs[j]) == Fold(refs[i]) <==> SameButCase(refs[j], refs[i])) {
        if 0 <= j < i {
          LowerFolds(Trim(refs[j].address), Trim(refs[i].address));
        }
      }
    }
  }

  /** The folded name is always called on. */
  lemma FoldedNameIsInvalidated(refs: seq<Wallet>, w: Wallet)
    requires w in refs && Named(w)
    ensures exists v :: v in ToInvalidate(refs) && Fold(v) == Fold(w)
  {
    var named := Filter(Named, refs);
    var i :| 0 <= i < |named| && named[i] == w;
    var k := FirstByCovers(Fold, named, i);
  }

  /** A call was made for the wallet, or for one that is the same but for the case of its address. */
  ghost predicate CalledFor(calls: seq<Wallet>, w: Wallet) {
    exists v :: v in calls && Fold(v) == Fold(w)
  }

  // ---- Heuristic batches ----

  datatype Claim = Claim(chain: string, address: string, key: Key)
  datatype ClaimName = ClaimName(wallet: Wallet, key: Key)

  predicate IsClaim(c: Claim) { Trim(c.chain) != "" && Trim(c.address) != "" && c.key.Heuristic? }

  function NameOf(c: Claim): ClaimName { ClaimName(Wallet(Trim(c.chain), Lower(Trim(c.address))), c.key) }

  function PairOf(c: Claim): Pair { Pair(Wallet(c.chain, Trim(c.address)), c.key) }

  /** `dedupeWalletEntityAssignments`, as the pairs it writes. */
  function Deduped(claims: seq<Claim>): seq<Pair> {
    var kept := FirstBy(NameOf, Filter(IsClaim, claims));
    seq(|kept|, i requires 0 <= i < |kept| => PairOf(kept[i]))
  }

  /** The claim is usable, and no usable one before it claims the same wallet, up to letter case, for the same key. */
  predicate IsFirstClaim(claims: seq<Claim>, i: nat)
    requires i < |claims|
  {
    && IsClaim(claims[i])
    && forall j :: 0 <= j < i && IsClaim(claims[j]) ==>
         claims[j].key != claims[i].key
         || !SameButCase(Wallet(claims[j].chain, claims[j].address), Wallet(claims[i].chain, claims[i].address))
  }

  /** A batch writes the first claim of each wallet and key, in order. */
  lemma DedupedOnce(claims: seq<Claim>) returns (places: seq<nat>)
    ensures |places| == |Deduped(claims)| && forall j, k :: 0 <= j < k < |places| ==> places[j] < places[k]
    ensures forall k :: 0 <= k < |places| ==>
      && places[k] < |claims|
      && var c := claims[places[k]]; Deduped(claims)[k] == Pair(Wallet(c.chain, Trim(c.address)), c.key)
    ensures forall i :: 0 <= i < |claims| ==> (i in places <==> IsFirstClaim(claims, i))
  {
    places := KeptAre(IsClaim, NameOf, claims, |claims|);
    assert claims[..|claims|] == claims;
    forall i | 0 <= i < |claims| ensures IsFirstUsable(IsClaim, NameOf, claims, i) <==> IsFirstClaim(claims, i) {
      forall j ensures 0 <= j < i ==> (NameOf(claims[j]) == NameOf(claims[i]) <==>
          claims[j].key == claims[i].key
          && SameButCase(Wallet(claims[j].chain, claims[j].address), Wallet(claims[i].chain, claims[i].address)))
      {
        if 0 <= j < i {
          LowerFolds(Trim(claims[j].address), Trim(claims[i].address));
        }
      }
    }
  }

  lemma KeptAreClaims(claims: seq<Claim>)
    ensures forall c :: c in FirstBy(NameOf, Filter(IsClaim, claims)) ==> IsClaim(c)
    ensures AllHeuristic(Deduped(claims))
  {
    var kept := FirstBy(NameOf, Filter(IsClaim, claims));
    forall c | c in kept ensures IsClaim(c) {
      FirstByIs(NameOf, Filter(IsClaim, claims), c);
    }
    forall i | 0 <= i < |kept| ensures PairOf(kept[i]).key.Heuristic? {
      assert IsClaim(kept[i]);
    }
  }

  function WalletsOfPairs(pairs: seq<Pair>): (refs: seq<Wallet>)
    ensures |refs| == |pairs| && forall i :: 0 <= i < |pairs| ==> refs[i] == pairs[i].wallet
  {
    seq(|pairs|, i requires 0 <= i < |pairs| => pairs[i].wallet)
  }

  lemma PairsAreNamed(claims: seq<Claim>, i: nat)
    requires i < |Deduped(claims)|
    ensures Named(Deduped(claims)[i].wallet)
  {
    KeptAreClaims(claims);
    var kept := FirstBy(NameOf, Filter(IsClaim, claims));
    assert IsClaim(kept[i]);
    TrimIsTrimmed(kept[i].address);
    TrimOfTrimmed(Trim(kept[i].address));
  }

  /** Every wallet whose key a batch changes is called on, under its folded name. */
  lemma ChangedByBatchIsCalledFor(t: Tables, claims: seq<Claim>, w: Wallet)
    requires KeyAt(ClaimAll(DefinePairs(t, Deduped(claims)), Deduped(claims)), w) != KeyAt(t, w)
    ensures CalledFor(ToInvalidate(WalletsOfPairs(Deduped(claims))), w)
  {
    var pairs := Deduped(claims);
    KeptAreClaims(claims);
    DefinePairsIs(t, pairs);
    ClaimAllIs(DefinePairs(t, pairs), pairs, w);
    assert KeyAt(DefinePairs(t, pairs), w) == KeyAt(t, w);
    var i := PairedAt(pairs, w);
    PairsAreNamed(claims, i);
    assert WalletsOfPairs(pairs)[i] == w;
    FoldedNameIsInvalidated(WalletsOfPairs(pairs), w);
  }

  function DefinePairs(t: Tables, pairs: seq<Pair>): Tables {
    if pairs == [] then t else Define(DefinePairs(t, pairs[..|pairs| - 1]), pairs[|pairs| - 1].key)
  }

  function ClaimAll(t: Tables, pairs: seq<Pair>): Tables {
    if pairs == [] then t else AssignHeuristic(ClaimAll(t, pairs[..|pairs| - 1]), pairs[|pairs| - 1])
  }

  /** A batch gives each wallet it may claim the key of its last pair, and touches no other. */
  lemma {:induction false} ClaimAllIs(t: Tables, pairs: seq<Pair>, w: Wallet)
    requires AllHeuristic(pairs)
    ensures ClaimAll(t, pairs).entities == t.entities
    ensures KeyAt(ClaimAll(t, pairs), w) ==
      if PairedWith(pairs, w).Some? && (KeyAt(t, w).None? || KeyAt(t, w).value.Heuristic?) then PairedWith(pairs, w) else KeyAt(t, w)
    ensures Claimable(ClaimAll(t, pairs), w) <==> Claimable(t, w)
  {
    if pairs != [] {
      ClaimAllIs(t, pairs[..|pairs| - 1], w);
      ClaimAllIs(t, pairs[..|pairs| - 1], pairs[|pairs| - 1].wallet);
    }
  }

  lemma {:induction false} DefinePairsIs(t: Tables, pairs: seq<Pair>)
    ensures DefinePairs(t, pairs).wallets == t.wallets
    ensures forall k :: k in DefinePairs(t, pairs).entities <==> k in t.entities || exists i :: 0 <= i < |pairs| && pairs[i].key == k
  {
    if pairs != [] {
      var n := |pairs| - 1;
      DefinePairsIs(t, pairs[..n]);
      assert forall i :: 0 <= i < n ==> pairs[..n][i] == pairs[i];
    }
  }

  lemma CuratedStays(t: Tables, pairs: seq<Pair>, w: Wallet)
    requires w in t.wallets && IsCurated(t.wallets[w]) && AllHeuristic(pairs)
    ensures var after := ClaimAll(DefinePairs(t, pairs), pairs); w in after.wallets && after.wallets[w] == t.wallets[w]
  {
    DefinePairsIs(t, pairs);
    ClaimAllIs(DefinePairs(t, pairs), pairs, w);
    assert KeyAt(ClaimAll(DefinePairs(t, pairs), pairs), w) == t.wallets[w];
  }

  lemma BatchKeepsNoDanglingKey(t: Tables, pairs: seq<Pair>)
    requires NoDanglingKey(t) && AllHeuristic(pairs)
    ensures NoDanglingKey(ClaimAll(DefinePairs(t, pairs), pairs))
  {
    var defined := DefinePairs(t, pairs);
    var after := ClaimAll(defined, pairs);
    DefinePairsIs(t, pairs);
    forall w | w in after.wallets && after.wallets[w].Some? ensures after.wallets[w].value in after.entities {
      ClaimAllIs(defined, pairs, w);
      assert KeyAt(after, w) == after.wallets[w];
      if Claimable(defined, w) && PairedWith(pairs, w).Some? {
        var i := PairedAt(pairs, w);
      }
    }
  }

  lemma SyncKeepsNoDanglingKey(t: Tables, index: Index)
    requires NoDanglingKey(t) && GoodIndex(index)
    ensures NoDanglingKey(SyncAll(t, index))
  {
    var after := SyncAll(t, index);
    forall w | w in after.wallets && after.wallets[w].Some? ensures after.wallets[w].value in after.entities {
      SyncAllIs(t, index, w, after.wallets[w].value);
      assert KeyAt(after, w) == after.wallets[w];
      if PairedWith(index.pairs, w).Some? {
        var i := PairedAt(index.pairs, w);
      }
    }
  }

  // ---- The stores ----

  class Store {
    var entities: set<Key>
    var wallets: map<Wallet, Option<Key>>
    /** The wallets `InvalidateWalletGraphSnapshot` was called on, in order. */
    var invalidated: seq<Wallet>

    function World(): Tables
      reads this
    {
      Tables(entities, wallets)
    }

    constructor ()
      ensures World() == Tables({}, map[]) && invalidated == []
    {
      entities, wallets, invalidated := {}, map[], [];
    }

    /** `listCurrentCuratedWalletRefs`. */
    method CurrentCurated() returns (refs: seq<Wallet>)
      ensures forall w :: w in refs <==> w in wallets && IsCurated(wallets[w])
    {
      refs := [];
      var rest := wallets.Keys;
      while rest != {}
        invariant rest <= wallets.Keys
        invariant forall w :: w in refs <==> w in wallets && w !in rest && IsCurated(wallets[w])
      {
        var w :| w in rest;
        rest := rest - {w};
        if IsCurated(wallets[w]) {
          refs := refs + [w];
        }
      }
    }

    /** `invalidateWalletGraphSnapshots`. */
    method Invalidate(refs: seq<Wallet>)
      modifies `invalidated
      ensures invalidated == old(invalidated) + ToInvalidate(refs)
    {
      var called := KeepFirst(Named, Fold, refs);
      invalidated := invalidated + called;
    }

    /** The loop over the definitions. */
    method DefineEach(keys: seq<Key>)
      modifies `entities
      ensures World() == DefineAll(old(World()), keys)
    {
      for i := 0 to |keys|
        invariant World() == DefineAll(old(World()), keys[..i])
      {
        assert keys[..i + 1][..i] == keys[..i];
        entities := entities + {keys[i]};
      }
      assert keys[..|keys|] == keys;
    }

    /** The loop over the assignments, which also gathers the wallets to invalidate. */
    method AssignEach(index: Index, previous: seq<Wallet>) returns (refs: seq<Wallet>)
      modifies `wallets
      ensures World() == AssignAll(old(World()), index.pairs)
      ensures refs == InvalidatedRefs(previous, index)
    {
      var pairs := index.pairs;
      refs := previous;
      for i := 0 to |pairs|
        invariant World() == AssignAll(old(World()), pairs[..i])
        invariant refs == previous + seq(i, j requires 0 <= j < i => pairs[j].wallet)
      {
        assert pairs[..i + 1][..i] == pairs[..i];
        wallets := wallets[pairs[i].wallet := Some(pairs[i].key)];
        refs := refs + [pairs[i].wallet];
      }
      assert pairs[..|pairs|] == pairs;
    }

    /** `SyncAdminCuratedEntityIndex`. */
    method SyncAdminCuratedEntityIndex(items: seq<Item>) returns (ghost index: Index, ghost previous: seq<Wallet>)
      modifies this
      ensures GoodIndex(index)
      ensures index.pairs == PairsToAssign(Assignments(items))
      ensures forall k :: k in index.keys <==> IsCuratedBySome(items, k)
      ensures World() == SyncAll(old(World()), index)
      ensures old(NoDanglingKey(World())) ==> NoDanglingKey(World())
      ensures forall w :: w in previous <==> w in old(wallets) && IsCurated(old(wallets)[w])
      ensures invalidated == old(invalidated) + ToInvalidate(InvalidatedRefs(previous, index))
      ensures forall w :: Named(w) && KeyAt(World(), w) != KeyAt(old(World()), w) ==> CalledFor(invalidated[|old(invalidated)|..], w)
    {
      var curated := CurrentCurated();
      previous := curated;
      var definitions, assignments := Build(items);
      BuiltIndexIsGood(items, definitions);
      var built := IndexOf(definitions, assignments);
      index := built;
      if old(NoDanglingKey(World())) {
        SyncKeepsNoDanglingKey(World(), index);
      }
      wallets := Clear(World()).wallets;
      entities := Delete(World()).entities;
      assert World() == Delete(Clear(old(World())));
      DefineEach(built.keys);
      var refs := AssignEach(built, curated);
      Invalidate(refs);
      assert invalidated[|old(invalidated)|..] == ToInvalidate(refs);
      forall w | Named(w) && KeyAt(World(), w) != KeyAt(old(World()), w) ensures CalledFor(ToInvalidate(refs), w) {
        ChangedKeysAreInvalidated(old(World()), index, previous, w);
        FoldedNameIsInvalidated(refs, w);
      }
    }

    /** `dedupeWalletEntityAssignments`. */
    static method Dedupe(claims: seq<Claim>) returns (next: seq<Pair>)
      ensures next == Deduped(claims)
      ensures AllHeuristic(next)
    {
      var kept := KeepFirst(IsClaim, NameOf, claims);
      KeptAreClaims(claims);
      next := [];
      for i := 0 to |kept|
        invariant next == seq(i, j requires 0 <= j < i => PairOf(kept[j]))
      {
        next := next + [PairOf(kept[i])];
      }
    }

    /** The loop over the entities of a batch. */
    method DefineKeysOf(pairs: seq<Pair>)
      modifies `entities
      ensures World() == DefinePairs(old(World()), pairs)
    {
      for i := 0 to |pairs|
        invariant World() == DefinePairs(old(World()), pairs[..i])
      {
        assert pairs[..i + 1][..i] == pairs[..i];
        entities := entities + {pairs[i].key};
      }
      assert pairs[..|pairs|] == pairs;
    }

    /** The loop over the wallets of a batch, which are those to invalidate. */
    method ClaimEach(pairs: seq<Pair>) returns (refs: seq<Wallet>)
      modifies `wallets
      ensures World() == ClaimAll(old(World()), pairs) && refs == WalletsOfPairs(pairs)
    {
      refs := [];
      for i := 0 to |pairs|
        invariant World() == ClaimAll(old(World()), pairs[..i]) && refs == WalletsOfPairs(pairs[..i])
      {
        assert pairs[..i + 1][..i] == pairs[..i];
        wallets := AssignHeuristic(World(), pairs[i]).wallets;
        refs := refs + [pairs[i].wallet];
      }
      assert pairs[..|pairs|] == pairs;
    }

    /** `UpsertHeuristicEntityAssignments`. */
    method UpsertHeuristicEntityAssignments(claims: seq<Claim>)
      modifies this
      ensures World() == ClaimAll(DefinePairs(old(World()), Deduped(claims)), Deduped(claims))
      ensures old(NoDanglingKey(World())) ==> NoDanglingKey(World())
      ensures forall w :: w in old(wallets) && IsCurated(old(wallets)[w]) ==> w in wallets && wallets[w] == old(wallets)[w]
      ensures invalidated == old(invalidated) + ToInvalidate(WalletsOfPairs(Deduped(claims)))
      ensures forall w :: KeyAt(World(), w) != KeyAt(old(World()), w) ==> CalledFor(invalidated[|old(invalidated)|..], w)
    {
      var pairs := Dedupe(claims);
      DefineKeysOf(pairs);
      var refs := ClaimEach(pairs);
      if old(NoDanglingKey(World())) {
        BatchKeepsNoDanglingKey(old(World()), pairs);
      }
      forall w | w in old(wallets) && IsCurated(old(wallets)[w]) ensures w in wallets && wallets[w] == old(wallets)[w] {
        CuratedStays(old(World()), pairs, w);
      }
      Invalidate(refs);
      assert invalidated[|old(invalidated)|..] == ToInvalidate(refs);
      forall w | KeyAt(World(), w) != KeyAt(old(World()), w) ensures CalledFor(ToInvalidate(refs), w) {
        ChangedByBatchIsCalledFor(old(World()), claims, w);
      }
    }
  }
}
