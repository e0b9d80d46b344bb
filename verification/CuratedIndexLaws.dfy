/** The curated index is a first-match index (packages/db/curated_entity_index.go). */
module CuratedIndexLaws {
  import opened Text
  import opened Sorting
  import opened CuratedIndex

  // ---- What the lists are ----

  /** Where a list first comes up, or the number of items. */
  function FirstAt(items: seq<Item>, list: string): (k: nat)
    ensures k <= |items|
    ensures k < |items| ==> ListKey(items[k]) == list
    ensures forall m :: 0 <= m < k ==> ListKey(items[m]) != list
  {
    if items == [] then 0
    else
      var n := |items| - 1;
      var k := FirstAt(items[..n], list);
      if k == n && ListKey(items[n]) != list then n + 1 else k
  }

  /** The lists come once each, in the order of their first items. */
  lemma {:induction false} OrderIsByFirstItem(items: seq<Item>)
    ensures forall list :: list in Order(items) <==> FirstAt(items, list) < |items|
    ensures forall i, j :: 0 <= i < j < |Order(items)| ==> FirstAt(items, Order(items)[i]) < FirstAt(items, Order(items)[j])
  {
    if items != [] {
      var n := |items| - 1;
      OrderIsByFirstItem(items[..n]);
      var before := Order(items[..n]);
      forall i, j | 0 <= i < j < |Order(items)| ensures FirstAt(items, Order(items)[i]) < FirstAt(items, Order(items)[j]) {
        assert before[i] in before;
        if j < |before| {
          assert before[j] in before;
        }
      }
    }
  }

  predicate IsEntityOf(item: Item, list: string) {
    ListKey(item) == list && item.itemType == EntityItem
  }

  ghost predicate IsFirstEntity(items: seq<Item>, list: string, k: nat) {
    && k < |items| && IsEntityOf(items[k], list)
    && forall m :: 0 <= m < k ==> !IsEntityOf(items[m], list)
  }

  /** A list's entity is its first entity item; later ones are ignored. */
  lemma {:induction false} EntityIsFirst(items: seq<Item>, list: string)
    ensures match EntityOf(items, list)
            case None => forall m :: 0 <= m < |items| ==> !IsEntityOf(items[m], list)
            case Some(e) => exists k: nat :: IsFirstEntity(items, list, k) && items[k] == e
  {
    if items != [] {
      var n := |items| - 1;
      var front := items[..n];
      EntityIsFirst(front, list);
      assert forall m :: 0 <= m < n ==> front[m] == items[m];
      if EntityOf(front, list).Some? {
        var k: nat :| IsFirstEntity(front, list, k) && front[k] == EntityOf(front, list).value;
        assert IsFirstEntity(items, list, k);
      } else if IsEntityOf(items[n], list) {
        assert IsFirstEntity(items, list, n);
      }
    }
  }

  /** An item key written as chain and address names that wallet. */
  lemma WalletKeyRoundTrip(w: Wallet)
    requires w.chain == "evm" || w.chain == "solana"
    requires w.address != "" && Trimmed(w.address)
    ensures ParseWallet(w.chain + [':'] + w.address) == Some(w)
  {
    var text := w.chain + [':'] + w.address;
    assert Trimmed(text);
    TrimOfTrimmed(text);
    CutOfJoin(w.chain, ':', w.address);
    assert Lower(w.chain) == w.chain;
    TrimOfTrimmed(w.chain);
    TrimOfTrimmed(w.address);
  }

  /** An item key written as `entity:` and a name, in any case, curates that name in lower case. */
  lemma {:induction false} EntityKeyRoundTrip(name: string)
    requires name != "" && Trimmed(name)
    ensures NormalizeKey("entity:" + name) == Some(Curated(Lower(name)))
    ensures !("entity:" <= Lower(name)) ==> NormalizeKey(name) == Some(Curated(Lower(name)))
  {
    PrefixedKey(name);
    LowerKeepsTrimmed(name);
    TrimmedKey("entity:" + name, Lower(name));
    if !("entity:" <= Lower(name)) {
      TrimmedKey(name, Lower(name));
    }
  }

  lemma {:induction false} PrefixedKey(name: string)
    requires name != "" && Trimmed(name)
    ensures Lower("entity:" + name) == "entity:" + Lower(name) && Trimmed("entity:" + name)
  {
    LowerOfJoin("entity:", name);
    assert Lower("entity:") == "entity:";
  }

  lemma {:induction false} TrimmedKey(itemKey: string, name: string)
    requires Trimmed(itemKey) && Trimmed(name) && name != ""
    requires Lower(itemKey) == "entity:" + name || (Lower(itemKey) == name && !("entity:" <= name))
    ensures NormalizeKey(itemKey) == Some(Curated(name))
  {
    LowerKeepsTrimmed(itemKey);
    TrimOfTrimmed(Lower(itemKey));
    TrimOfTrimmed(name);
    assert TrimPrefix(Lower(itemKey), "entity:") == name;
  }

  // ---- First match ----

  /** The list curates an entity and has an item that names the wallet. */
  ghost predicate ListPairs(items: seq<Item>, list: string, w: Wallet) {
    && KeyOf(items, list).Some?
    && exists x :: x in items && IsWalletOf(x, list) && ParseWallet(x.itemKey) == Some(w)
  }

  /** Among `lists`, the assignment's is the first to pair its wallet, and gives it its key. */
  ghost predicate IsFirstMatch(items: seq<Item>, lists: seq<string>, a: Assignment) {
    exists l :: 0 <= l < |lists| && lists[l] == a.list && ListPairs(items, lists[l], a.wallet)
                && KeyOf(items, a.list) == Some(a.key)
                && forall m :: 0 <= m < l ==> !ListPairs(items, lists[m], a.wallet)
  }

  lemma {:induction false} PairsAre(wallets: seq<Item>, key: Key, list: string, a: Assignment)
    ensures a in Pairs(wallets, key, list) <==>
            a.key == key && a.list == list && exists x :: x in wallets && ParseWallet(x.itemKey) == Some(a.wallet)
  {
    if wallets != [] {
      var n := |wallets| - 1;
      PairsAre(wallets[..n], key, list, a);
      assert forall x :: x in wallets <==> x in wallets[..n] || x == wallets[n];
    }
  }

  lemma PairsOfListAre(items: seq<Item>, list: string, a: Assignment)
    ensures a in PairsOfList(items, list) <==> a.list == list && ListPairs(items, list, a.wallet) && KeyOf(items, list) == Some(a.key)
  {
    if KeyOf(items, list).Some? {
      PairsAre(WalletsOf(items, list), KeyOf(items, list).value, list, a);
    }
  }

  lemma AssignsJoin(pairs: seq<Assignment>, more: seq<Assignment>, w: Wallet)
    ensures Assigns(pairs + more, w) <==> Assigns(pairs, w) || Assigns(more, w)
  {
    var all := pairs + more;
    if i :| 0 <= i < |pairs| && pairs[i].wallet == w {
      assert all[i].wallet == w;
    }
    if i :| 0 <= i < |more| && more[i].wallet == w {
      assert all[|pairs| + i].wallet == w;
    }
    if i :| 0 <= i < |all| && all[i].wallet == w {
      assert if i < |pairs| then pairs[i].wallet == w else more[i - |pairs|].wallet == w;
    }
  }

  lemma AssignsIff(pairs: seq<Assignment>, w: Wallet)
    ensures Assigns(pairs, w) <==> exists a :: a in pairs && a.wallet == w
  {
    if i :| 0 <= i < |pairs| && pairs[i].wallet == w {
      assert pairs[i] in pairs;
    }
  }

  /** The pair at `i` has its wallet first. */
  ghost predicate IsFirstAt(pairs: seq<Assignment>, i: nat) {
    i < |pairs| && forall j :: 0 <= j < i ==> pairs[j].wallet != pairs[i].wallet
  }

  lemma FirstPerWalletIs(pairs: seq<Assignment>, a: Assignment)
    ensures a in FirstPerWallet(pairs) <==> exists i: nat :: IsFirstAt(pairs, i) && pairs[i] == a
  {
    FirstByIs(WalletOf, pairs, a);
    forall i: nat | i < |pairs| ensures HasKey(WalletOf, pairs[..i], WalletOf(pairs[i])) <==> !IsFirstAt(pairs, i) {
      if j: nat :| j < i && pairs[j].wallet == pairs[i].wallet {
        assert WalletOf(pairs[..i][j]) == WalletOf(pairs[i]);
      }
    }
  }

  lemma FirstAtOfJoin(pairs: seq<Assignment>, more: seq<Assignment>, i: nat)
    requires i < |pairs|
    ensures IsFirstAt(pairs + more, i) <==> IsFirstAt(pairs, i)
  {
    assert forall j :: 0 <= j <= i ==> (pairs + more)[j] == pairs[j];
  }

  /** When pairs for one wallet are equal within `more`, only the wallets new to `more` join. */
  lemma FirstOfMore(pairs: seq<Assignment>, more: seq<Assignment>, a: Assignment)
    requires forall x, y :: x in more && y in more && x.wallet == y.wallet ==> x == y
    ensures a in FirstPerWallet(pairs + more) <==> a in FirstPerWallet(pairs) || (a in more && !Assigns(pairs, a.wallet))
  {
    var all := pairs + more;
    FirstPerWalletIs(all, a);
    FirstPerWalletIs(pairs, a);
    if i: nat :| IsFirstAt(all, i) && all[i] == a {
      if i < |pairs| {
        FirstAtOfJoin(pairs, more, i);
        assert IsFirstAt(pairs, i) && pairs[i] == a;
      } else {
        assert more[i - |pairs|] == a;
        assert forall j :: 0 <= j < |pairs| ==> pairs[j] == all[j];
      }
    }
    if i: nat :| IsFirstAt(pairs, i) && pairs[i] == a {
      FirstAtOfJoin(pairs, more, i);
      assert IsFirstAt(all, i) && all[i] == a;
    }
    if a in more && !Assigns(pairs, a.wallet) {
      FirstByMore(pairs, more, a);
    }
  }

  lemma FirstByMore(pairs: seq<Assignment>, more: seq<Assignment>, a: Assignment)
    requires forall x, y :: x in more && y in more && x.wallet == y.wallet ==> x == y
    requires a in more && !Assigns(pairs, a.wallet)
    ensures a in FirstPerWallet(pairs + more)
  {
    var all := pairs + more;
    var m :| 0 <= m < |more| && more[m] == a;
    var k := FirstByCovers(WalletOf, all, |pairs| + m);
    assert all[|pairs| + m] == a;
    assert all[k] == more[k - |pairs|];
  }

  ghost function Pairing(items: seq<Item>, w: Wallet): string -> bool {
    list => ListPairs(items, list, w)
  }

  lemma AssignsOfList(items: seq<Item>, list: string, w: Wallet)
    ensures Assigns(PairsOfList(items, list), w) <==> ListPairs(items, list, w)
  {
    AssignsIff(PairsOfList(items, list), w);
    if a :| a in PairsOfList(items, list) && a.wallet == w {
      PairsOfListAre(items, list, a);
    }
    if ListPairs(items, list, w) {
      PairsOfListAre(items, list, Assignment(w, KeyOf(items, list).value, list));
    }
  }

  lemma {:induction false} AssignsIffListPairs(items: seq<Item>, lists: seq<string>, w: Wallet)
    ensures Assigns(PairsOfLists(items, lists), w) <==> Any(Pairing(items, w), lists)
  {
    if lists != [] {
      var n := |lists| - 1;
      AssignsIffListPairs(items, lists[..n], w);
      AssignsJoin(PairsOfLists(items, lists[..n]), PairsOfList(items, lists[n]), w);
      AssignsOfList(items, lists[n], w);
      AnyLast(Pairing(items, w), lists);
    }
  }

  lemma {:induction false} FirstMatchOfLists(items: seq<Item>, lists: seq<string>, a: Assignment)
    ensures a in FirstPerWallet(PairsOfLists(items, lists)) <==> IsFirstMatch(items, lists, a)
  {
    if lists != [] {
      var n := |lists| - 1;
      var before, last := PairsOfLists(items, lists[..n]), PairsOfList(items, lists[n]);
      FirstMatchOfLists(items, lists[..n], a);
      forall x, y | x in last && y in last && x.wallet == y.wallet ensures x == y {
        PairsOfListAre(items, lists[n], x);
        PairsOfListAre(items, lists[n], y);
      }
      FirstOfMore(before, last, a);
      PairsOfListAre(items, lists[n], a);
      AssignsIffListPairs(items, lists[..n], a.wallet);
      FirstMatchNext(items, lists, a);
    }
  }

  lemma FirstMatchNext(items: seq<Item>, lists: seq<string>, a: Assignment)
    requires lists != []
    ensures var n := |lists| - 1;
            IsFirstMatch(items, lists, a) <==>
              || IsFirstMatch(items, lists[..n], a)
              || (lists[n] == a.list && ListPairs(items, a.list, a.wallet) && KeyOf(items, a.list) == Some(a.key)
                  && !Any(Pairing(items, a.wallet), lists[..n]))
  {
    var n := |lists| - 1;
    assert forall m :: 0 <= m < n ==> lists[..n][m] == lists[m];
  }

  /** A wallet gets an assignment exactly from the first list that pairs it with a usable entity. */
  lemma AssignedIffFirstMatch(items: seq<Item>, a: Assignment)
    ensures a in Assignments(items) <==> IsFirstMatch(items, Order(items), a)
  {
    FirstMatchOfLists(items, Order(items), a);
  }

  /** No wallet is assigned twice. */
  lemma NoWalletTwice(items: seq<Item>, i: nat, j: nat)
    requires i < j < |Assignments(items)|
    ensures Assignments(items)[i].wallet != Assignments(items)[j].wallet
  {
    FirstByIsDistinct(WalletOf, PairsOfLists(items, Order(items)));
    assert WalletOf(Assignments(items)[i]) != WalletOf(Assignments(items)[j]);
  }

  // ---- Definitions ----

  predicate Curates(items: seq<Item>, list: string, key: Key) {
    KeyOf(items, list) == Some(key)
  }

  /** List `l` is the last of the lists that curate the key. */
  ghost predicate IsLastWithKey(items: seq<Item>, lists: seq<string>, key: Key, l: int) {
    && 0 <= l < |lists| && Curates(items, lists[l], key)
    && forall m :: l < m < |lists| ==> !Curates(items, lists[m], key)
  }

  /** A key is defined by the last list that curates it. */
  lemma {:induction false} DefinedByLast(items: seq<Item>, lists: seq<string>, key: Key, l: int)
    requires IsLastWithKey(items, lists, key, l)
    ensures key in Defined(items, lists) && EntityOf(items, lists[l]) == Some(Defined(items, lists)[key])
  {
    var n := |lists| - 1;
    if l < n {
      LastOfFront(items, lists, key, l);
      DefinedByLast(items, lists[..n], key, l);
    }
  }

  lemma LastOfFront(items: seq<Item>, lists: seq<string>, key: Key, l: int)
    requires l < |lists| - 1 && IsLastWithKey(items, lists, key, l)
    ensures IsLastWithKey(items, lists[..|lists| - 1], key, l) && lists[..|lists| - 1][l] == lists[l]
    ensures !Curates(items, lists[|lists| - 1], key)
  {
    assert forall m :: 0 <= m < |lists| - 1 ==> lists[..|lists| - 1][m] == lists[m];
  }

  /** No other key is defined. */
  lemma {:induction false} DefinedIsCurated(items: seq<Item>, lists: seq<string>, key: Key)
    requires key in Defined(items, lists)
    ensures exists l :: 0 <= l < |lists| && Curates(items, lists[l], key)
  {
    var n := |lists| - 1;
    if !Curates(items, lists[n], key) {
      DefinedIsCurated(items, lists[..n], key);
      var l :| 0 <= l < n && Curates(items, lists[..n][l], key);
      assert Curates(items, lists[l], key);
    }
  }

  lemma {:induction false} SomeLast(items: seq<Item>, lists: seq<string>, key: Key, l: int) returns (last: int)
    requires 0 <= l < |lists| && Curates(items, lists[l], key)
    ensures IsLastWithKey(items, lists, key, last)
  {
    last := |lists| - 1;
    while !Curates(items, lists[last], key)
      invariant l <= last < |lists|
      invariant forall m :: last < m < |lists| ==> !Curates(items, lists[m], key)
      decreases last
    {
      last := last - 1;
    }
  }

  /** Every assigned key is defined. */
  lemma AssignedKeysAreDefined(items: seq<Item>, definitions: seq<Definition>, a: Assignment)
    requires AreDefinitions(items, definitions) && a in Assignments(items)
    ensures exists d :: d in definitions && d.key == a.key
  {
    AssignedIffFirstMatch(items, a);
    var l :| 0 <= l < |Order(items)| && Curates(items, Order(items)[l], a.key);
    var last := SomeLast(items, Order(items), a.key, l);
    DefinedByLast(items, Order(items), a.key, last);
    assert Definition(a.key, Defined(items, Order(items))[a.key]) in definitions;
  }
}
