/** Building the curated entity index from the curator's lists
    (packages/db/curated_entity_index.go). */
module CuratedIndex {
  import opened Text
  import opened Sorting

  /** An entity key by the namespace before its colon, which is all the SQL matches on. */
  datatype Key = Curated(name: string) | Heuristic(name: string) | Other(name: string)

  datatype Wallet = Wallet(chain: string, address: string)

  datatype ItemType = EntityItem | WalletItem | OtherItem
  datatype Item = Item(listId: string, itemType: ItemType, itemKey: string, notes: string)

  /** An entity to define; its type and label are derived from the item. */
  datatype Definition = Definition(key: Key, item: Item)
  datatype Assignment = Assignment(wallet: Wallet, key: Key, list: string)

  /** `strings.TrimPrefix`. */
  function TrimPrefix(s: string, prefix: string): string {
    if prefix <= s then s[|prefix|..] else s
  }

  /** `normalizeCuratedEntityKey`. */
  function NormalizeKey(itemKey: string): Option<Key> {
    var name := Trim(TrimPrefix(Trim(Lower(itemKey)), "entity:"));
    if name == "" then None else Some(Curated(name))
  }

  /** `parseCuratedWalletItemKey`. */
  function ParseWallet(itemKey: string): Option<Wallet> {
    match Cut(Trim(itemKey), ':')
    case None => None
    case Some((before, after)) =>
      var wallet := Wallet(Trim(Lower(before)), Trim(after));
      if wallet.address != "" && (wallet.chain == "evm" || wallet.chain == "solana") then Some(wallet) else None
  }

  // ---- The lists ----

  function ListKey(item: Item): string { Trim(item.listId) }

  /** The lists in the order their first items come. */
  function Order(items: seq<Item>): seq<string> {
    if items == [] then []
    else
      var n := |items| - 1;
      var before := Order(items[..n]);
      if ListKey(items[n]) in before then before else before + [ListKey(items[n])]
  }

  /** A list's first entity item. */
  function EntityOf(items: seq<Item>, list: string): Option<Item> {
    if items == [] then None
    else
      var n := |items| - 1;
      var before := EntityOf(items[..n], list);
      if before.None? && ListKey(items[n]) == list && items[n].itemType == EntityItem then Some(items[n]) else before
  }

  predicate IsWalletOf(item: Item, list: string) {
    ListKey(item) == list && item.itemType == WalletItem
  }

  function WalletsOf(items: seq<Item>, list: string): (r: seq<Item>)
    ensures forall x :: x in r <==> x in items && IsWalletOf(x, list)
  {
    if items == [] then []
    else
      var n := |items| - 1;
      WalletsOf(items[..n], list) + if IsWalletOf(items[n], list) then [items[n]] else []
  }

  /** The entity a list curates: it needs an entity item with a usable key and some wallet item. */
  function KeyOf(items: seq<Item>, list: string): Option<Key> {
    if EntityOf(items, list).None? || WalletsOf(items, list) == [] then None
    else NormalizeKey(EntityOf(items, list).value.itemKey)
  }

  // ---- What the index holds ----

  /** The pairs a list's wallet items ask for. */
  function Pairs(wallets: seq<Item>, key: Key, list: string): seq<Assignment> {
    if wallets == [] then []
    else
      var n := |wallets| - 1;
      var parsed := ParseWallet(wallets[n].itemKey);
      Pairs(wallets[..n], key, list) + if parsed.Some? then [Assignment(parsed.value, key, list)] else []
  }

  function PairsOfList(items: seq<Item>, list: string): seq<Assignment> {
    if KeyOf(items, list).None? then [] else Pairs(WalletsOf(items, list), KeyOf(items, list).value, list)
  }

  function PairsOfLists(items: seq<Item>, lists: seq<string>): seq<Assignment> {
    if lists == [] then []
    else PairsOfLists(items, lists[..|lists| - 1]) + PairsOfList(items, lists[|lists| - 1])
  }

  predicate Assigns(assignments: seq<Assignment>, wallet: Wallet) {
    exists i :: 0 <= i < |assignments| && assignments[i].wallet == wallet
  }

  function WalletOf(a: Assignment): Wallet { a.wallet }

  /** The pairs whose wallet no earlier pair has. */
  function FirstPerWallet(pairs: seq<Assignment>): seq<Assignment> {
    FirstBy(WalletOf, pairs)
  }

  function Assignments(items: seq<Item>): seq<Assignment> {
    FirstPerWallet(PairsOfLists(items, Order(items)))
  }

  /** The definition of each key: the last list's that has it. */
  function Defined(items: seq<Item>, lists: seq<string>): map<Key, Item> {
    if lists == [] then map[]
    else
      var n := |lists| - 1;
      var before := Defined(items, lists[..n]);
      if KeyOf(items, lists[n]).None? then before else before[KeyOf(items, lists[n]).value := EntityOf(items, lists[n]).value]
  }

  predicate KeyLess(a: Definition, b: Definition) {
    StringLess(a.key.name, b.key.name)
  }

  ghost predicate AreDefinitions(items: seq<Item>, definitions: seq<Definition>) {
    && Sorted(KeyLess, definitions)
    && forall d :: d in definitions <==> d.key in Defined(items, Order(items)) && Defined(items, Order(items))[d.key] == d.item
  }

  // ---- The builder ----

  datatype Group = Group(entity: Option<Item>, wallets: seq<Item>) {
    /** The switch over the item's type. */
    function With(item: Item): Group {
      match item.itemType
      case EntityItem => if entity.None? then this.(entity := Some(item)) else this
      case WalletItem => this.(wallets := wallets + [item])
      case OtherItem => this
    }
  }

  function GroupOf(items: seq<Item>, list: string): Group {
    Group(EntityOf(items, list), WalletsOf(items, list))
  }

  ghost predicate Grouped(items: seq<Item>, order: seq<string>, grouped: map<string, Group>) {
    && order == Order(items)
    && (forall list :: list in grouped <==> list in order)
    && forall list :: list in grouped ==> grouped[list] == GroupOf(items, list)
  }

  lemma {:induction false} UnlistedIsEmpty(items: seq<Item>, list: string)
    requires list !in Order(items)
    ensures GroupOf(items, list) == Group(None, [])
  {
    if items != [] {
      UnlistedIsEmpty(items[..|items| - 1], list);
    }
  }

  lemma NextItemJoinsItsList(items: seq<Item>, item: Item, list: string)
    ensures GroupOf(items + [item], list) == if ListKey(item) == list then GroupOf(items, list).With(item) else GroupOf(items, list)
  {
    assert (items + [item])[..|items|] == items;
  }

  lemma GroupNext(items: seq<Item>, item: Item, order: seq<string>, grouped: map<string, Group>, key: string)
    requires Grouped(items, order, grouped) && key == ListKey(item)
    ensures var current := if key in grouped then grouped[key] else Group(None, []);
            Grouped(items + [item], if key in grouped then order else order + [key], grouped[key := current.With(item)])
  {
    assert (items + [item])[..|items|] == items;
    if key !in grouped {
      UnlistedIsEmpty(items, key);
    }
    forall list | list in grouped[key := Group(None, [])]
      ensures GroupOf(items + [item], list) == if key == list then GroupOf(items, list).With(item) else GroupOf(items, list)
    {
      NextItemJoinsItsList(items, item, list);
    }
  }

  /** The grouping loop of `buildCuratedEntityIndex`. */
  method GroupItems(items: seq<Item>) returns (order: seq<string>, grouped: map<string, Group>)
    ensures Grouped(items, order, grouped)
  {
    order, grouped := [], map[];
    for n := 0 to |items|
      invariant Grouped(items[..n], order, grouped)
    {
      assert items[..n + 1] == items[..n] + [items[n]];
      var key := ListKey(items[n]);
      GroupNext(items[..n], items[n], order, grouped, key);
      var current := Group(None, []);
      if key in grouped {
        current := grouped[key];
      } else {
        order := order + [key];
      }
      grouped := grouped[key := current.With(items[n])];
    }
    assert items[..|items|] == items;
  }

  ghost predicate Seen(seen: set<Wallet>, pairs: seq<Assignment>) {
    forall w :: w in seen <==> Assigns(pairs, w)
  }

  lemma PairNext(seen: set<Wallet>, pairs: seq<Assignment>, a: Assignment)
    requires Seen(seen, pairs)
    ensures Seen(seen + {a.wallet}, pairs + [a])
    ensures FirstPerWallet(pairs + [a]) == FirstPerWallet(pairs) + if a.wallet in seen then [] else [a]
  {
    var all := pairs + [a];
    assert all[..|pairs|] == pairs;
    forall w ensures w in seen + {a.wallet} <==> Assigns(all, w) {
      if i :| 0 <= i < |pairs| && pairs[i].wallet == w {
        assert all[i].wallet == w;
      }
      assert all[|pairs|] == a;
    }
    FirstByNext(WalletOf, pairs, a);
    if i :| 0 <= i < |pairs| && pairs[i].wallet == a.wallet {
      assert WalletOf(pairs[i]) == WalletOf(a);
    }
  }

  /** One turn of the loop over a list's wallet items. */
  lemma WalletNext(before: seq<Assignment>, wallets: seq<Item>, key: Key, list: string, j: nat, seen: set<Wallet>)
    requires j < |wallets| && Seen(seen, before + Pairs(wallets[..j], key, list))
    ensures var parsed := ParseWallet(wallets[j].itemKey);
            var earlier := before + Pairs(wallets[..j], key, list);
            var later := before + Pairs(wallets[..j + 1], key, list);
            && (parsed.None? ==> later == earlier)
            && (parsed.Some? ==>
                 && FirstPerWallet(later)
                    == FirstPerWallet(earlier) + (if parsed.value in seen then [] else [Assignment(parsed.value, key, list)])
                 && Seen(seen + {parsed.value}, later))
  {
    var parsed := ParseWallet(wallets[j].itemKey);
    PairsAt(wallets, key, list, j, parsed);
    if parsed.Some? {
      PairNext(seen, before + Pairs(wallets[..j], key, list), Assignment(parsed.value, key, list));
      assert before + Pairs(wallets[..j + 1], key, list)
             == before + Pairs(wallets[..j], key, list) + [Assignment(parsed.value, key, list)];
    }
  }

  lemma PairsAt(wallets: seq<Item>, key: Key, list: string, j: nat, parsed: Option<Wallet>)
    requires j < |wallets| && parsed == ParseWallet(wallets[j].itemKey)
    ensures Pairs(wallets[..j + 1], key, list)
            == Pairs(wallets[..j], key, list) + if parsed.Some? then [Assignment(parsed.value, key, list)] else []
  {
    assert wallets[..j + 1][..j] == wallets[..j];
  }

  /** The loop over one list's wallet items, after the pairs of the lists before. */
  method AssignWallets(ghost before: seq<Assignment>, earlier: seq<Assignment>, seenBefore: set<Wallet>,
                       wallets: seq<Item>, key: Key, list: string)
    returns (assignments: seq<Assignment>, seen: set<Wallet>)
    requires earlier == FirstPerWallet(before) && Seen(seenBefore, before)
    ensures assignments == FirstPerWallet(before + Pairs(wallets, key, list))
    ensures Seen(seen, before + Pairs(wallets, key, list))
  {
    assignments, seen := earlier, seenBefore;
    assert before + Pairs(wallets[..0], key, list) == before;
    for j := 0 to |wallets|
      invariant assignments == FirstPerWallet(before + Pairs(wallets[..j], key, list))
      invariant Seen(seen, before + Pairs(wallets[..j], key, list))
    {
      WalletNext(before, wallets, key, list, j, seen);
      var parsed := ParseWallet(wallets[j].itemKey);
      if parsed.None? {
        continue;
      }
      if parsed.value in seen {
        assert seen + {parsed.value} == seen;
        continue;
      }
      seen := seen + {parsed.value};
      assignments := assignments + [Assignment(parsed.value, key, list)];
    }
    assert wallets[..|wallets|] == wallets;
  }

  /** The definitions of a map, sorted by key. */
  method SortDefinitions(byKey: map<Key, Item>) returns (definitions: seq<Definition>)
    requires forall k :: k in byKey ==> k.Curated?
    ensures Sorted(KeyLess, definitions)
    ensures forall d :: d in definitions <==> d.key in byKey && byKey[d.key] == d.item
  {
    var found: seq<Definition> := [];
    var rest := byKey.Keys;
    while rest != {}
      invariant rest <= byKey.Keys
      invariant forall d :: d in found <==> d.key in byKey.Keys - rest && byKey[d.key] == d.item
      invariant forall i, j :: 0 <= i < j < |found| ==> found[i].key != found[j].key
    {
      var key :| key in rest;
      found := found + [Definition(key, byKey[key])];
      rest := rest - {key};
    }
    definitions := Sort(KeyLess, found);
    SortIsPermutation(KeyLess, found);
    KeysAreOrdered(found);
  }

  lemma KeysAreOrdered(found: seq<Definition>)
    requires forall d :: d in found ==> d.key.Curated?
    requires forall i, j :: 0 <= i < j < |found| ==> found[i].key != found[j].key
    ensures Sorted(KeyLess, Sort(KeyLess, found))
  {
    forall i, j | 0 <= i < j < |found| ensures KeyLess(found[i], found[j]) || KeyLess(found[j], found[i]) {
      assert found[i] in found && found[j] in found;
      StringLessIsStrict(found[i].key.name, found[j].key.name, "");
    }
    KeyLessIsStrict();
    SortIsSorted(KeyLess, found);
  }

  lemma KeyLessIsStrict()
    ensures StrictOrder(KeyLess)
  {
    forall a, b, c ensures !KeyLess(a, a) && (KeyLess(a, b) && KeyLess(b, c) ==> KeyLess(a, c)) {
      StringLessIsStrict(a.key.name, b.key.name, c.key.name);
    }
  }

  /** `buildCuratedEntityIndex`. */
  method Build(items: seq<Item>) returns (definitions: seq<Definition>, assignments: seq<Assignment>)
    ensures AreDefinitions(items, definitions)
    ensures assignments == Assignments(items)
  {
    var order, grouped := GroupItems(items);
    var byKey: map<Key, Item> := map[];
    var seen: set<Wallet> := {};
    assignments := [];
    for i := 0 to |order|
      invariant byKey == Defined(items, order[..i])
      invariant forall k :: k in byKey ==> k.Curated?
      invariant assignments == FirstPerWallet(PairsOfLists(items, order[..i])) && Seen(seen, PairsOfLists(items, order[..i]))
    {
      ghost var before := PairsOfLists(items, order[..i]);
      assert order[..i + 1][..i] == order[..i];
      assert order[i] in order;
      var list := grouped[order[i]];
      if list.entity.None? || list.wallets == [] {
        assert before + [] == before;
        continue;
      }
      var key := NormalizeKey(list.entity.value.itemKey);
      if key.None? {
        assert before + [] == before;
        continue;
      }
      byKey := byKey[key.value := list.entity.value];
      assignments, seen := AssignWallets(before, assignments, seen, list.wallets, key.value, order[i]);
    }
    assert order[..|order|] == order;
    definitions := SortDefinitions(byKey);
  }
}
