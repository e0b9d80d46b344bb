/** What following the cursors returns, whatever happens to the table between the requests. */
module KeysetWalk {
  import opened Text
  import opened Sorting
  import opened KeysetPaging

  ghost predicate Keyed(stores: seq<seq<Row>>) {
    forall k :: 0 <= k < |stores| ==> Distinct(stores[k])
  }

  /** No page of the walk ends in a row whose cursor reaches back. */
  ghost predicate Honest(feed: Feed, stores: seq<seq<Row>>, cursor: Option<Mark>, limit: nat)
    requires limit >= 1
  {
    Keyed(stores) && forall b :: b in Boundaries(feed, stores, cursor, limit) ==> ShowsNoLater(feed, b)
  }

  // ---- The pages of a walk ----

  /** Each page is one of its table, behind the mark of the page before it. */
  ghost predicate Linked(feed: Feed, stores: seq<seq<Row>>, cursor: Option<Mark>, limit: nat, pages: seq<Page>)
    decreases |pages|
  {
    if pages == [] then stores == []
    else
      && stores != [] && IsPage(feed, stores[0], cursor, limit, pages[0])
      && if pages[0].next.Some? then Linked(feed, stores[1..], pages[0].next, limit, pages[1..]) else |pages| == 1
  }

  ghost predicate HonestEnds(feed: Feed, pages: seq<Page>) {
    forall b :: b in Ends(pages) ==> ShowsNoLater(feed, b)
  }

  lemma {:induction false} PagesAreLinked(feed: Feed, stores: seq<seq<Row>>, cursor: Option<Mark>, limit: nat)
    requires limit >= 1 && Keyed(stores)
    ensures Linked(feed, stores, cursor, limit, Pages(feed, stores, cursor, limit))
  {
    if stores != [] {
      var page := PageOf(feed, stores[0], cursor, limit);
      PageIs(feed, stores[0], cursor, limit);
      if page.next.Some? {
        PagesAreLinked(feed, stores[1..], page.next, limit);
        assert ([page] + Pages(feed, stores[1..], page.next, limit))[1..] == Pages(feed, stores[1..], page.next, limit);
      }
    }
  }

  lemma PagesOf(feed: Feed, stores: seq<seq<Row>>, cursor: Option<Mark>, limit: nat) returns (pages: seq<Page>)
    requires limit >= 1 && Keyed(stores)
    ensures pages == Pages(feed, stores, cursor, limit) && Linked(feed, stores, cursor, limit, pages)
  {
    PagesAreLinked(feed, stores, cursor, limit);
    pages := Pages(feed, stores, cursor, limit);
  }

  /** A walk goes on from the last row of its first page. */
  lemma NextPages(feed: Feed, stores: seq<seq<Row>>, cursor: Option<Mark>, limit: nat, pages: seq<Page>)
    requires pages != [] && pages[0].next.Some? && Linked(feed, stores, cursor, limit, pages) && HonestEnds(feed, pages)
    ensures 1 <= limit == |pages[0].items| && ShowsNoLater(feed, pages[0].items[limit - 1])
    ensures Ends(pages) == [pages[0].items[limit - 1]] + Ends(pages[1..]) && HonestEnds(feed, pages[1..])
  {
    assert ([pages[0].items[limit - 1]] + Ends(pages[1..]))[0] == pages[0].items[limit - 1];
    forall b | b in Ends(pages[1..]) ensures b in Ends(pages) {
    }
  }

  lemma {:induction false} PagesAreSorted(feed: Feed, stores: seq<seq<Row>>, cursor: Option<Mark>, limit: nat, pages: seq<Page>)
    requires Linked(feed, stores, cursor, limit, pages) && HonestEnds(feed, pages)
    ensures Sorted(Order(feed), Items(pages))
    ensures forall x :: x in Items(pages) ==> Wanted(feed, cursor)(x)
    ensures forall b :: b in Ends(pages) ==> b in Items(pages)
  {
    if pages != [] {
      if pages[0].next.Some? {
        NextPages(feed, stores, cursor, limit, pages);
        PagesAreSorted(feed, stores[1..], pages[0].next, limit, pages[1..]);
        RestFollows(feed, pages[0].items, Items(pages[1..]), cursor);
      } else {
        assert pages[1..] == [];
      }
    }
  }

  /** The pages come in order, within and across, and stay behind the cursor they started from. */
  lemma WalkIsSorted(feed: Feed, stores: seq<seq<Row>>, cursor: Option<Mark>, limit: nat)
    requires limit >= 1 && Honest(feed, stores, cursor, limit)
    ensures Sorted(Order(feed), Walk(feed, stores, cursor, limit))
    ensures forall x :: x in Walk(feed, stores, cursor, limit) ==> Wanted(feed, cursor)(x)
  {
    var pages := PagesOf(feed, stores, cursor, limit);
    PagesAreSorted(feed, stores, cursor, limit, pages);
  }

  lemma RestFollows(feed: Feed, items: seq<Row>, rest: seq<Row>, cursor: Option<Mark>)
    requires items != [] && Sorted(Order(feed), items) && Sorted(Order(feed), rest)
    requires var last := items[|items| - 1];
             && ShowsNoLater(feed, last) && Wanted(feed, cursor)(last)
             && forall x :: x in rest ==> Behind(feed, MarkOf(feed, last), x)
    ensures Sorted(Order(feed), items + rest)
    ensures forall x :: x in rest ==> Wanted(feed, cursor)(x)
  {
    var n := |items| - 1;
    OrderIsStrict(feed);
    forall x | x in rest ensures Order(feed)(items[n], x) && Wanted(feed, cursor)(x) {
      BehindFollows(feed, items[n], x);
      if cursor.Some? {
        BehindIsClosed(feed, cursor.value, items[n], x);
      }
    }
    forall i, j | 0 <= i < |items| && 0 <= j < |rest| ensures Order(feed)(items[i], rest[j]) {
      assert rest[j] in rest;
      assert i < n ==> Order(feed)(items[i], items[n]);
    }
  }

  // ---- Repeats ----

  /** Row x on the page of request p, row y on that of a later request: y is behind the cursor of request
      p's page, which ends no earlier than x, and before the end of the table it was read from. */
  ghost predicate Apart(feed: Feed, stores: seq<seq<Row>>, x: Row, y: Row, p: nat, q: nat) {
    && p < q < |stores| && x in stores[p] && y in stores[q] && NotLast(feed, stores[p], x)
    && exists b :: b in stores[p] && (b == x || Precedes(feed, x, b)) && Behind(feed, MarkOf(feed, b), y)
  }

  /** Some row of the store comes after this one. */
  ghost predicate NotLast(feed: Feed, store: seq<Row>, b: Row) {
    b in store && exists x :: x in store && Precedes(feed, b, x)
  }

  lemma EndIsNotLast(feed: Feed, store: seq<Row>, cursor: Option<Mark>, limit: nat, page: Page, x: Row)
    requires IsPage(feed, store, cursor, limit, page) && page.next.Some? && x in page.items
    ensures NotLast(feed, store, x) && NotLast(feed, store, page.items[limit - 1])
    ensures x == page.items[limit - 1] || Precedes(feed, x, page.items[limit - 1])
  {
    OrderIsStrict(feed);
    var y :| y in store && Wanted(feed, cursor)(y) && y !in page.items;
    var k :| 0 <= k < |page.items| && page.items[k] == x;
    var last := page.items[limit - 1];
    assert last in page.items && Order(feed)(last, y);
    assert k < limit - 1 ==> Order(feed)(page.items[k], last);
  }

  lemma LastPageIsAll(feed: Feed, stores: seq<seq<Row>>, cursor: Option<Mark>, limit: nat, pages: seq<Page>)
    requires pages != [] && Linked(feed, stores, cursor, limit, pages)
    ensures pages[0].next.None? ==> Items(pages) == pages[0].items && Ends(pages) == []
  {
    if pages[0].next.None? {
      assert pages[1..] == [];
    }
  }

  lemma {:induction false} ItemsAreRows(feed: Feed, stores: seq<seq<Row>>, cursor: Option<Mark>, limit: nat, pages: seq<Page>, x: Row)
    returns (k: nat)
    requires Linked(feed, stores, cursor, limit, pages) && x in Items(pages)
    ensures k < |stores| && x in stores[k]
  {
    LastPageIsAll(feed, stores, cursor, limit, pages);
    k := 0;
    if x !in pages[0].items {
      k := ItemsAreRows(feed, stores[1..], pages[0].next, limit, pages[1..], x);
      k := k + 1;
    }
  }

  lemma FirstPageIsApart(feed: Feed, stores: seq<seq<Row>>, cursor: Option<Mark>, limit: nat, pages: seq<Page>, x: Row, y: Row)
    returns (q: nat)
    requires pages != [] && Linked(feed, stores, cursor, limit, pages) && HonestEnds(feed, pages)
    requires pages[0].next.Some? && x in pages[0].items && y in Items(pages[1..])
    ensures Apart(feed, stores, x, y, 0, q)
  {
    NextPages(feed, stores, cursor, limit, pages);
    q := ItemsAreRows(feed, stores[1..], pages[0].next, limit, pages[1..], y);
    q := q + 1;
    PagesAreSorted(feed, stores[1..], pages[0].next, limit, pages[1..]);
    EndIsNotLast(feed, stores[0], cursor, limit, pages[0], x);
    assert pages[0].items[limit - 1] in pages[0].items;
  }

  ghost predicate OnePage(stores: seq<seq<Row>>, x: Row, y: Row, p: nat) {
    p < |stores| && x in stores[p] && y in stores[p]
  }

  lemma LaterStores(feed: Feed, stores: seq<seq<Row>>, x: Row, y: Row, p: nat, q: nat)
    requires stores != []
    ensures OnePage(stores[1..], x, y, p) ==> OnePage(stores, x, y, p + 1)
    ensures Apart(feed, stores[1..], x, y, p, q) ==> Apart(feed, stores, x, y, p + 1, q + 1)
  {
  }

  /** What is on a page comes before all that later pages return. */
  lemma FirstBeforeRest(feed: Feed, stores: seq<seq<Row>>, cursor: Option<Mark>, limit: nat, pages: seq<Page>, x: Row, y: Row)
    requires pages != [] && Linked(feed, stores, cursor, limit, pages) && HonestEnds(feed, pages)
    requires x in pages[0].items && y in Items(pages[1..])
    ensures Precedes(feed, x, y)
  {
    PagesAreSorted(feed, stores, cursor, limit, pages);
    var first, rest := pages[0].items, Items(pages[1..]);
    var i := PlaceOf(first, x);
    var j := PlaceOf(rest, y);
    assert Items(pages)[i] == x && Items(pages)[|first| + j] == y;
    assert Order(feed)(Items(pages)[i], Items(pages)[|first| + j]);
  }

  /** Two returned rows come from one page, or the second one lies behind the cursor of the first one's page. */
  lemma {:induction false} OnePageOrApart(feed: Feed, stores: seq<seq<Row>>, cursor: Option<Mark>, limit: nat, pages: seq<Page>,
                                          x: Row, y: Row) returns (p: nat, q: nat)
    requires Linked(feed, stores, cursor, limit, pages) && HonestEnds(feed, pages)
    requires x in Items(pages) && y in Items(pages) && Precedes(feed, x, y)
    ensures OnePage(stores, x, y, p) || Apart(feed, stores, x, y, p, q)
    decreases |pages|
  {
    LastPageIsAll(feed, stores, cursor, limit, pages);
    p, q := 0, 0;
    if x in pages[0].items {
      if y !in pages[0].items {
        q := FirstPageIsApart(feed, stores, cursor, limit, pages, x, y);
      }
    } else {
      if y in pages[0].items {
        FirstBeforeRest(feed, stores, cursor, limit, pages, y, x);
        NotBoth(feed, y, x);
      }
      NextPages(feed, stores, cursor, limit, pages);
      p, q := OnePageOrApart(feed, stores[1..], pages[0].next, limit, pages[1..], x, y);
      LaterStores(feed, stores, x, y, p, q);
      p, q := p + 1, q + 1;
    }
  }

  /** An id comes again only when its row moved: between two requests it went down the order, from a page
      already read to behind that page's cursor. Otherwise no id is returned twice, on one page or on two,
      whatever is inserted, changed or deleted between the requests. */
  lemma RepeatedIdMovedDown(feed: Feed, stores: seq<seq<Row>>, limit: nat, i: nat, j: nat) returns (p: nat, q: nat)
    requires limit >= 1 && Honest(feed, stores, None, limit) && i < j < |Walk(feed, stores, None, limit)|
    requires Walk(feed, stores, None, limit)[i].id == Walk(feed, stores, None, limit)[j].id
    ensures Apart(feed, stores, Walk(feed, stores, None, limit)[i], Walk(feed, stores, None, limit)[j], p, q)
    ensures Precedes(feed, Walk(feed, stores, None, limit)[i], Walk(feed, stores, None, limit)[j])
  {
    var pages := PagesOf(feed, stores, None, limit);
    PagesAreSorted(feed, stores, None, limit, pages);
    OrderIsStrict(feed);
    assert Order(feed)(Items(pages)[i], Items(pages)[j]);
    p, q := OnePageOrApart(feed, stores, None, limit, pages, Items(pages)[i], Items(pages)[j]);
  }

  // ---- What is returned ----

  /** The row's item is not cut off by the cursor of a row before it. */
  predicate Reached(feed: Feed, b: Row, x: Row) {
    Precedes(feed, b, x) ==> Behind(feed, MarkOf(feed, b), x)
  }

  ghost predicate Throughout(stores: seq<seq<Row>>, x: Row) {
    forall k :: 0 <= k < |stores| ==> x in stores[k]
  }

  lemma NotBoth(feed: Feed, x: Row, b: Row)
    requires x == b || Precedes(feed, x, b)
    ensures !Precedes(feed, b, x)
  {
    IdOrder(feed, x.id, b.id, x.id);
  }

  /** A row on a page is not cut off by that page's last row, nor by a later page's. */
  lemma ReturnedIsReached(feed: Feed, page: Page, rest: seq<Row>, x: Row)
    requires page.items != [] && Sorted(Order(feed), page.items) && x in page.items
    requires var last := page.items[|page.items| - 1];
             ShowsNoLater(feed, last) && forall y :: y in rest ==> Behind(feed, MarkOf(feed, last), y)
    ensures forall b :: b == page.items[|page.items| - 1] || b in rest ==> Reached(feed, b, x)
  {
    var n := |page.items| - 1;
    var last := page.items[n];
    var k :| 0 <= k <= n && page.items[k] == x;
    assert k < n ==> Order(feed)(page.items[k], page.items[n]);
    OrderIsStrict(feed);
    forall b | b == last || b in rest ensures Reached(feed, b, x) {
      if b in rest {
        BehindFollows(feed, last, b);
        assert Order(feed)(last, b);
      }
      NotBoth(feed, x, b);
    }
  }

  /** What the rest of a walk returns settles what the whole of it returns. */
  lemma ReturnedNext(feed: Feed, page: Page, rest: seq<Row>, later: seq<Row>, x: Row)
    requires page.items != [] && Sorted(Order(feed), page.items)
    requires var last := page.items[|page.items| - 1];
      && ShowsNoLater(feed, last) && (forall y :: y in rest ==> Behind(feed, MarkOf(feed, last), y))
      && (x in page.items || Precedes(feed, last, x)) && (forall b :: b in later ==> b in rest)
      && (Behind(feed, MarkOf(feed, last), x) ==> (x in rest <==> forall b :: b in later ==> Reached(feed, b, x)))
    ensures x in page.items + rest <==> forall b :: b in [page.items[|page.items| - 1]] + later ==> Reached(feed, b, x)
  {
    var last := page.items[|page.items| - 1];
    if x in page.items {
      ReturnedIsReached(feed, page, rest, x);
    } else if !Behind(feed, MarkOf(feed, last), x) {
      assert x !in rest && !Reached(feed, last, x);
      assert ([last] + later)[0] == last;
    } else {
      assert forall b :: b in later ==> b in [last] + later;
    }
  }

  lemma {:induction false} OnPageIff(feed: Feed, stores: seq<seq<Row>>, cursor: Option<Mark>, limit: nat, pages: seq<Page>, x: Row)
    requires Linked(feed, stores, cursor, limit, pages) && HonestEnds(feed, pages) && Complete(pages)
    requires Throughout(stores, x) && Wanted(feed, cursor)(x)
    ensures x in Items(pages) <==> forall b :: b in Ends(pages) ==> Reached(feed, b, x)
    decreases |pages|
  {
    assert x in stores[0];
    if pages[0].next.Some? {
      NextPages(feed, stores, cursor, limit, pages);
      PagesAreSorted(feed, stores[1..], pages[0].next, limit, pages[1..]);
      if Wanted(feed, pages[0].next)(x) {
        OnPageIff(feed, stores[1..], pages[0].next, limit, pages[1..], x);
      }
      ReturnedNext(feed, pages[0], Items(pages[1..]), Ends(pages[1..]), x);
    } else {
      assert pages[1..] == [];
    }
  }

  /** A row that is there at every request is returned exactly when no page boundary before it has a
      cursor that passes it over. */
  lemma ReturnedIff(feed: Feed, stores: seq<seq<Row>>, cursor: Option<Mark>, limit: nat, x: Row)
    requires limit >= 1 && Honest(feed, stores, cursor, limit) && Finishes(feed, stores, cursor, limit)
    requires Throughout(stores, x) && Wanted(feed, cursor)(x)
    ensures x in Walk(feed, stores, cursor, limit)
            <==> forall b :: b in Boundaries(feed, stores, cursor, limit) ==> Reached(feed, b, x)
  {
    var pages := PagesOf(feed, stores, cursor, limit);
    OnPageIff(feed, stores, cursor, limit, pages, x);
  }

  // ---- Whole seconds ----

  /** The item shows the column's time, in whole seconds, and the score the order has. */
  predicate ShowsExactly(feed: Feed, row: Row) {
    row.shownAt == row.observedAt && WholeSeconds(row.observedAt) && (feed == ScoredConnections ==> row.shownScore == row.score)
  }

  lemma ExactCursorIsExact(feed: Feed, b: Row, x: Row)
    requires ShowsExactly(feed, b)
    ensures ShowsNoLater(feed, b) && (Behind(feed, MarkOf(feed, b), x) <==> Precedes(feed, b, x))
  {
  }

  /** When the pages end in rows that show their exact position, a finished walk returns every row that is
      there throughout, however many rows are inserted meanwhile. */
  lemma ExactCursorsLoseNothing(feed: Feed, stores: seq<seq<Row>>, cursor: Option<Mark>, limit: nat, x: Row)
    requires limit >= 1 && Finishes(feed, stores, cursor, limit) && Throughout(stores, x) && Keyed(stores)
    requires Wanted(feed, cursor)(x)
    requires forall b :: b in Boundaries(feed, stores, cursor, limit) ==> ShowsExactly(feed, b)
    ensures x in Walk(feed, stores, cursor, limit)
  {
    forall b | b in Boundaries(feed, stores, cursor, limit) ensures ShowsNoLater(feed, b) && Reached(feed, b, x) {
      ExactCursorIsExact(feed, b, x);
    }
    ReturnedIff(feed, stores, cursor, limit, x);
  }

  // ---- A table that stays as it is ----

  function Repeat(store: seq<Row>, requests: nat): (stores: seq<seq<Row>>)
    ensures |stores| == requests && forall k :: 0 <= k < requests ==> stores[k] == store
  {
    if requests == 0 then [] else [store] + Repeat(store, requests - 1)
  }

  /** The pages of a table that stays as it is, with requests enough. */
  function StaticWalk(feed: Feed, store: seq<Row>, limit: nat): seq<Row>
    requires limit >= 1
  {
    Walk(feed, Repeat(store, |store| + 1), None, limit)
  }

  function InOrder(feed: Feed, store: seq<Row>): seq<Row> { Sort(Order(feed), store) }

  lemma InOrderIs(feed: Feed, store: seq<Row>)
    requires Distinct(store)
    ensures Sorted(Order(feed), InOrder(feed, store)) && forall x :: x in InOrder(feed, store) <==> x in store
    ensures |InOrder(feed, store)| == |store|
  {
    FilterAll(Wanted(feed, None), store);
    FetchedIs(feed, store, None);
    SortIsPermutation(Order(feed), store);
  }

  lemma FirstPageIs(feed: Feed, store: seq<Row>, limit: nat)
    requires Distinct(store) && 1 <= limit < |store|
    ensures |InOrder(feed, store)| == |store|
    ensures var all := InOrder(feed, store); PageOf(feed, store, None, limit) == Page(all[..limit], Some(MarkOf(feed, all[limit - 1])))
  {
    InOrderIs(feed, store);
    FilterAll(Wanted(feed, None), store);
  }

  /** The pages of a walk whose first one is full and not the last. */
  ghost predicate StartsFull(feed: Feed, stores: seq<seq<Row>>, all: seq<Row>, limit: nat, pages: seq<Page>) {
    && 1 <= limit < |all| && stores != [] && pages != []
    && Linked(feed, stores, None, limit, pages)
    && pages[0] == Page(all[..limit], Some(MarkOf(feed, all[limit - 1])))
  }

  lemma FullPagesOf(feed: Feed, stores: seq<seq<Row>>, limit: nat) returns (pages: seq<Page>)
    requires Keyed(stores) && stores != [] && 1 <= limit < |stores[0]|
    ensures StartsFull(feed, stores, InOrder(feed, stores[0]), limit, pages)
    ensures Items(pages) == Walk(feed, stores, None, limit)
  {
    pages := PagesOf(feed, stores, None, limit);
    FirstPageIs(feed, stores[0], limit);
  }

  lemma PrecedesIsPosition(feed: Feed, all: seq<Row>, k: nat, i: nat)
    requires Sorted(Order(feed), all) && k < |all| && i < |all|
    ensures Precedes(feed, all[k], all[i]) <==> k < i
    ensures all[k] == all[i] <==> k == i
  {
    OrderIsStrict(feed);
    assert k < i ==> Order(feed)(all[k], all[i]);
    assert i < k ==> Order(feed)(all[i], all[k]);
    if k >= i {
      NotBoth(feed, all[i], all[k]);
    }
  }

  lemma PlaceOf(all: seq<Row>, x: Row) returns (i: nat)
    requires x in all
    ensures i < |all| && all[i] == x
  {
    i :| 0 <= i < |all| && all[i] == x;
  }

  /** Where a row that is not the last one stands. */
  lemma Place(feed: Feed, store: seq<Row>, b: Row) returns (k: nat)
    requires Distinct(store) && NotLast(feed, store, b)
    ensures k + 1 < |InOrder(feed, store)| == |store| && InOrder(feed, store)[k] == b
  {
    var all := InOrder(feed, store);
    InOrderIs(feed, store);
    var x :| x in store && Precedes(feed, b, x);
    k := PlaceOf(all, b);
    var i := PlaceOf(all, x);
    PrecedesIsPosition(feed, all, k, i);
  }

  // ---- It ends ----

  lemma {:induction false} FewerWanted(p: Row -> bool, q: Row -> bool, s: seq<Row>, x: Row)
    requires forall y :: q(y) ==> p(y)
    ensures |Filter(q, s)| <= |Filter(p, s)|
    ensures x in s && p(x) && !q(x) ==> |Filter(q, s)| < |Filter(p, s)|
  {
    if s != [] {
      FewerWanted(p, q, s[1..], x);
    }
  }

  lemma NextWantsLess(feed: Feed, cursor: Option<Mark>, last: Row)
    requires Wanted(feed, cursor)(last) && ShowsNoLater(feed, last)
    ensures forall y :: Wanted(feed, Some(MarkOf(feed, last)))(y) ==> Wanted(feed, cursor)(y)
  {
    forall y | Wanted(feed, Some(MarkOf(feed, last)))(y) ensures Wanted(feed, cursor)(y) {
      BehindFollows(feed, last, y);
      if cursor.Some? {
        BehindIsClosed(feed, cursor.value, last, y);
      }
    }
  }

  /** How many rows are left to return. */
  function Left(feed: Feed, store: seq<Row>, cursor: Option<Mark>): nat {
    |Filter(Wanted(feed, cursor), store)|
  }

  lemma {:induction false} LeftAtMost(p: Row -> bool, s: seq<Row>)
    ensures |Filter(p, s)| <= |s|
  {
    if s != [] {
      LeftAtMost(p, s[1..]);
    }
  }

  /** No row a page can end in has a cursor that reaches back. */
  ghost predicate HonestTable(feed: Feed, store: seq<Row>) {
    Distinct(store) && forall b :: NotLast(feed, store, b) ==> ShowsNoLater(feed, b)
  }

  lemma FewerAreLeft(feed: Feed, store: seq<Row>, cursor: Option<Mark>, limit: nat, page: Page)
    requires HonestTable(feed, store) && IsPage(feed, store, cursor, limit, page) && page.next.Some?
    ensures Left(feed, store, page.next) < Left(feed, store, cursor)
  {
    var last := page.items[limit - 1];
    assert last in page.items;
    EndIsNotLast(feed, store, cursor, limit, page, last);
    NextWantsLess(feed, cursor, last);
    BehindItselfIff(feed, last);
    FewerWanted(Wanted(feed, cursor), Wanted(feed, page.next), store, last);
  }

  lemma {:induction false} StaticPagesEnd(feed: Feed, store: seq<Row>, cursor: Option<Mark>, limit: nat, requests: nat, pages: seq<Page>)
    requires HonestTable(feed, store) && Linked(feed, Repeat(store, requests), cursor, limit, pages)
    requires requests > Left(feed, store, cursor)
    ensures Complete(pages)
    decreases requests
  {
    if pages[0].next.Some? {
      FewerAreLeft(feed, store, cursor, limit, pages[0]);
      assert Repeat(store, requests)[1..] == Repeat(store, requests - 1);
      StaticPagesEnd(feed, store, pages[0].next, limit, requests - 1, pages[1..]);
    }
  }

  lemma AllStaticPagesEnd(feed: Feed, store: seq<Row>, cursor: Option<Mark>, limit: nat, pages: seq<Page>)
    requires HonestTable(feed, store) && Linked(feed, Repeat(store, |store| + 1), cursor, limit, pages)
    ensures Complete(pages)
  {
    LeftAtMost(Wanted(feed, cursor), store);
    StaticPagesEnd(feed, store, cursor, limit, |store| + 1, pages);
  }

  /** One request more than there are rows to return is enough. */
  lemma StaticWalkFinishes(feed: Feed, store: seq<Row>, cursor: Option<Mark>, limit: nat, requests: nat)
    requires HonestTable(feed, store) && limit >= 1 && requests > Left(feed, store, cursor)
    ensures Finishes(feed, Repeat(store, requests), cursor, limit)
  {
    var pages := PagesOf(feed, Repeat(store, requests), cursor, limit);
    StaticPagesEnd(feed, store, cursor, limit, requests, pages);
  }

  // ---- It is the table in order ----

  /** Every cursor a page can end in selects exactly the rows after it. */
  ghost predicate CursorsFit(feed: Feed, store: seq<Row>) {
    forall b, x :: NotLast(feed, store, b) && x in store ==> (Behind(feed, MarkOf(feed, b), x) <==> Precedes(feed, b, x))
  }

  lemma FittingIsHonest(feed: Feed, store: seq<Row>)
    requires Distinct(store) && CursorsFit(feed, store)
    ensures HonestTable(feed, store)
  {
    forall b | NotLast(feed, store, b) ensures ShowsNoLater(feed, b) {
      BehindItselfIff(feed, b);
      NotBoth(feed, b, b);
    }
  }

  lemma {:induction false} EndsAreNotLast(feed: Feed, store: seq<Row>, cursor: Option<Mark>, limit: nat, requests: nat, pages: seq<Page>)
    requires Linked(feed, Repeat(store, requests), cursor, limit, pages)
    ensures forall b :: b in Ends(pages) ==> NotLast(feed, store, b)
    decreases |pages|
  {
    if pages != [] {
      LastPageIsAll(feed, Repeat(store, requests), cursor, limit, pages);
      if pages[0].next.Some? {
        EndIsNotLast(feed, store, cursor, limit, pages[0], pages[0].items[limit - 1]);
        assert Repeat(store, requests)[1..] == Repeat(store, requests - 1);
        EndsAreNotLast(feed, store, pages[0].next, limit, requests - 1, pages[1..]);
      }
    }
  }

  /** With cursors that fit, what the pages return is what there is. */
  lemma FittingWalkIsSort(feed: Feed, store: seq<Row>, limit: nat)
    requires Distinct(store) && CursorsFit(feed, store) && limit >= 1
    ensures StaticWalk(feed, store, limit) == InOrder(feed, store)
  {
    var stores := Repeat(store, |store| + 1);
    var pages := PagesOf(feed, stores, None, limit);
    FittingIsHonest(feed, store);
    AllStaticPagesEnd(feed, store, None, limit, pages);
    EndsAreNotLast(feed, store, None, limit, |store| + 1, pages);
    PagesAreSorted(feed, stores, None, limit, pages);
    forall x ensures x in Items(pages) <==> x in store {
      if x in Items(pages) {
        var k := ItemsAreRows(feed, stores, None, limit, pages, x);
      }
      if x in store {
        OnPageIff(feed, stores, None, limit, pages, x);
      }
    }
    InOrderIs(feed, store);
    OrderIsStrict(feed);
    SortedIsUnique(Order(feed), Items(pages), InOrder(feed, store));
  }

  /** Pages that return the table in order from a first page that ends at position k: the cursor there
      selects what comes after k. */
  lemma SortedPagesFit(feed: Feed, store: seq<Row>, all: seq<Row>, k: nat, requests: nat, pages: seq<Page>, i: nat)
    requires Sorted(Order(feed), all) && k + 1 < |all| && i < |all| && all[i] in store && requests >= 1
    requires Linked(feed, Repeat(store, requests), Some(MarkOf(feed, all[k])), k + 1, pages) && Items(pages) == all[k + 1..]
    ensures Behind(feed, MarkOf(feed, all[k]), all[i]) <==> k < i
  {
    var mark, page := MarkOf(feed, all[k]), pages[0];
    LastPageIsAll(feed, Repeat(store, requests), Some(mark), k + 1, pages);
    assert page.items[0] == Items(pages)[0] == all[k + 1] && page.items[0] in page.items;
    if k + 1 < i {
      PrecedesIsPosition(feed, all, k + 1, i);
      BehindIsClosed(feed, mark, all[k + 1], all[i]);
    } else if i <= k && Behind(feed, mark, all[i]) {
      NotReturnedEarly(feed, store, all, k, page, i);
    }
  }

  lemma NotReturnedEarly(feed: Feed, store: seq<Row>, all: seq<Row>, k: nat, page: Page, i: nat)
    requires Sorted(Order(feed), all) && i <= k && k + 1 < |all| && all[i] in store
    requires IsPage(feed, store, Some(MarkOf(feed, all[k])), k + 1, page) && page.items <= all[k + 1..]
    ensures !Behind(feed, MarkOf(feed, all[k]), all[i])
  {
    forall j | 0 <= j < |page.items| ensures page.items[j] != all[i] && !Precedes(feed, page.items[j], all[i]) {
      assert page.items[j] == all[k + 1 + j];
      PrecedesIsPosition(feed, all, k + 1 + j, i);
    }
  }

  lemma SortedWalkFits(feed: Feed, store: seq<Row>, all: seq<Row>, k: nat, pages: seq<Page>, i: nat)
    requires Sorted(Order(feed), all) && k + 1 < |all| == |store| && i < |all| && all[i] in store
    requires StartsFull(feed, Repeat(store, |store| + 1), all, k + 1, pages) && Items(pages) == all
    ensures Behind(feed, MarkOf(feed, all[k]), all[i]) <==> k < i
  {
    assert Repeat(store, |store| + 1)[1..] == Repeat(store, |store|);
    CutAt(all, Items(pages[1..]), k + 1);
    SortedPagesFit(feed, store, all, k, |store|, pages[1..], i);
  }

  lemma CutAt(all: seq<Row>, rest: seq<Row>, n: nat)
    requires n <= |all| && all == all[..n] + rest
    ensures rest == all[n..]
  {
  }

  /** Whatever the page size, the concatenated pages are the table in order. */
  ghost predicate WalksAreSorted(feed: Feed, store: seq<Row>) {
    forall limit: nat :: limit >= 1 ==> StaticWalk(feed, store, limit) == InOrder(feed, store)
  }

  lemma SortedPagesOf(feed: Feed, store: seq<Row>, all: seq<Row>, limit: nat) returns (pages: seq<Page>)
    requires Distinct(store) && 1 <= limit < |store| && StaticWalk(feed, store, limit) == all == InOrder(feed, store)
    ensures StartsFull(feed, Repeat(store, |store| + 1), all, limit, pages) && Items(pages) == all
  {
    pages := FullPagesOf(feed, Repeat(store, |store| + 1), limit);
  }

  lemma SortedWalkFitsAt(feed: Feed, store: seq<Row>, all: seq<Row>, k: nat, i: nat)
    requires Distinct(store) && StaticWalk(feed, store, k + 1) == all == InOrder(feed, store)
    requires k + 1 < |store| == |all| && i < |all| && Sorted(Order(feed), all) && all[i] in store
    ensures Behind(feed, MarkOf(feed, all[k]), all[i]) <==> k < i
  {
    var pages := SortedPagesOf(feed, store, all, k + 1);
    SortedWalkFits(feed, store, all, k, pages, i);
  }

  lemma SortedWalksFit(feed: Feed, store: seq<Row>, b: Row, x: Row)
    requires Distinct(store) && WalksAreSorted(feed, store) && NotLast(feed, store, b) && x in store
    ensures Behind(feed, MarkOf(feed, b), x) <==> Precedes(feed, b, x)
  {
    InOrderIs(feed, store);
    var k := Place(feed, store, b);
    var i := PlaceOf(InOrder(feed, store), x);
    assert StaticWalk(feed, store, k + 1) == InOrder(feed, store);
    SortedWalkFitsAt(feed, store, InOrder(feed, store), k, i);
    PrecedesIsPosition(feed, InOrder(feed, store), k, i);
  }

  /** The concatenated pages are the table in order for every page size exactly when the cursor of every
      row but the last selects the rows after it, no fewer and no more. */
  lemma StaticWalkIsSortIff(feed: Feed, store: seq<Row>)
    requires Distinct(store)
    ensures WalksAreSorted(feed, store) <==> CursorsFit(feed, store)
  {
    if CursorsFit(feed, store) {
      forall limit: nat | limit >= 1 ensures StaticWalk(feed, store, limit) == InOrder(feed, store) {
        FittingWalkIsSort(feed, store, limit);
      }
    }
    if WalksAreSorted(feed, store) {
      forall b, x | NotLast(feed, store, b) && x in store
        ensures Behind(feed, MarkOf(feed, b), x) <==> Precedes(feed, b, x)
      {
        SortedWalksFit(feed, store, b, x);
      }
    }
  }

  // ---- One change ----

  ghost predicate DistinctIds(rows: seq<Row>) {
    forall i, j :: 0 <= i < j < |rows| ==> rows[i].id != rows[j].id
  }

  ghost predicate Exact(feed: Feed, store: seq<Row>) {
    Distinct(store) && forall x :: x in store ==> ShowsExactly(feed, x)
  }

  ghost predicate AllExact(feed: Feed, stores: seq<seq<Row>>) {
    forall k :: 0 <= k < |stores| ==> Exact(feed, stores[k])
  }

  lemma {:induction false} ExactEnds(feed: Feed, stores: seq<seq<Row>>, cursor: Option<Mark>, limit: nat, pages: seq<Page>)
    requires AllExact(feed, stores) && Linked(feed, stores, cursor, limit, pages)
    ensures forall b :: b in Ends(pages) ==> ShowsExactly(feed, b) && ShowsNoLater(feed, b)
    decreases |pages|
  {
    if pages != [] {
      LastPageIsAll(feed, stores, cursor, limit, pages);
      if pages[0].next.Some? {
        assert pages[0].items[limit - 1] in pages[0].items && Exact(feed, stores[0]);
        ExactEnds(feed, stores[1..], pages[0].next, limit, pages[1..]);
      }
    }
  }

  /** The requests of a walk during which the table changes once, after the first page. */
  function ChangedOnce(before: seq<Row>, after: seq<Row>): seq<seq<Row>> {
    [before] + Repeat(after, |after| + 1)
  }

  lemma ExactIsHonest(feed: Feed, store: seq<Row>)
    requires Exact(feed, store)
    ensures HonestTable(feed, store)
  {
  }

  lemma ReturnedLater(feed: Feed, store: seq<Row>, r: Row, x: Row, limit: nat, pages: seq<Page>)
    requires Exact(feed, store) && ShowsExactly(feed, r) && x in store && Precedes(feed, r, x)
    requires Linked(feed, Repeat(store, |store| + 1), Some(MarkOf(feed, r)), limit, pages)
    ensures x in Items(pages)
  {
    var cursor, stores := Some(MarkOf(feed, r)), Repeat(store, |store| + 1);
    ExactEnds(feed, stores, cursor, limit, pages);
    ExactIsHonest(feed, store);
    AllStaticPagesEnd(feed, store, cursor, limit, pages);
    ExactCursorIsExact(feed, r, x);
    ReachedIsReturned(feed, stores, cursor, limit, pages, x);
  }

  lemma ReachedIsReturned(feed: Feed, stores: seq<seq<Row>>, cursor: Option<Mark>, limit: nat, pages: seq<Page>, x: Row)
    requires Linked(feed, stores, cursor, limit, pages) && Complete(pages) && Throughout(stores, x) && Wanted(feed, cursor)(x)
    requires forall b :: b in Ends(pages) ==> ShowsExactly(feed, b)
    ensures x in Items(pages)
  {
    forall b | b in Ends(pages) ensures ShowsNoLater(feed, b) && Reached(feed, b, x) {
      ExactCursorIsExact(feed, b, x);
    }
    OnPageIff(feed, stores, cursor, limit, pages, x);
  }

  /** A row that was on a page and is now behind that page's cursor comes again. */
  lemma MovedComesAgain(feed: Feed, before: seq<Row>, after: seq<Row>, all: seq<Row>, k: nat, pages: seq<Page>, moved: Row)
    requires Exact(feed, after) && moved in after && k + 1 < |all| && ShowsExactly(feed, all[k])
    requires moved.id == all[k].id && Precedes(feed, all[k], moved)
    requires StartsFull(feed, ChangedOnce(before, after), all, k + 1, pages)
    ensures !DistinctIds(Items(pages))
  {
    assert ChangedOnce(before, after)[1..] == Repeat(after, |after| + 1);
    ReturnedLater(feed, after, all[k], moved, k + 1, pages[1..]);
    assert all[..k + 1][k] == all[k];
    ComesTwice(pages[0].items, Items(pages[1..]), all[k], moved);
  }

  lemma ComesTwice(first: seq<Row>, rest: seq<Row>, r: Row, moved: Row)
    requires r in first && moved in rest && r.id == moved.id
    ensures !DistinctIds(first + rest)
  {
    var i := PlaceOf(first, r);
    var j := PlaceOf(rest, moved);
    assert (first + rest)[i] == r && (first + rest)[|first| + j] == moved;
  }

  lemma UnmovedComesOnce(feed: Feed, before: seq<Row>, after: seq<Row>, limit: nat, pages: seq<Page>)
    requires Exact(feed, before) && Exact(feed, after) && Linked(feed, ChangedOnce(before, after), None, limit, pages)
    requires forall r, moved :: NotLast(feed, before, r) && moved in after && moved.id == r.id ==> !Precedes(feed, r, moved)
    ensures DistinctIds(Items(pages))
  {
    var stores := ChangedOnce(before, after);
    ExactEnds(feed, stores, None, limit, pages);
    PagesAreSorted(feed, stores, None, limit, pages);
    OrderIsStrict(feed);
    forall i: nat, j: nat | i < j < |Items(pages)| ensures Items(pages)[i].id != Items(pages)[j].id {
      var x, y := Items(pages)[i], Items(pages)[j];
      assert Order(feed)(x, y);
      var p, q := OnePageOrApart(feed, stores, None, limit, pages, x, y);
      ApartAreDifferent(feed, before, after, x, y, p, q);
    }
  }

  lemma ApartAreDifferent(feed: Feed, before: seq<Row>, after: seq<Row>, x: Row, y: Row, p: nat, q: nat)
    requires Distinct(before) && Distinct(after) && Precedes(feed, x, y)
    requires OnePage(ChangedOnce(before, after), x, y, p) || Apart(feed, ChangedOnce(before, after), x, y, p, q)
    requires NotLast(feed, before, x) && y in after && y.id == x.id ==> !Precedes(feed, x, y)
    ensures x.id != y.id
  {
    NotBoth(feed, x, x);
    var stores := ChangedOnce(before, after);
    assert stores[0] == before && forall k :: 0 < k < |stores| ==> stores[k] == after;
  }

  /** Whatever the page size, no id is returned twice. */
  ghost predicate NoIdTwice(feed: Feed, stores: seq<seq<Row>>) {
    forall limit: nat :: limit >= 1 ==> DistinctIds(Walk(feed, stores, None, limit))
  }

  lemma TwiceAt(feed: Feed, stores: seq<seq<Row>>, limit: nat)
    requires limit >= 1 && !DistinctIds(Walk(feed, stores, None, limit))
    ensures !NoIdTwice(feed, stores)
  {
  }

  lemma MovedIsTwice(feed: Feed, before: seq<Row>, after: seq<Row>, r: Row, moved: Row, k: nat)
    requires Exact(feed, before) && Exact(feed, after) && r in before && moved in after
    requires k + 1 < |InOrder(feed, before)| == |before| && InOrder(feed, before)[k] == r
    requires moved.id == r.id && Precedes(feed, r, moved)
    ensures !NoIdTwice(feed, ChangedOnce(before, after))
  {
    MovedIsTwiceAt(feed, before, after, r, moved, k);
    TwiceAt(feed, ChangedOnce(before, after), k + 1);
  }

  lemma MovedIsTwiceAt(feed: Feed, before: seq<Row>, after: seq<Row>, r: Row, moved: Row, k: nat)
    requires Exact(feed, before) && Exact(feed, after) && r in before && moved in after
    requires k + 1 < |InOrder(feed, before)| == |before| && InOrder(feed, before)[k] == r
    requires moved.id == r.id && Precedes(feed, r, moved)
    ensures !DistinctIds(Walk(feed, ChangedOnce(before, after), None, k + 1))
  {
    assert ChangedOnce(before, after)[0] == before;
    var pages := FullPagesOf(feed, ChangedOnce(before, after), k + 1);
    MovedComesAgain(feed, before, after, InOrder(feed, before), k, pages, moved);
  }

  /** With exact whole-second cursors and one change of the table during the walk, no id comes twice for
      any page size exactly when the change moves no row down the order, the last one aside. */
  lemma NoIdTwiceIffNoneMovesDown(feed: Feed, before: seq<Row>, after: seq<Row>)
    requires Exact(feed, before) && Exact(feed, after)
    ensures NoIdTwice(feed, ChangedOnce(before, after))
            <==> (forall r, moved :: NotLast(feed, before, r) && moved in after && moved.id == r.id ==> !Precedes(feed, r, moved))
  {
    if r, moved :| NotLast(feed, before, r) && moved in after && moved.id == r.id && Precedes(feed, r, moved) {
      var k := Place(feed, before, r);
      MovedIsTwice(feed, before, after, r, moved, k);
    } else {
      forall limit: nat | limit >= 1 ensures DistinctIds(Walk(feed, ChangedOnce(before, after), None, limit)) {
        var pages := PagesOf(feed, ChangedOnce(before, after), None, limit);
        UnmovedComesOnce(feed, before, after, limit, pages);
      }
    }
  }

  // ---- Insertions only ----

  /** What a request finds, every later one finds as well. */
  ghost predicate OnlyInserts(stores: seq<seq<Row>>) {
    forall k, l, x :: 0 <= k < l < |stores| && x in stores[k] ==> x in stores[l]
  }

  lemma InsertedIsUnmoved(feed: Feed, stores: seq<seq<Row>>, x: Row, y: Row, p: nat, q: nat)
    requires Keyed(stores) && OnlyInserts(stores) && Precedes(feed, x, y)
    requires OnePage(stores, x, y, p) || Apart(feed, stores, x, y, p, q)
    ensures x.id != y.id
  {
    NotBoth(feed, x, x);
    if OnePage(stores, x, y, p) {
      assert Distinct(stores[p]);
    } else {
      assert x in stores[q] && y in stores[q] && Distinct(stores[q]);
    }
  }

  lemma InsertsRepeatNothing(feed: Feed, stores: seq<seq<Row>>, limit: nat, pages: seq<Page>)
    requires Keyed(stores) && OnlyInserts(stores) && Linked(feed, stores, None, limit, pages) && HonestEnds(feed, pages)
    ensures DistinctIds(Items(pages))
  {
    PagesAreSorted(feed, stores, None, limit, pages);
    OrderIsStrict(feed);
    forall i: nat, j: nat | i < j < |Items(pages)| ensures Items(pages)[i].id != Items(pages)[j].id {
      var x, y := Items(pages)[i], Items(pages)[j];
      assert Order(feed)(x, y);
      var p, q := OnePageOrApart(feed, stores, None, limit, pages, x, y);
      InsertedIsUnmoved(feed, stores, x, y, p, q);
    }
  }

  /** When rows are only inserted during a walk and its pages end in rows that show their exact position,
      the walk returns no id twice, and every row of the table it started on exactly once. */
  lemma InsertsDisturbNothing(feed: Feed, stores: seq<seq<Row>>, limit: nat)
    requires limit >= 1 && Finishes(feed, stores, None, limit) && Keyed(stores) && OnlyInserts(stores)
    requires forall b :: b in Boundaries(feed, stores, None, limit) ==> ShowsExactly(feed, b)
    ensures DistinctIds(Walk(feed, stores, None, limit))
    ensures stores != [] && forall x :: x in stores[0] ==> x in Walk(feed, stores, None, limit)
  {
    var pages := PagesOf(feed, stores, None, limit);
    forall b | b in Ends(pages) ensures ShowsNoLater(feed, b) {
      ExactCursorIsExact(feed, b, b);
    }
    InsertsRepeatNothing(feed, stores, limit, pages);
    forall x | x in stores[0] ensures x in Items(pages) {
      ReachedIsReturned(feed, stores, None, limit, pages, x);
    }
  }
}
