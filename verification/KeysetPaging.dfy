/** The feeds that are read page by page behind a cursor (packages/db/findings.go,
    packages/db/alert_delivery.go, packages/db/shadow_exit_feed.go,
    packages/db/first_connection_feed.go). Times are nanoseconds. */
module KeysetPaging {
  import opened Text
  import opened Sorting
  import AlertDispatch

  datatype Feed = Findings | Inbox | ShadowExits | LatestConnections | ScoredConnections

  /** What a feed's query orders a row by, and the time and score the row's item shows: the payload's own
      observation time where a snapshot feed finds one there, the column's otherwise, and the payload's
      score where it is a number, which the query reads from text as well. */
  datatype Row = Row(score: int, observedAt: int, id: string, shownAt: int, shownScore: int)

  /** What a cursor says: the score and the time the last item showed, the time in whole seconds, and its id. */
  datatype Mark = Mark(score: int, at: int, id: string)

  function Seconds(t: int): (s: int)
    ensures s <= t < s + AlertDispatch.SECOND
  {
    AlertDispatch.Truncate(t, AlertDispatch.SECOND)
  }

  predicate WholeSeconds(t: int) { Seconds(t) == t }

  function MarkOf(feed: Feed, row: Row): Mark {
    Mark(if feed == ScoredConnections then row.shownScore else 0, Seconds(row.shownAt), row.id)
  }

  predicate IdAfter(feed: Feed, id: string, other: string) {
    if feed == Inbox then StringLess(id, other) else StringLess(other, id)
  }

  /** The query's ORDER BY. */
  predicate Precedes(feed: Feed, a: Row, b: Row) {
    if feed == ScoredConnections && a.score != b.score then a.score > b.score
    else a.observedAt > b.observedAt || (a.observedAt == b.observedAt && IdAfter(feed, b.id, a.id))
  }

  /** The query's condition on rows behind the cursor. */
  predicate Behind(feed: Feed, mark: Mark, row: Row) {
    if feed == ScoredConnections && row.score != mark.score then row.score < mark.score
    else row.observedAt < mark.at || (row.observedAt == mark.at && IdAfter(feed, row.id, mark.id))
  }

  function Order(feed: Feed): (Row, Row) -> bool {
    (a: Row, b: Row) => Precedes(feed, a, b)
  }

  function Wanted(feed: Feed, cursor: Option<Mark>): Row -> bool {
    row => cursor.None? || Behind(feed, cursor.value, row)
  }

  /** The limit a feed reads with. */
  function PageLimit(feed: Feed, requested: int): (limit: nat)
    ensures 1 <= limit <= if feed == Inbox then 100 else 50
    ensures 1 <= requested <= 50 ==> limit == requested
    ensures requested <= 0 ==> limit == if feed == Inbox then 50 else 20
    ensures requested > 100 ==> limit == 50
  {
    if feed == Inbox then (if requested <= 0 || requested > 100 then 50 else requested)
    else if requested <= 0 then 20
    else if requested > 50 then 50
    else requested
  }

  datatype Page = Page(items: seq<Row>, next: Option<Mark>)

  /** The query's rows, one more than the limit when there are so many. */
  function Fetched(feed: Feed, store: seq<Row>, cursor: Option<Mark>, limit: nat): seq<Row> {
    var found := Sort(Order(feed), Filter(Wanted(feed, cursor), store));
    if |found| > limit then found[..limit + 1] else found
  }

  function PageOf(feed: Feed, store: seq<Row>, cursor: Option<Mark>, limit: nat): Page
    requires limit >= 1
  {
    var rows := Fetched(feed, store, cursor, limit);
    if |rows| > limit then Page(rows[..limit], Some(MarkOf(feed, rows[limit - 1]))) else Page(rows, None)
  }

  /** Following the cursors: the pages, given the table as each request finds it. */
  function Pages(feed: Feed, stores: seq<seq<Row>>, cursor: Option<Mark>, limit: nat): seq<Page>
    requires limit >= 1
  {
    if stores == [] then []
    else
      var page := PageOf(feed, stores[0], cursor, limit);
      [page] + if page.next.Some? then Pages(feed, stores[1..], page.next, limit) else []
  }

  function Items(pages: seq<Page>): seq<Row> {
    if pages == [] then [] else pages[0].items + Items(pages[1..])
  }

  /** The last rows of the pages that have a next one. */
  function Ends(pages: seq<Page>): seq<Row> {
    if pages == [] then []
    else (if pages[0].next.Some? && pages[0].items != [] then [pages[0].items[|pages[0].items| - 1]] else []) + Ends(pages[1..])
  }

  /** The last page has no next one. */
  predicate Complete(pages: seq<Page>) {
    pages != [] && pages[|pages| - 1].next.None?
  }

  /** What the pages return in all. */
  function Walk(feed: Feed, stores: seq<seq<Row>>, cursor: Option<Mark>, limit: nat): seq<Row>
    requires limit >= 1
  {
    Items(Pages(feed, stores, cursor, limit))
  }

  predicate Finishes(feed: Feed, stores: seq<seq<Row>>, cursor: Option<Mark>, limit: nat)
    requires limit >= 1
  {
    Complete(Pages(feed, stores, cursor, limit))
  }

  function Boundaries(feed: Feed, stores: seq<seq<Row>>, cursor: Option<Mark>, limit: nat): seq<Row>
    requires limit >= 1
  {
    Ends(Pages(feed, stores, cursor, limit))
  }

  // ---- The orders ----

  /** Ids are unique within a store. */
  ghost predicate Distinct(store: seq<Row>) {
    forall i, j :: 0 <= i < j < |store| ==> store[i].id != store[j].id
  }

  lemma IdOrder(feed: Feed, a: string, b: string, c: string)
    ensures !IdAfter(feed, a, a)
    ensures IdAfter(feed, b, a) && IdAfter(feed, c, b) ==> IdAfter(feed, c, a)
    ensures a != b ==> IdAfter(feed, a, b) || IdAfter(feed, b, a)
    ensures !(IdAfter(feed, a, b) && IdAfter(feed, b, a))
  {
    StringLessIsStrict(a, b, c);
    StringLessIsStrict(c, b, a);
    StringLessIsStrict(a, b, a);
  }

  lemma OrderIsStrict(feed: Feed)
    ensures StrictOrder(Order(feed))
  {
    forall a, b, c ensures !Order(feed)(a, a) && (Order(feed)(a, b) && Order(feed)(b, c) ==> Order(feed)(a, c)) {
      IdOrder(feed, a.id, b.id, c.id);
    }
  }

  /** The cursor and the order fit: what is behind a row's cursor stays so further down. */
  lemma BehindIsClosed(feed: Feed, mark: Mark, b: Row, c: Row)
    requires Behind(feed, mark, b) && Precedes(feed, b, c)
    ensures Behind(feed, mark, c)
  {
    IdOrder(feed, mark.id, b.id, c.id);
  }

  /** A row whose cursor cannot reach back: its item shows a lower score, or the same one and no later
      second than its column. */
  predicate ShowsNoLater(feed: Feed, row: Row) {
    if feed == ScoredConnections && row.shownScore != row.score then row.shownScore < row.score
    else Seconds(row.shownAt) <= row.observedAt
  }

  lemma BehindFollows(feed: Feed, a: Row, b: Row)
    requires ShowsNoLater(feed, a) && Behind(feed, MarkOf(feed, a), b)
    ensures Precedes(feed, a, b)
  {
  }

  /** And otherwise it does: a row is behind its own cursor exactly when its item shows a higher score,
      or the same one and a later second. */
  lemma BehindItselfIff(feed: Feed, a: Row)
    ensures Behind(feed, MarkOf(feed, a), a) <==> !ShowsNoLater(feed, a)
  {
    IdOrder(feed, a.id, a.id, a.id);
  }

  // ---- A page ----

  lemma FilteredRowsCompare(feed: Feed, store: seq<Row>, p: Row -> bool)
    requires Distinct(store)
    ensures Comparable(Order(feed), Filter(p, store))
  {
    var found := Filter(p, store);
    assert forall i, j :: 0 <= i < j < |store| ==> store[i] != store[j];
    FilterKeepsDistinct(p, store);
    forall i, j | 0 <= i < j < |found| ensures Order(feed)(found[i], found[j]) || Order(feed)(found[j], found[i]) {
      assert found[i] in store && found[j] in store;
      IdOrder(feed, found[i].id, found[j].id, "");
    }
  }

  lemma FetchedIs(feed: Feed, store: seq<Row>, cursor: Option<Mark>)
    requires Distinct(store)
    ensures var found := Sort(Order(feed), Filter(Wanted(feed, cursor), store));
            Sorted(Order(feed), found) && forall x :: x in found <==> x in store && Wanted(feed, cursor)(x)
  {
    var p := Wanted(feed, cursor);
    var found := Filter(p, store);
    FilteredRowsCompare(feed, store, p);
    OrderIsStrict(feed);
    SortIsSorted(Order(feed), found);
    SortIsPermutation(Order(feed), found);
  }

  /** Rows behind the cursor, in order, no more than the limit; one left out comes after all of them, and
      then there is a next page, from the last row's mark. */
  ghost predicate IsPage(feed: Feed, store: seq<Row>, cursor: Option<Mark>, limit: nat, page: Page) {
    && Sorted(Order(feed), page.items) && |page.items| <= limit
    && (forall x :: x in page.items ==> x in store && Wanted(feed, cursor)(x))
    && (page.next.Some? ==> 0 < limit == |page.items| && page.next == Some(MarkOf(feed, page.items[limit - 1])))
    && (page.next.Some? ==> exists x :: x in store && Wanted(feed, cursor)(x) && x !in page.items)
    && (forall x :: x in store && Wanted(feed, cursor)(x) && x !in page.items ==>
         page.next.Some? && Precedes(feed, page.items[limit - 1], x))
  }

  lemma PageIs(feed: Feed, store: seq<Row>, cursor: Option<Mark>, limit: nat)
    requires Distinct(store) && limit >= 1
    ensures IsPage(feed, store, cursor, limit, PageOf(feed, store, cursor, limit))
  {
    FetchedIs(feed, store, cursor);
    OrderIsStrict(feed);
    var found := Sort(Order(feed), Filter(Wanted(feed, cursor), store));
    var page := PageOf(feed, store, cursor, limit);
    if |found| > limit {
      assert page.items == found[..limit];
      assert found[limit] in found && forall i :: 0 <= i < limit ==> Order(feed)(found[i], found[limit]);
      forall x | x in found && x !in page.items ensures Precedes(feed, page.items[limit - 1], x) {
        var k :| 0 <= k < |found| && found[k] == x;
        assert Order(feed)(found[limit - 1], found[k]);
      }
    }
  }

  /** The scan loop and the trim that the readers share. Between them they cut the table at the page: what
      is on it comes before everything else behind the cursor, and a next page is announced exactly when
      something is left. */
  method ReadPage(feed: Feed, store: seq<Row>, cursor: Option<Mark>, requested: int) returns (page: Page)
    ensures page == PageOf(feed, store, cursor, PageLimit(feed, requested))
    ensures Distinct(store) ==> IsPage(feed, store, cursor, PageLimit(feed, requested), page)
  {
    var limit := PageLimit(feed, requested);
    var rows := Fetched(feed, store, cursor, limit);
    var items: seq<Row> := [];
    for i := 0 to |rows|
      invariant items == rows[..i]
    {
      items := items + [rows[i]];
    }
    page := Page(items, None);
    if |page.items| > limit {
      var last := page.items[limit - 1];
      page := Page(page.items[..limit], Some(MarkOf(feed, last)));
    }
    if Distinct(store) {
      PageIs(feed, store, cursor, limit);
    }
  }
}
