/** The wallet graph reader and the first-connection feed reader as read-through caches
    (packages/db/wallet_graph_cache.go, packages/db/wallet_graph_snapshot.go,
    packages/db/first_connection_feed_cache.go). */
module GraphCaches {
  import opened Text
  import opened ReadThroughCache

  // ---- Wallet graphs ----

  const MAX_COUNTERPARTIES := 25

  datatype Ref = Ref(chain: string, address: string)

  /** A query as `BuildWalletGraphQuery` makes it: the ref is normalised. */
  datatype GraphQuery = GraphQuery(ref: Ref, depthRequested: nat, depthResolved: nat, max: nat)

  /** A graph without the stamp that says where it was served from. */
  datatype Graph = Graph(ref: Ref, depthRequested: nat, depthResolved: nat, content: string)

  datatype GraphKey = GraphKey(chain: string, address: string, depthRequested: nat, max: nat)
  datatype SnapKey = SnapKey(ref: Ref, max: nat)

  predicate Normal(q: GraphQuery) { Trimmed(q.ref.address) }

  /** `BuildWalletGraphCacheKey`. */
  function KeyOf(q: GraphQuery): GraphKey {
    GraphKey(q.ref.chain, Lower(Trim(q.ref.address)), q.depthRequested, q.max)
  }

  /** `IsCanonicalWalletGraphQuery`. */
  predicate IsCanonical(q: GraphQuery) { q.depthResolved == 1 && q.max == MAX_COUNTERPARTIES }

  /** Where the snapshot table keeps a query's graph. */
  function SnapKeyOf(q: GraphQuery): SnapKey { SnapKey(q.ref, q.max) }

  /** What `ReadWalletGraphSnapshot` sets on the graph it found. */
  function Restamped(g: Graph, q: GraphQuery): Graph {
    Graph(q.ref, q.depthRequested, q.depthResolved, g.content)
  }

  function GraphKeys(): Keys<GraphQuery, GraphKey, SnapKey, Graph> {
    Keys((q: GraphQuery) => true, KeyOf, IsCanonical, SnapKeyOf, Restamped)
  }

  /** The loader: the query's ref and depths, and what the graph database holds for the ref at that
      resolved depth and size. */
  function Loader(content: (Ref, nat, nat) -> string): GraphQuery -> Graph {
    (q: GraphQuery) => Graph(q.ref, q.depthRequested, q.depthResolved, content(q.ref, q.depthResolved, q.max))
  }

  /** Whatever the graphs are, the graph cache is transparent exactly for sets of queries in which no
      two share a cache key: the key leaves out the resolved depth and the case of the address, and
      nothing else. */
  lemma GraphCacheTransparentIff(content: (Ref, nat, nat) -> string, asked: GraphQuery -> bool)
    ensures Transparent(GraphKeys(), Loader(content), asked)
            <==> forall p, q :: asked(p) && asked(q) && KeyOf(p) == KeyOf(q) ==> p == q
  {
    var k, load := GraphKeys(), Loader(content);
    TransparentIffCoherent(k, load, asked);
    if Coherent(k, load, asked, asked) {
      forall p, q | asked(p) && asked(q) && KeyOf(p) == KeyOf(q) ensures p == q {
        assert k.key(p) == k.key(q) && k.cached(p) && k.cached(q);
        assert load(p) == load(q);
      }
    }
  }

  /** Which pairs those are. */
  lemma SharedKeyIff(p: GraphQuery, q: GraphQuery)
    requires Normal(p) && Normal(q)
    ensures KeyOf(p) == KeyOf(q)
            <==> p.ref.chain == q.ref.chain && Lower(p.ref.address) == Lower(q.ref.address)
                 && p.depthRequested == q.depthRequested && p.max == q.max
  {
    TrimOfTrimmed(p.ref.address);
    TrimOfTrimmed(q.ref.address);
  }

  /** A reader resolved to depth 1 and one resolved to depth 2 ask for the same depth: the second is
      answered with the first one's graph. */
  lemma ResolvedDepthsCollide(content: (Ref, nat, nat) -> string, ref: Ref, max: nat)
    ensures var shallow, deep := GraphQuery(ref, 2, 1, max), GraphQuery(ref, 2, 2, max);
            Answer(GraphKeys(), AfterRead(GraphKeys(), Empty(Loader(content)), shallow), deep) == Loader(content)(shallow)
            && Loader(content)(shallow) != Loader(content)(deep)
  {
    var shallow, deep := GraphQuery(ref, 2, 1, max), GraphQuery(ref, 2, 2, max);
    assert GraphKeys().key(shallow) == GraphKeys().key(deep);
  }

  // ---- Invalidation ----

  /** `BuildWalletGraphSnapshotQuery`. */
  function SnapshotQuery(ref: Ref): GraphQuery { GraphQuery(ref, 1, 1, MAX_COUNTERPARTIES) }

  /** `InvalidateWalletGraphSnapshot` after a change of the source. */
  function Invalidate(load: GraphQuery -> Graph, ref: Ref): Event<GraphQuery, GraphKey, SnapKey, Graph> {
    Change(load, {KeyOf(SnapshotQuery(ref))}, {SnapKeyOf(SnapshotQuery(ref))})
  }

  type Content = (Ref, nat, nat) -> string

  /** What happens around the graph reader: a read, a cache entry that lapses, or a change of what the
      graph database holds for a wallet, followed by the invalidation of that wallet. */
  datatype Step = Ask(q: GraphQuery) | Lapse(key: GraphKey) | Update(content: Content, ref: Ref)

  function EventOf(step: Step): Event<GraphQuery, GraphKey, SnapKey, Graph> {
    match step
    case Ask(q) => Read(q)
    case Lapse(key) => Expire(key)
    case Update(content, ref) => Invalidate(Loader(content), ref)
  }

  /** The stores and the loader after the steps, from empty stores. */
  function After(content: Content, steps: seq<Step>): World<GraphQuery, GraphKey, SnapKey, Graph> {
    if steps == [] then Empty(Loader(content))
    else Do(GraphKeys(), After(content, steps[..|steps| - 1]), EventOf(steps[|steps| - 1]))
  }

  function ContentAfter(content: Content, steps: seq<Step>): Content {
    if steps == [] then content
    else if steps[|steps| - 1].Update? then steps[|steps| - 1].content
    else ContentAfter(content, steps[..|steps| - 1])
  }

  ghost predicate DiffersOnlyAt(content: Content, later: Content, ref: Ref) {
    forall r, depth, max :: r != ref ==> later(r, depth, max) == content(r, depth, max)
  }

  /** Only asked queries are read, and each update changes the graph of the wallet it invalidates. */
  ghost predicate Proper(content: Content, asked: GraphQuery -> bool, steps: seq<Step>) {
    steps == [] ||
    var before := steps[..|steps| - 1];
    && Proper(content, asked, before)
    && match steps[|steps| - 1] {
         case Ask(q) => asked(q)
         case Lapse(key) => true
         case Update(later, ref) => DiffersOnlyAt(ContentAfter(content, before), later, ref)
       }
  }

  /** Every read of the query, after any steps, answers what the graph database then holds. */
  ghost predicate AlwaysFresh(asked: GraphQuery -> bool, q: GraphQuery) {
    forall content: Content, steps: seq<Step> ::
      Proper(content, asked, steps) ==> Answer(GraphKeys(), After(content, steps), q) == Loader(ContentAfter(content, steps))(q)
  }

  /** The cache key of the query is the one that an invalidation of its wallet deletes. */
  predicate Invalidated(q: GraphQuery) {
    q.depthRequested == 1 && q.max == MAX_COUNTERPARTIES
  }

  ghost predicate OwnKey(asked: GraphQuery -> bool, q: GraphQuery) {
    forall p :: asked(p) && KeyOf(p) == KeyOf(q) ==> p == q
  }

  function Only(q: GraphQuery): GraphQuery -> bool { (p: GraphQuery) => p == q }

  lemma OwnKeyIsCoherent(content: Content, asked: GraphQuery -> bool, q: GraphQuery)
    requires OwnKey(asked, q)
    ensures Coherent(GraphKeys(), Loader(content), Only(q), asked)
  {
  }

  lemma {:induction false} StepsKeepFresh(content: Content, asked: GraphQuery -> bool, steps: seq<Step>, q: GraphQuery)
    requires Invalidated(q) && OwnKey(asked, q) && Proper(content, asked, steps)
    ensures Fresh(GraphKeys(), After(content, steps), Only(q))
    ensures forall p :: After(content, steps).load(p) == Loader(ContentAfter(content, steps))(p)
    ensures Coherent(GraphKeys(), After(content, steps).load, Only(q), asked)
  {
    if steps == [] {
      OwnKeyIsCoherent(content, asked, q);
    } else {
      var n := |steps| - 1;
      StepsKeepFresh(content, asked, steps[..n], q);
      if steps[n].Update? {
        OwnKeyIsCoherent(steps[n].content, asked, q);
      }
      EventKeepsFresh(GraphKeys(), After(content, steps[..n]), Only(q), asked, EventOf(steps[n]));
    }
  }

  /** Two reads that tell two queries with one key apart. */
  lemma SharedKeyIsNotFresh(asked: GraphQuery -> bool, p: GraphQuery, q: GraphQuery)
    requires asked(p) && KeyOf(p) == KeyOf(q) && p != q
    ensures !AlwaysFresh(asked, q)
  {
    var content: Content := (r: Ref, depth: nat, max: nat) => "";
    var steps := [Ask(p)];
    assert steps[..0] == [] && Proper(content, asked, []);
    assert After(content, []) == Empty(Loader(content)) && ContentAfter(content, []) == content;
    assert Proper(content, asked, steps) && ContentAfter(content, steps) == content;
    assert After(content, steps) == AfterRead(GraphKeys(), Empty(Loader(content)), p);
    assert Answer(GraphKeys(), After(content, steps), q) == Loader(content)(p);
  }

  /** A read, and an update whose invalidation misses the key of the read. */
  lemma MissedKeyIsNotFresh(asked: GraphQuery -> bool, q: GraphQuery)
    requires asked(q) && !Invalidated(q)
    ensures !AlwaysFresh(asked, q)
  {
    var content: Content := (r: Ref, depth: nat, max: nat) => "";
    var later: Content := (r: Ref, depth: nat, max: nat) => if r == q.ref then "new" else "";
    var asking := [Ask(q)];
    var steps := [Ask(q), Update(later, q.ref)];
    assert asking[..0] == [] && steps[..1] == asking && Proper(content, asked, []);
    assert Proper(content, asked, asking) && ContentAfter(content, asking) == content;
    assert DiffersOnlyAt(content, later, q.ref);
    assert Proper(content, asked, steps) && ContentAfter(content, steps) == later;
    var w := After(content, asking);
    assert After(content, asking[..0]) == Empty(Loader(content));
    assert w == AfterRead(GraphKeys(), Empty(Loader(content)), q) && w.cache[KeyOf(q)] == Loader(content)(q);
    assert KeyOf(q) != KeyOf(SnapshotQuery(q.ref));
    assert Answer(GraphKeys(), After(content, steps), q) == Loader(content)(q);
    assert Loader(content)(q).content == "" && Loader(later)(q).content == "new";
  }

  /** Over all runs of reads, lapses and invalidated changes, the reads of a query are always fresh exactly
      when it asks for depth 1 and the default size, so that invalidation deletes its key, and no other
      query that is asked shares its key. */
  lemma AlwaysFreshIff(asked: GraphQuery -> bool, q: GraphQuery)
    requires asked(q)
    ensures AlwaysFresh(asked, q) <==> Invalidated(q) && OwnKey(asked, q)
  {
    if !Invalidated(q) {
      MissedKeyIsNotFresh(asked, q);
    } else if p :| asked(p) && KeyOf(p) == KeyOf(q) && p != q {
      SharedKeyIsNotFresh(asked, p, q);
    } else {
      forall content: Content, steps: seq<Step> | Proper(content, asked, steps)
        ensures Answer(GraphKeys(), After(content, steps), q) == Loader(ContentAfter(content, steps))(q)
      {
        StepsKeepFresh(content, asked, steps, q);
        FreshAnswers(GraphKeys(), After(content, steps), Only(q), q);
      }
    }
  }

  /** Queries resolve to no more depth than they ask for, and no two name one wallet in two casings. */
  ghost predicate WellBehaved(asked: GraphQuery -> bool) {
    && (forall q :: asked(q) ==> Normal(q) && 1 <= q.depthResolved <= q.depthRequested)
    && (forall p, q :: asked(p) && asked(q) && p.ref.chain == q.ref.chain && Lower(p.ref.address) == Lower(q.ref.address) ==> p.ref == q.ref)
  }

  /** The promise of the invalidation: with one casing for each wallet, the canonical depth-1 graph is fresh
      at every read of every run, whatever other graphs are read in between. */
  lemma CanonicalReadsAreFresh(asked: GraphQuery -> bool, ref: Ref)
    requires WellBehaved(asked) && asked(SnapshotQuery(ref))
    ensures AlwaysFresh(asked, SnapshotQuery(ref))
  {
    forall p | asked(p) && KeyOf(p) == KeyOf(SnapshotQuery(ref)) ensures p == SnapshotQuery(ref) {
      SharedKeyIff(p, SnapshotQuery(ref));
    }
    AlwaysFreshIff(asked, SnapshotQuery(ref));
  }

  // ---- The first-connection feed ----

  /** A feed query. `cursor` is whether any part of a cursor is set. */
  datatype FeedQuery = FeedQuery(cursor: string, sort: string, limit: int)

  datatype FeedKey = FeedKey(sort: string, limit: int)

  function EffectiveLimit(limit: int): int { if limit <= 0 then 20 else limit }

  /** The reader's switch: every sort but the score is the latest. */
  predicate ByScore(sort: string) { sort == "score" }

  function FeedKeyOf(q: FeedQuery): FeedKey {
    FeedKey(if q.sort == "" then "latest" else q.sort, EffectiveLimit(q.limit))
  }

  function FeedKeys<V>(): Keys<FeedQuery, FeedKey, (), V> {
    Keys((q: FeedQuery) => q.cursor == "", FeedKeyOf, (q: FeedQuery) => false, (q: FeedQuery) => (), (v: V, q: FeedQuery) => v)
  }

  function FeedLoader<V>(page: (string, bool, int) -> V): FeedQuery -> V {
    (q: FeedQuery) => page(q.cursor, ByScore(q.sort), EffectiveLimit(q.limit))
  }

  /** The feed cache is always transparent: pages behind a cursor are not cached, and the keys of the
      others tell apart all that the reader does. */
  lemma FeedCacheIsTransparent<V(!new)>(page: (string, bool, int) -> V, asked: FeedQuery -> bool)
    ensures Transparent(FeedKeys<V>(), FeedLoader(page), asked)
  {
    var k, load := FeedKeys<V>(), FeedLoader(page);
    forall p, q | asked(p) && asked(q) && k.cached(p) && k.cached(q) && k.key(p) == k.key(q) ensures load(p) == load(q) {
      SortsAgree(p.sort, q.sort);
    }
    TransparentIffCoherent(k, load, asked);
  }

  lemma SortsAgree(a: string, b: string)
    requires (if a == "" then "latest" else a) == (if b == "" then "latest" else b)
    ensures ByScore(a) == ByScore(b)
  {
    assert "latest"[0] != "score"[0];
  }
}
