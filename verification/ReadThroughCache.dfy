/** A reader in front of a loader, with a cache and, for some queries, a snapshot table behind the
    cache (packages/db/wallet_graph_cache.go, packages/db/first_connection_feed_cache.go). What a
    query is, its keys and the loader are parameters; `GraphCaches` gives them. */
module ReadThroughCache {
  import opened Text

  /** How queries are kept: whether one goes through the cache at all, its cache key, whether the
      snapshot table serves it, its snapshot key, and what reading its snapshot puts into the answer. */
  datatype Keys<!Q, !K, !S, !V> = Keys(cached: Q -> bool, key: Q -> K, canonical: Q -> bool, snapKey: Q -> S, restamp: (V, Q) -> V)

  /** The source as the loader answers now, and the two stores. */
  datatype World<!Q, !K, !S, !V> = World(load: Q -> V, cache: map<K, V>, snapshots: map<S, V>)

  /** What a read returns. */
  function Answer<Q(!new), K(!new), S(!new), V>(k: Keys<Q, K, S, V>, w: World<Q, K, S, V>, q: Q): V {
    if !k.cached(q) then w.load(q)
    else if k.key(q) in w.cache then w.cache[k.key(q)]
    else if k.canonical(q) && k.snapKey(q) in w.snapshots then k.restamp(w.snapshots[k.snapKey(q)], q)
    else w.load(q)
  }

  /** What a read leaves in the stores. */
  function AfterRead<Q(!new), K(!new), S(!new), V>(k: Keys<Q, K, S, V>, w: World<Q, K, S, V>, q: Q): World<Q, K, S, V> {
    if !k.cached(q) || k.key(q) in w.cache then w
    else
      var filled := w.(cache := w.cache[k.key(q) := Answer(k, w, q)]);
      if k.canonical(q) && k.snapKey(q) !in w.snapshots
      then filled.(snapshots := w.snapshots[k.snapKey(q) := w.load(q)])
      else filled
  }

  /** A read, an entry that expires, or a change of the source with the keys that are then deleted. */
  datatype Event<!Q, !K, !S, !V> =
    | Read(q: Q)
    | Expire(key: K)
    | Change(load: Q -> V, keys: set<K>, snaps: set<S>)

  function Do<Q(!new), K(!new), S(!new), V>(k: Keys<Q, K, S, V>, w: World<Q, K, S, V>, e: Event<Q, K, S, V>): World<Q,
      K, S, V> {
    match e
    case Read(q) => AfterRead(k, w, q)
    case Expire(key) => w.(cache := w.cache - {key})
    case Change(load, keys, snaps) => World(load, w.cache - keys, w.snapshots - snaps)
  }

  function Run<Q(!new), K(!new), S(!new), V>(k: Keys<Q, K, S, V>, w: World<Q, K, S, V>,
      events: seq<Event<Q, K, S, V>>): World<Q, K, S, V> {
    if events == [] then w else Do(k, Run(k, w, events[..|events| - 1]), events[|events| - 1])
  }

  function Empty<Q, K, S, V>(load: Q -> V): World<Q, K, S, V> {
    World(load, map[], map[])
  }

  // ---- When the answers are the loader's ----

  /** Whatever is asked, a watched query shares its cache key only with watched queries that have its
      answer, and a snapshot taken for any query and stamped for a watched one with its key is its answer. */
  ghost predicate Coherent<Q(!new), K(!new), S(!new), V>(k: Keys<Q, K, S, V>, load: Q -> V, watched: Q -> bool, asked: Q -> bool) {
    && (forall p, q :: asked(p) && watched(q) && k.cached(p) && k.cached(q) && k.key(p) == k.key(q) ==> watched(p) && load(p) == load(q))
    && (forall p, q ::
          (asked(p) && watched(q) && k.cached(p) && k.cached(q) && k.canonical(p) && k.canonical(q) && k.snapKey(p) == k.snapKey(q))
          ==> k.restamp(load(p), q) == load(q))
  }

  /** Only asked queries are read; the source stays coherent, and a change deletes the keys of every
      watched query whose answer it changes. */
  ghost predicate Allowed<Q(!new), K(!new), S(!new), V>(k: Keys<Q, K, S, V>, load: Q -> V, watched: Q -> bool, asked: Q -> bool,
      e: Event<Q, K, S, V>) {
    match e
    case Read(q) => asked(q)
    case Expire(key) => true
    case Change(later, keys, snaps) =>
      && Coherent(k, later, watched, asked)
      && forall q :: watched(q) && k.cached(q) && later(q) != load(q) ==> k.key(q) in keys && (k.canonical(q) ==> k.snapKey(q) in snaps)
  }

  ghost predicate AllowedRun<Q(!new), K(!new), S(!new), V>(k: Keys<Q, K, S, V>, w: World<Q, K, S, V>,
      watched: Q -> bool, asked: Q -> bool, events: seq<Event<Q, K, S, V>>) {
    forall i :: 0 <= i < |events| ==> Allowed(k, Run(k, w, events[..i]).load, watched, asked, events[i])
  }

  /** Every stored answer is the loader's for every watched query that would be served with it. */
  ghost predicate Fresh<Q(!new), K(!new), S(!new), V>(k: Keys<Q, K, S, V>, w: World<Q, K, S, V>, watched: Q -> bool) {
    && (forall q :: watched(q) && k.cached(q) && k.key(q) in w.cache ==> w.cache[k.key(q)] == w.load(q))
    && (forall q :: watched(q) && k.cached(q) && k.canonical(q) && k.snapKey(q) in w.snapshots ==>
          k.restamp(w.snapshots[k.snapKey(q)], q) == w.load(q))
  }

  lemma FreshAnswers<Q(!new), K(!new), S(!new), V>(k: Keys<Q, K, S, V>, w: World<Q, K, S, V>, watched: Q -> bool, q: Q)
    requires Fresh(k, w, watched) && watched(q)
    ensures Answer(k, w, q) == w.load(q)
  {
  }

  lemma EventKeepsFresh<Q(!new), K(!new), S(!new), V>(k: Keys<Q, K, S, V>, w: World<Q, K, S, V>, watched: Q -> bool, asked: Q -> bool,
      e: Event<Q, K, S, V>)
    requires Fresh(k, w, watched) && Coherent(k, w.load, watched, asked) && Allowed(k, w.load, watched, asked, e)
    ensures Fresh(k, Do(k, w, e), watched) && Coherent(k, Do(k, w, e).load, watched, asked)
  {
    if e.Read? {
      if watched(e.q) {
        FreshAnswers(k, w, watched, e.q);
      }
    }
  }

  lemma {:induction false} RunKeepsFresh<Q(!new), K(!new), S(!new), V>(k: Keys<Q, K, S, V>, w: World<Q, K, S, V>,
      watched: Q -> bool, asked: Q -> bool, events: seq<Event<Q, K, S, V>>)
    requires Fresh(k, w, watched) && Coherent(k, w.load, watched, asked) && AllowedRun(k, w, watched, asked, events)
    ensures Fresh(k, Run(k, w, events), watched) && Coherent(k, Run(k, w, events).load, watched, asked)
  {
    if events != [] {
      var n := |events| - 1;
      assert forall i :: 0 <= i < n ==> events[..n][..i] == events[..i];
      RunKeepsFresh(k, w, watched, asked, events[..n]);
      EventKeepsFresh(k, Run(k, w, events[..n]), watched, asked, events[n]);
    }
  }

  /** In every run of reads, expiries and changes followed by the deletions they call for, each watched
      read answers what the loader answers at that moment, whatever else is read. */
  lemma ReadsAreFresh<Q(!new), K(!new), S(!new), V>(k: Keys<Q, K, S, V>, load: Q -> V, watched: Q -> bool, asked: Q -> bool,
      events: seq<Event<Q, K, S, V>>, q: Q)
    requires Coherent(k, load, watched, asked) && AllowedRun(k, Empty(load), watched, asked, events) && watched(q)
    ensures Answer(k, Run(k, Empty(load), events), q) == Run(k, Empty(load), events).load(q)
  {
    RunKeepsFresh(k, Empty(load), watched, asked, events);
    FreshAnswers(k, Run(k, Empty(load), events), watched, q);
  }

  // ---- A source that stays as it is ----

  /** Reads of asked queries and expiries only. */
  ghost predicate Quiet<Q(!new), K(!new), S(!new), V>(asked: Q -> bool, events: seq<Event<Q, K, S, V>>) {
    forall i :: 0 <= i < |events| ==> !events[i].Change? && (events[i].Read? ==> asked(events[i].q))
  }

  ghost predicate Transparent<Q(!new), K(!new), S(!new), V(!new)>(k: Keys<Q, K, S, V>, load: Q -> V, asked: Q -> bool) {
    forall events: seq<Event<Q, K, S, V>>, q: Q ::
      Quiet(asked, events) && asked(q) ==> Answer(k, Run(k, Empty(load), events), q) == load(q)
  }

  lemma {:induction false} QuietRun<Q(!new), K(!new), S(!new), V>(k: Keys<Q, K, S, V>, load: Q -> V, asked: Q -> bool,
      events: seq<Event<Q, K, S, V>>)
    requires Quiet(asked, events)
    ensures Run(k, Empty(load), events).load == load
    ensures AllowedRun(k, Empty(load), asked, asked, events)
  {
    if events != [] {
      var n := |events| - 1;
      QuietRun(k, load, asked, events[..n]);
      assert forall i :: 0 <= i < n ==> events[..n][..i] == events[..i] && events[..n][i] == events[i];
    }
  }

  /** The cache is transparent, for all sequences of reads with arbitrary expiry, exactly when the
      keys of the asked queries determine their answers. */
  lemma TransparentIffCoherent<Q(!new), K(!new), S(!new), V(!new)>(k: Keys<Q, K, S, V>, load: Q -> V, asked: Q -> bool)
    ensures Transparent(k, load, asked) <==> Coherent(k, load, asked, asked)
  {
    if Coherent(k, load, asked, asked) {
      forall events: seq<Event<Q, K, S, V>>, q: Q | Quiet(asked, events) && asked(q)
        ensures Answer(k, Run(k, Empty(load), events), q) == load(q)
      {
        QuietRun(k, load, asked, events);
        ReadsAreFresh(k, load, asked, asked, events, q);
      }
    }
    if Transparent(k, load, asked) {
      forall p, q | asked(p) && asked(q) && k.cached(p) && k.cached(q)
        ensures k.key(p) == k.key(q) ==> load(p) == load(q)
        ensures k.canonical(p) && k.canonical(q) && k.snapKey(p) == k.snapKey(q) ==> k.restamp(load(p), q) == load(q)
      {
        TransparentPair(k, load, asked, p, q);
      }
    }
  }

  /** The two runs that tell: read one query and then the other, with or without the entry expiring. */
  lemma TransparentPair<Q(!new), K(!new), S(!new), V(!new)>(k: Keys<Q, K, S, V>, load: Q -> V, asked: Q -> bool, p: Q, q: Q)
    requires Transparent(k, load, asked) && asked(p) && asked(q) && k.cached(p) && k.cached(q)
    ensures k.key(p) == k.key(q) ==> load(p) == load(q)
    ensures k.canonical(p) && k.canonical(q) && k.snapKey(p) == k.snapKey(q) ==> k.restamp(load(p), q) == load(q)
  {
    var once: seq<Event<Q, K, S, V>> := [Read(p)];
    var expired: seq<Event<Q, K, S, V>> := [Read(p), Expire(k.key(q))];
    assert once[..0] == [] && expired[..1] == once;
    assert Run(k, Empty(load), once) == AfterRead(k, Empty(load), p);
    assert Quiet(asked, once) && Quiet(asked, expired);
    assert Answer(k, Run(k, Empty(load), once), q) == load(q);
    assert Answer(k, Run(k, Empty(load), expired), q) == load(q);
  }

  // ---- The reader ----

  class CachedReader<Q(!new), K(!new, ==), S(!new, ==), V> {
    const keys: Keys<Q, K, S, V>
    const load: Q -> V
    var cache: map<K, V>
    var snapshots: map<S, V>

    constructor (keys: Keys<Q, K, S, V>, load: Q -> V)
      ensures this.keys == keys && this.load == load && Stores() == Empty(load)
    {
      this.keys, this.load := keys, load;
      cache, snapshots := map[], map[];
    }

    function Stores(): World<Q, K, S, V>
      reads this
    {
      World(load, cache, snapshots)
    }

    /** `ReadWalletGraph` and `LoadFirstConnectionFeed`. */
    method ReadQuery(q: Q) returns (answer: V)
      modifies this
      ensures answer == Answer(keys, old(Stores()), q)
      ensures Stores() == AfterRead(keys, old(Stores()), q)
      // The cache comes first, then the snapshot, then the loader; what was read is kept in both stores.
      ensures keys.cached(q) && keys.key(q) in old(cache) ==> answer == old(cache)[keys.key(q)]
      ensures keys.cached(q) && keys.key(q) !in old(cache) && keys.canonical(q) && keys.snapKey(q) in old(snapshots) ==>
        answer == keys.restamp(old(snapshots)[keys.snapKey(q)], q)
      ensures !keys.cached(q) || (keys.key(q) !in old(cache) && !(keys.canonical(q) && keys.snapKey(q) in old(snapshots))) ==>
        answer == load(q)
      ensures cache == if keys.cached(q) then old(cache)[keys.key(q) := answer] else old(cache)
      ensures snapshots ==
        if keys.cached(q) && keys.key(q) !in old(cache) && keys.canonical(q) && keys.snapKey(q) !in old(snapshots)
        then old(snapshots)[keys.snapKey(q) := answer] else old(snapshots)
    {
      if !keys.cached(q) {
        return load(q);
      }
      var key := keys.key(q);
      if key in cache {
        return cache[key];
      }
      if keys.canonical(q) {
        if keys.snapKey(q) in snapshots {
          answer := keys.restamp(snapshots[keys.snapKey(q)], q);
          cache := cache[key := answer];
          return;
        }
      }
      answer := load(q);
      if keys.canonical(q) {
        snapshots := snapshots[keys.snapKey(q) := answer];
      }
      cache := cache[key := answer];
    }
  }
}
