/** The interaction and funding counters of the graph, incremented one transaction at a time
    (packages/db/transaction_graph_materializer.go). */
module InteractionGraph {
  import opened Text
  import opened IngestClaims

  datatype Direction = Inbound | Outbound | SelfTransfer | Unknown

  datatype Wallet = Wallet(chain: string, address: string)

  datatype Tx = Tx(key: TxKey, wallet: Wallet, counterparty: Option<Wallet>, direction: Direction)

  /** The counters of an INTERACTED_WITH or FUNDED_BY relationship. */
  datatype Edge = Edge(interactions: nat, inbound: nat, outbound: nat, counterparties: nat)

  /** `interacted` by (wallet, counterparty), `funded` by (counterparty, wallet). */
  datatype Graph = Graph(nodes: set<Wallet>, interacted: map<(Wallet, Wallet), Edge>, funded: map<(Wallet, Wallet), Edge>)

  const EMPTY := Graph({}, map[], map[])
  const NEW_EDGE := Edge(0, 0, 0, 0)

  /** A transaction makes an interaction unless it has no counterparty, or its canonical keys are
      equal up to letter case. */
  predicate Interacts(tx: Tx) {
    && tx.counterparty.Some?
    && Lower(tx.wallet.chain + ":" + tx.wallet.address)
       != Lower(tx.counterparty.value.chain + ":" + tx.counterparty.value.address)
  }

  function EdgeAt(edges: map<(Wallet, Wallet), Edge>, pair: (Wallet, Wallet)): Edge {
    if pair in edges then edges[pair] else NEW_EDGE
  }

  /** One run of the Cypher statement for the transaction. */
  function Materialize(g: Graph, tx: Tx): Graph {
    if !Interacts(tx) then g.(nodes := g.nodes + {tx.wallet})
    else
      var (w, c) := (tx.wallet, tx.counterparty.value);
      var edge := EdgeAt(g.interacted, (w, c));
      var edge' := Edge(
        edge.interactions + 1,
        edge.inbound + (if tx.direction == Inbound then 1 else 0),
        edge.outbound + (if tx.direction == Outbound then 1 else 0),
        edge.interactions + 1);
      var funding := EdgeAt(g.funded, (c, w));
      Graph(
        g.nodes + {w, c},
        g.interacted[(w, c) := edge'],
        if tx.direction == Inbound
        then g.funded[(c, w) := Edge(funding.interactions + 1, funding.inbound + 1, funding.outbound, funding.interactions + 1)]
        else g.funded)
  }

  /** The graph after materialising a history, oldest first. */
  function GraphOf(history: seq<Tx>): Graph {
    if history == [] then EMPTY
    else Materialize(GraphOf(history[..|history| - 1]), history[|history| - 1])
  }

  /** How many transactions of the history are interactions of the ordered pair that satisfy `p`. */
  function Count(history: seq<Tx>, w: Wallet, c: Wallet, p: Direction -> bool): nat {
    if history == [] then 0
    else
      var n := |history| - 1;
      Count(history[..n], w, c, p) + if Between(history[n], w, c) && p(history[n].direction) then 1 else 0
  }

  predicate Between(tx: Tx, w: Wallet, c: Wallet) {
    Interacts(tx) && tx.wallet == w && tx.counterparty == Some(c)
  }

  const ANY: Direction -> bool := d => true
  const IS_INBOUND: Direction -> bool := d => d == Inbound
  const IS_OUTBOUND: Direction -> bool := d => d == Outbound

  /** Counters are counts: after any history, each counter of an ordered pair is the number of its
      interactions in the history, in total and by direction, and an edge exists only for a pair
      that interacted. */
  lemma {:induction false} CountersAreCounts(history: seq<Tx>, w: Wallet, c: Wallet)
    ensures var edge := EdgeAt(GraphOf(history).interacted, (w, c));
      && edge.interactions == edge.counterparties == Count(history, w, c, ANY)
      && edge.inbound == Count(history, w, c, IS_INBOUND)
      && edge.outbound == Count(history, w, c, IS_OUTBOUND)
    ensures (w, c) in GraphOf(history).interacted <==> Count(history, w, c, ANY) > 0
  {
    if history != [] {
      CountersAreCounts(history[..|history| - 1], w, c);
    }
  }

  /** A transaction of the wallet with another wallet: one whose name differs in more than letter case. */
  predicate IsTransfer(tx: Tx, w: Wallet, c: Wallet) {
    && tx.wallet == w && tx.counterparty == Some(c)
    && !EqualFold(w.chain + ":" + w.address, c.chain + ":" + c.address)
  }

  /** The transfers of the pair with the given directions, by their places in the history. */
  function TransfersOf(history: seq<Tx>, w: Wallet, c: Wallet, p: Direction -> bool): set<nat> {
    set i: nat | i < |history| && IsTransfer(history[i], w, c) && p(history[i].direction)
  }

  lemma TransfersLast(history: seq<Tx>, w: Wallet, c: Wallet, p: Direction -> bool)
    requires history != []
    ensures var n := |history| - 1;
      |TransfersOf(history, w, c, p)|
      == |TransfersOf(history[..n], w, c, p)| + if IsTransfer(history[n], w, c) && p(history[n].direction) then 1 else 0
  {
    var n := |history| - 1;
    var before := TransfersOf(history[..n], w, c, p);
    assert TransfersOf(history, w, c, p) == if IsTransfer(history[n], w, c) && p(history[n].direction) then before + {n} else before;
  }

  lemma {:induction false} CountIs(history: seq<Tx>, w: Wallet, c: Wallet, p: Direction -> bool)
    ensures Count(history, w, c, p) == |TransfersOf(history, w, c, p)|
  {
    if history == [] {
      assert TransfersOf(history, w, c, p) == {};
    } else {
      CountIs(history[..|history| - 1], w, c, p);
      TransfersLast(history, w, c, p);
      LowerFolds(w.chain + ":" + w.address, c.chain + ":" + c.address);
    }
  }

  /** A transfer of a wallet to itself, in whatever letter case, never makes an edge; any other one with a
      counterparty does, and counts once, by its direction. */
  lemma EdgesCountTransfers(history: seq<Tx>, w: Wallet, c: Wallet)
    ensures var edge := EdgeAt(GraphOf(history).interacted, (w, c));
      && edge.interactions == |set i: nat | i < |history| && IsTransfer(history[i], w, c)|
      && edge.inbound == |set i: nat | i < |history| && IsTransfer(history[i], w, c) && history[i].direction == Inbound|
      && edge.outbound == |set i: nat | i < |history| && IsTransfer(history[i], w, c) && history[i].direction == Outbound|
    ensures (w, c) in GraphOf(history).interacted <==> exists i: nat :: i < |history| && IsTransfer(history[i], w, c)
  {
    CountersAreCounts(history, w, c);
    CountIs(history, w, c, ANY);
    CountIs(history, w, c, IS_INBOUND);
    CountIs(history, w, c, IS_OUTBOUND);
    var all := set i: nat | i < |history| && IsTransfer(history[i], w, c);
    assert all == TransfersOf(history, w, c, ANY);
    assert (set i: nat | i < |history| && IsTransfer(history[i], w, c) && history[i].direction == Inbound)
           == TransfersOf(history, w, c, IS_INBOUND);
    assert (set i: nat | i < |history| && IsTransfer(history[i], w, c) && history[i].direction == Outbound)
           == TransfersOf(history, w, c, IS_OUTBOUND);
    if i: nat :| i < |history| && IsTransfer(history[i], w, c) {
      assert i in all;
    }
    if all != {} {
      var i: nat :| i in all;
      assert i < |history| && IsTransfer(history[i], w, c);
    }
  }

  /** What funding edges promise: FUNDED_BY(c, w) mirrors the inbound counter of INTERACTED_WITH(w, c). */
  ghost predicate FundingMirrorsInbound(g: Graph) {
    forall w, c ::
      && EdgeAt(g.funded, (c, w)).interactions == EdgeAt(g.interacted, (w, c)).inbound
      && EdgeAt(g.funded, (c, w)).inbound == EdgeAt(g.interacted, (w, c)).inbound
      && EdgeAt(g.funded, (c, w)).outbound == 0
  }

  /** Every statement keeps the mirror, from any graph that has it. */
  lemma MaterializeKeepsMirror(g: Graph, tx: Tx)
    requires FundingMirrorsInbound(g)
    ensures FundingMirrorsInbound(Materialize(g, tx))
  {
    var g' := Materialize(g, tx);
    forall w, c
      ensures && EdgeAt(g'.funded, (c, w)).interactions == EdgeAt(g'.interacted, (w, c)).inbound
              && EdgeAt(g'.funded, (c, w)).inbound == EdgeAt(g'.interacted, (w, c)).inbound
              && EdgeAt(g'.funded, (c, w)).outbound == 0
    {
      assert EdgeAt(g.funded, (c, w)).interactions == EdgeAt(g.interacted, (w, c)).inbound;
    }
  }

  /** The mirror holds after every history, repeats and retries included. */
  lemma {:induction false} MirrorHolds(history: seq<Tx>)
    ensures FundingMirrorsInbound(GraphOf(history))
  {
    if history != [] {
      MirrorHolds(history[..|history| - 1]);
      MaterializeKeepsMirror(GraphOf(history[..|history| - 1]), history[|history| - 1]);
    }
  }

  /** The distinct transactions the history materialised for the pair. */
  function KeysBetween(history: seq<Tx>, w: Wallet, c: Wallet): set<TxKey> {
    if history == [] then {}
    else
      var n := |history| - 1;
      KeysBetween(history[..n], w, c) + if Between(history[n], w, c) then {history[n].key} else {}
  }

  lemma {:induction false} KeysBetweenAt(history: seq<Tx>, w: Wallet, c: Wallet, k: TxKey)
    ensures k in KeysBetween(history, w, c) <==>
      exists i :: 0 <= i < |history| && Between(history[i], w, c) && history[i].key == k
  {
    if history != [] {
      var n := |history| - 1;
      KeysBetweenAt(history[..n], w, c, k);
      assert forall i :: 0 <= i < n ==> history[..n][i] == history[i];
    }
  }

  /** The history never materialises one transaction twice for the pair. */
  ghost predicate NoRepeats(history: seq<Tx>, w: Wallet, c: Wallet) {
    forall i, j :: 0 <= i < j < |history| && Between(history[i], w, c) && Between(history[j], w, c) ==>
      history[i].key != history[j].key
  }

  lemma {:induction false} CountVersusKeys(history: seq<Tx>, w: Wallet, c: Wallet)
    ensures |KeysBetween(history, w, c)| <= Count(history, w, c, ANY)
    ensures |KeysBetween(history, w, c)| == Count(history, w, c, ANY) <==> NoRepeats(history, w, c)
  {
    if history != [] {
      var n := |history| - 1;
      var before, last := history[..n], history[n];
      CountVersusKeys(before, w, c);
      KeysBetweenAt(before, w, c, last.key);
      RepeatsNext(before, last, w, c);
      assert history == before + [last];
    }
  }

  /** The pair's history repeats exactly when it did before or its last transaction is among the earlier ones. */
  lemma RepeatsNext(before: seq<Tx>, last: Tx, w: Wallet, c: Wallet)
    ensures NoRepeats(before + [last], w, c) <==>
      NoRepeats(before, w, c)
      && !(Between(last, w, c) && exists i :: 0 <= i < |before| && Between(before[i], w, c) && before[i].key == last.key)
  {
    var history := before + [last];
    assert history[|before|] == last;
    assert forall i :: 0 <= i < |before| ==> history[i] == before[i];
  }

  /** A counter equals the number of distinct transactions of its pair exactly when none of them was
      materialised twice. */
  lemma CounterIsDistinctCountIffNoRepeats(history: seq<Tx>, w: Wallet, c: Wallet)
    ensures EdgeAt(GraphOf(history).interacted, (w, c)).interactions == |KeysBetween(history, w, c)|
      <==> NoRepeats(history, w, c)
  {
    CountersAreCounts(history, w, c);
    CountVersusKeys(history, w, c);
  }

  lemma GraphOfAppend(history: seq<Tx>, tx: Tx)
    ensures GraphOf(history + [tx]) == Materialize(GraphOf(history), tx)
  {
    assert (history + [tx])[..|history|] == history;
  }
}
