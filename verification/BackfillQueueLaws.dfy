/** What one reader sees of a delayed queue: first due first, and the delayed
    jobs only ever rotated. */
module BackfillQueueLaws {
  import opened BackfillQueue
  import opened Sorting

  /** A left rotation of `base`. */
  ghost predicate Rotation<T>(base: seq<T>, q: seq<T>) {
    exists k :: 0 <= k <= |base| && q == base[k..] + base[..k]
  }

  function DueIn(q: seq<Payload>, now: int): seq<Payload> {
    Filter((p: Payload) => !Delayed(p, now), q)
  }

  function DelayedIn(q: seq<Payload>, now: int): seq<Payload> {
    Filter((p: Payload) => Delayed(p, now), q)
  }

  function Settled(q: seq<Payload>): (r: seq<Outcome>)
    ensures |r| == |q|
  {
    if q == [] then [] else [Settle(q[0])] + Settled(q[1..])
  }

  /** A scan settles the first payload that is not delayed and moves exactly the delayed
      ones before it, in order, to the right end. */
  lemma {:induction false} ScanTakesFirstDue(q: seq<Payload>, k: nat, budget: nat, now: int)
    requires k < |q| && k < budget
    requires forall i :: 0 <= i < k ==> Delayed(q[i], now)
    requires !Delayed(q[k], now)
    ensures Scan(q, budget, now) == (Settle(q[k]), q[k + 1..] + q[..k])
    decreases budget
  {
    if k == 0 {
      assert q[1..] + q[..0] == q[1..];
    } else {
      var next := q[1..] + [q[0]];
      ScanTakesFirstDue(next, k - 1, budget - 1, now);
      assert next[k..] + next[..k - 1] == q[k + 1..] + q[..k];
    }
  }

  /** With nothing due, `budget` pops rotate the list by `budget`. */
  lemma {:induction false} ScanRotates(q: seq<Payload>, budget: nat, now: int)
    requires budget <= |q|
    requires forall p :: p in q ==> Delayed(p, now)
    ensures Scan(q, budget, now) == (NothingDue, q[budget..] + q[..budget])
    decreases budget
  {
    if budget == 0 {
      assert q[0..] + q[..0] == q;
    } else {
      var next := q[1..] + [q[0]];
      forall p | p in next ensures Delayed(p, now) { assert p in q; }
      ScanRotates(next, budget - 1, now);
      assert next[budget - 1..] + next[..budget - 1] == q[budget..] + q[..budget];
    }
  }

  function FirstDue(q: seq<Payload>, now: int): (k: nat)
    ensures k <= |q|
    ensures forall i :: 0 <= i < k ==> Delayed(q[i], now)
    ensures k < |q| ==> !Delayed(q[k], now)
  {
    if q == [] || !Delayed(q[0], now) then 0
    else
      var k := FirstDue(q[1..], now);
      assert forall i :: 1 <= i < k + 1 ==> q[i] == q[1..][i - 1];
      k + 1
  }

  /** A read of one list reports nothing exactly when everything in it is delayed, and then
      the list is back in its old order. */
  lemma ScanAllOrNothing(q: seq<Payload>, now: int)
    ensures Scan(q, |q|, now).0 == NothingDue <==> forall p :: p in q ==> Delayed(p, now)
    ensures Scan(q, |q|, now).0 == NothingDue ==> Scan(q, |q|, now).1 == q
  {
    var k := FirstDue(q, now);
    if k == |q| {
      ScanRotates(q, |q|, now);
      assert q[|q|..] + q[..|q|] == q;
    } else {
      ScanTakesFirstDue(q, k, |q|, now);
      assert q[k] in q;
    }
  }

  /** Reading one list again and again until it reports nothing. */
  function DrainList(q: seq<Payload>, now: int): (seq<Outcome>, seq<Payload>)
    decreases |q|
  {
    var (outcome, rest) := Scan(q, |q|, now);
    if outcome == NothingDue then ([], rest)
    else var (later, final) := DrainList(rest, now); ([outcome] + later, final)
  }

  /** What is due and what is delayed before and after a scan that takes the payload at `k`. */
  lemma SplitAtDue(q: seq<Payload>, k: nat, now: int)
    requires k < |q| && !Delayed(q[k], now) && forall i :: 0 <= i < k ==> Delayed(q[i], now)
    ensures var next := q[k + 1..] + q[..k];
            && DueIn(q, now) == [q[k]] + DueIn(next, now)
            && DelayedIn(q, now) == q[..k] + DelayedIn(q[k + 1..], now)
            && DelayedIn(next, now) == DelayedIn(q[k + 1..], now) + q[..k]
  {
    var due := (p: Payload) => !Delayed(p, now);
    var delayed := (p: Payload) => Delayed(p, now);
    var before, after := q[..k], q[k + 1..];
    assert q == before + ([q[k]] + after);
    assert ([q[k]] + after)[1..] == after;
    FilterNone(due, before);
    FilterAll(delayed, before);
    FilterAppend(due, before, [q[k]] + after);
    FilterAppend(delayed, before, [q[k]] + after);
    FilterAppend(due, after, before);
    FilterAppend(delayed, after, before);
  }

  /** Rotation theorem: the reads return exactly the due payloads, in their original order,
      and leave the delayed ones in a rotation of theirs. */
  lemma {:induction false} DrainListIsFifo(q: seq<Payload>, now: int)
    ensures DrainList(q, now).0 == Settled(DueIn(q, now))
    ensures Rotation(DelayedIn(q, now), DrainList(q, now).1)
    decreases |q|
  {
    var k := FirstDue(q, now);
    if k == |q| {
      ScanAllOrNothing(q, now);
      forall p | p in q ensures Delayed(p, now) {
        var i :| 0 <= i < |q| && q[i] == p;
      }
      FilterNone((p: Payload) => !Delayed(p, now), q);
      FilterAll((p: Payload) => Delayed(p, now), q);
      assert DrainList(q, now).1 == q[0..] + q[..0];
    } else {
      var next := q[k + 1..] + q[..k];
      ScanTakesFirstDue(q, k, |q|, now);
      DrainListIsFifo(next, now);
      SplitAtDue(q, k, now);
      RotationOfSwap(q[..k], DelayedIn(q[k + 1..], now), DrainList(next, now).1);
    }
  }

  lemma RotationOfSwap<T>(a: seq<T>, b: seq<T>, q: seq<T>)
    requires Rotation(b + a, q)
    ensures Rotation(a + b, q)
  {
    var k :| 0 <= k <= |b + a| && q == (b + a)[k..] + (b + a)[..k];
    if k <= |b| {
      assert q == b[k..] + a + b[..k];
      assert (a + b)[|a| + k..] + (a + b)[..|a| + k] == q;
    } else {
      var j := k - |b|;
      assert q == a[j..] + b + a[..j];
      assert (a + b)[j..] + (a + b)[..j] == q;
    }
  }

  function Total(lists: seq<seq<Payload>>): nat {
    if lists == [] then 0 else |lists[0]| + Total(lists[1..])
  }

  lemma {:induction false} ReadShrinks(lists: seq<seq<Payload>>, now: int)
    ensures ReadLists(lists, now).0 != NothingDue ==> Total(ReadLists(lists, now).1) < Total(lists)
  {
    if lists != [] {
      var (outcome, rest) := Scan(lists[0], |lists[0]|, now);
      if outcome == NothingDue {
        ReadShrinks(lists[1..], now);
        assert ([rest] + ReadLists(lists[1..], now).1)[1..] == ReadLists(lists[1..], now).1;
      } else {
        assert ([rest] + lists[1..])[1..] == lists[1..];
      }
    }
  }

  /** Reading several lists in order, again and again until a read reports nothing. */
  function DrainReads(lists: seq<seq<Payload>>, now: int): (r: (seq<Outcome>, seq<seq<Payload>>))
    ensures |r.1| == |lists|
    decreases Total(lists)
  {
    var (outcome, rest) := ReadLists(lists, now);
    if outcome == NothingDue then ([], rest)
    else
      ReadShrinks(lists, now);
      var (later, final) := DrainReads(rest, now);
      ([outcome] + later, final)
  }

  /** The first list is drained before the second is touched. */
  lemma {:induction false} DrainReadsInOrder(first: seq<Payload>, others: seq<seq<Payload>>, now: int)
    ensures DrainReads([first] + others, now) ==
      (DrainList(first, now).0 + DrainReads(others, now).0,
       [DrainList(first, now).1] + DrainReads(others, now).1)
    decreases Total([first] + others)
  {
    var lists := [first] + others;
    ReadCons(first, others, now);
    var (outcome, rest) := Scan(first, |first|, now);
    ReadShrinks(lists, now);
    if outcome != NothingDue {
      DrainReadsInOrder(rest, others, now);
      assert DrainReads(lists, now).0 == [outcome] + DrainReads([rest] + others, now).0;
      assert DrainReads(lists, now).0 == ([outcome] + DrainList(rest, now).0) + DrainReads(others, now).0;
    } else {
      ScanAllOrNothing(first, now);
      assert DrainList(first, now) == ([], first);
      var (later, others') := ReadLists(others, now);
      assert ReadLists(lists, now) == (later, [first] + others');
      if later != NothingDue {
        DrainReadsInOrder(first, others', now);
        var (_, final) := DrainReads(others', now);
        assert DrainReads(lists, now).1 == [first] + final;
        assert DrainReads(lists, now).0 == [] + DrainReads(others, now).0;
      } else {
        assert DrainReads(lists, now) == ([], [first] + others');
        assert DrainReads(others, now) == ([], others');
        assert DrainReads(lists, now).0 == [] + DrainReads(others, now).0;
      }
    }
  }

  /** Draining the default queue with one fixed clock: every due priority payload in order,
      then every due default payload in order; both lists keep their delayed payloads. */
  lemma DefaultDrain(priority: seq<Payload>, ordinary: seq<Payload>, now: int)
    ensures DrainReads([priority, ordinary], now).0 ==
      Settled(DueIn(priority, now)) + Settled(DueIn(ordinary, now))
    ensures Rotation(DelayedIn(priority, now), DrainReads([priority, ordinary], now).1[0])
    ensures Rotation(DelayedIn(ordinary, now), DrainReads([priority, ordinary], now).1[1])
  {
    assert [priority, ordinary] == [priority] + [ordinary];
    DrainReadsInOrder(priority, [ordinary], now);
    assert [ordinary] == [ordinary] + [];
    DrainReadsInOrder(ordinary, [], now);
    assert DrainReads([], now) == ([], []);
    DrainListIsFifo(priority, now);
    DrainListIsFifo(ordinary, now);
    assert DrainList(ordinary, now).0 + [] == DrainList(ordinary, now).0;
  }

  /** One read of the default queue touches the default list only when every priority job is
      delayed, and it then leaves the priority list exactly as it was. */
  lemma PriorityFirst(priority: seq<Payload>, ordinary: seq<Payload>, now: int)
    ensures (forall p :: p in priority ==> Delayed(p, now)) ==>
      ReadLists([priority] + [ordinary], now) ==
      (Scan(ordinary, |ordinary|, now).0, [priority] + [Scan(ordinary, |ordinary|, now).1])
    ensures (exists p :: p in priority && !Delayed(p, now)) ==>
      Scan(priority, |priority|, now).0 != NothingDue
      && ReadLists([priority] + [ordinary], now) ==
         (Scan(priority, |priority|, now).0, [Scan(priority, |priority|, now).1] + [ordinary])
  {
    ScanAllOrNothing(priority, now);
    ReadCons(priority, [ordinary], now);
    ReadOneList(ordinary, now);
  }

  lemma ReadCons(first: seq<Payload>, others: seq<seq<Payload>>, now: int)
    ensures ReadLists([first] + others, now) ==
      var (outcome, rest) := Scan(first, |first|, now);
      if outcome == NothingDue then (ReadLists(others, now).0, [rest] + ReadLists(others, now).1)
      else (outcome, [rest] + others)
  {
    assert ([first] + others)[1..] == others;
  }
}
