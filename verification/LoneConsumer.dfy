/** A worker that has the lists to itself: the command-level machine of `QueueConsumers` does what
    one read of the queue class does. */
module LoneConsumer {
  import opened Text
  import opened BackfillQueue
  import opened QueueConsumers

  /** The lists the worker still reads exist. */
  predicate InRange(w: Consumer, lists: Lists) {
    && w.Reading?
    && (forall i :: 0 <= i < |w.order| ==> w.order[i] < |lists|)
    && (w.current.Some? ==> w.current.value < |lists|)
    && (w.hand.Some? ==> w.current.Some?)
  }

  /** The one move open to a worker in a call, failures aside. */
  function OnlyMove(w: Consumer): (m: Move)
    requires w.Reading?
    ensures m != Fail
  {
    if w.hand.Some? then
      if Delayed(w.hand.value, w.now) then PushBack
      else if Settle(w.hand.value).Taken? then Deliver
      else Reject
    else if w.current.Some? then if w.budget > 0 then Pop else LeaveList
    else if w.order != [] then ReadDepth
    else GiveUp
  }

  lemma OnlyMoveIsEnabled(w: Consumer, lists: Lists)
    requires InRange(w, lists)
    ensures CanMove(w, lists, OnlyMove(w))
    ensures forall m :: CanMove(w, lists, m) && m != Fail ==> m == OnlyMove(w)
  {
  }

  /** The call run to its end with nobody else at the lists. */
  function Alone(w: Consumer, lists: Lists): (Outcome, Lists)
    requires InRange(w, lists)
    decreases |w.order|, if w.current.Some? then 1 else 0, 2 * w.budget + if w.hand.Some? then 1 else 0
  {
    OnlyMoveIsEnabled(w, lists);
    var m := OnlyMove(w);
    var (next, after) := Moved(w, lists, m);
    if m == Deliver || m == Reject then (Settle(w.hand.value), after)
    else if m == GiveUp then (NothingDue, after)
    else Alone(next, after)
  }

  /** The scan of one list: it ends the call, or goes on with the next list. */
  lemma {:induction false} AloneScans(w: Consumer, lists: Lists, l: nat) returns (rest: Consumer)
    requires InRange(w, lists) && w.current == Some(l) && w.hand.None? && w.budget <= |lists[l]|
    ensures var (outcome, q) := Scan(lists[l], w.budget, w.now);
      if outcome != NothingDue then Alone(w, lists) == (outcome, lists[l := q])
      else
        && rest.Reading? && rest.current.None? && rest.hand.None? && rest.order == w.order && rest.now == w.now
        && InRange(rest, lists[l := q]) && Alone(w, lists) == Alone(rest, lists[l := q])
    decreases w.budget
  {
    rest := w;
    if w.budget == 0 {
      rest := w.(current := None);
      assert lists[l := lists[l]] == lists;
    } else {
      var head, tail := lists[l][0], lists[l][1..];
      var (popped, shorter) := Moved(w, lists, Pop);
      assert Alone(w, lists) == Alone(popped, shorter) && shorter == lists[l := tail];
      if Delayed(head, w.now) {
        var (again, rotated) := Moved(popped, shorter, PushBack);
        assert Alone(popped, shorter) == Alone(again, rotated);
        assert rotated[l] == tail + [head] && rotated == lists[l := tail + [head]];
        rest := AloneScans(again, rotated, l);
        var q := Scan(lists[l], w.budget, w.now).1;
        assert rotated[l := q] == lists[l := q];
      } else {
        assert Alone(popped, shorter) == (Settle(head), shorter);
      }
    }
  }

  /** The lists a read names, and the lists with those replaced. */
  function Pick(lists: Lists, order: seq<nat>): seq<seq<Payload>>
    requires forall i :: 0 <= i < |order| ==> order[i] < |lists|
  {
    if order == [] then [] else [lists[order[0]]] + Pick(lists, order[1..])
  }

  function Put(lists: Lists, order: seq<nat>, results: seq<seq<Payload>>): Lists
    requires |order| == |results| && forall i :: 0 <= i < |order| ==> order[i] < |lists|
    decreases |order|
  {
    if order == [] then lists else Put(lists[order[0] := results[0]], order[1..], results[1..])
  }

  predicate DistinctLists(order: seq<nat>) {
    forall i, j :: 0 <= i < j < |order| ==> order[i] != order[j]
  }

  lemma {:induction false} PickOthers(lists: Lists, order: seq<nat>, l: nat, q: seq<Payload>)
    requires l < |lists| && l !in order && forall i :: 0 <= i < |order| ==> order[i] < |lists|
    ensures Pick(lists[l := q], order) == Pick(lists, order) && |Pick(lists, order)| == |order|
  {
    if order != [] {
      PickOthers(lists, order[1..], l, q);
    }
  }

  lemma {:induction false} PutSame(lists: Lists, order: seq<nat>)
    requires forall i :: 0 <= i < |order| ==> order[i] < |lists|
    ensures |Pick(lists, order)| == |order| && Put(lists, order, Pick(lists, order)) == lists
  {
    if order != [] {
      assert lists[order[0] := lists[order[0]]] == lists;
      PutSame(lists, order[1..]);
    }
  }

  /** A lone worker's call is the sequential read: the same outcome, and the same lists after it. */
  lemma {:induction false} LoneCallIsRead(w: Consumer, lists: Lists)
    requires InRange(w, lists) && w.current.None? && w.hand.None? && DistinctLists(w.order)
    ensures |Pick(lists, w.order)| == |w.order|
    ensures Alone(w, lists) == (ReadLists(Pick(lists, w.order), w.now).0, Put(lists, w.order, ReadLists(Pick(lists, w.order), w.now).1))
    decreases |w.order|
  {
    PutSame(lists, w.order);
    if w.order != [] {
      var l, others := w.order[0], w.order[1..];
      assert l !in others;
      var (scanning, same) := Moved(w, lists, ReadDepth);
      var rest := AloneScans(scanning, lists, l);
      var (outcome, q) := Scan(lists[l], |lists[l]|, w.now);
      var after := lists[l := q];
      PickOthers(lists, others, l, q);
      assert Pick(lists, w.order)[1..] == Pick(lists, others);
      if outcome == NothingDue {
        LoneCallIsRead(rest, after);
        var (later, results) := ReadLists(Pick(lists, others), w.now);
        assert ([q] + results)[1..] == results;
      } else {
        PutSame(after, others);
        assert ([q] + Pick(lists, others))[1..] == Pick(lists, others);
      }
    }
  }
}
