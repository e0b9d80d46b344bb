/** Several workers reading the backfill lists at once, one Redis command at a time. */
module QueueConsumers {
  import opened Text
  import opened BackfillQueue

  /** One worker. `order` holds the lists of the current call not looked at yet, `current` the list
      being scanned, `budget` the pops its LLEN reply still allows, `hand` a popped payload.
      `commands`, `width` and `granted` count the commands of the call, its lists, and the sum
      of its LLEN replies. */
  datatype Consumer =
    | Idle
    | Reading(now: int, order: seq<nat>, current: Option<nat>, budget: nat, hand: Option<Payload>,
              commands: nat, width: nat, granted: nat)

  /** The next thing a worker in a call does. `Fail` is a failing command or the end of the worker. */
  datatype Move = ReadDepth | Pop | LeaveList | PushBack | Deliver | Reject | GiveUp | Fail

  datatype Action =
    | Enqueue(list: nat, payload: Payload)
    | Begin(c: nat, readOrder: seq<nat>, clock: int)
    | Work(c: nat, move: Move)

  type Lists = seq<seq<Payload>>

  /** The lists and workers, and what became of every payload so far. */
  datatype State = State(
    lists: Lists, consumers: seq<Consumer>,
    enqueued: multiset<Payload>, returned: multiset<Payload>,
    rejected: multiset<Payload>, dropped: multiset<Payload>)

  predicate CanMove(w: Consumer, lists: Lists, m: Move) {
    && w.Reading?
    && match m
       case ReadDepth => w.current.None? && w.hand.None? && w.order != [] && w.order[0] < |lists|
       case Pop => w.current.Some? && w.current.value < |lists| && w.hand.None? && w.budget > 0
       case LeaveList => w.current.Some? && w.hand.None? && w.budget == 0
       case PushBack => w.current.Some? && w.current.value < |lists| && w.hand.Some? && Delayed(w.hand.value, w.now)
       case Deliver => w.hand.Some? && !Delayed(w.hand.value, w.now) && Settle(w.hand.value).Taken?
       case Reject => w.hand.Some? && !Delayed(w.hand.value, w.now) && Settle(w.hand.value).Rejected?
       case GiveUp => w.current.None? && w.order == [] && w.hand.None?
       case Fail => true
  }

  /** What the move does to the worker and to the lists. */
  function Moved(w: Consumer, lists: Lists, m: Move): (Consumer, Lists)
    requires CanMove(w, lists, m)
  {
    match m
    case ReadDepth =>
      var depth := |lists[w.order[0]]|;
      (w.(order := w.order[1..], current := Some(w.order[0]), budget := depth,
          commands := w.commands + 1, granted := w.granted + depth), lists)
    case Pop =>
      var l := w.current.value;
      if lists[l] == [] then (w.(current := None, budget := 0, commands := w.commands + 1), lists)
      else (w.(budget := w.budget - 1, hand := Some(lists[l][0]), commands := w.commands + 1),
            lists[l := lists[l][1..]])
    case LeaveList => (w.(current := None), lists)
    case PushBack =>
      var l := w.current.value;
      (w.(hand := None, commands := w.commands + 1), lists[l := lists[l] + [w.hand.value]])
    case Deliver => (Idle, lists)
    case Reject => (Idle, lists)
    case GiveUp => (Idle, lists)
    case Fail => (Idle, lists)
  }

  function InHand(w: Consumer): multiset<Payload> {
    if w.Reading? && w.hand.Some? then multiset{w.hand.value} else multiset{}
  }

  predicate Enabled(s: State, a: Action) {
    match a
    case Enqueue(list, _) => list < |s.lists|
    case Begin(c, _, _) => c < |s.consumers| && s.consumers[c].Idle?
    case Work(c, m) => c < |s.consumers| && CanMove(s.consumers[c], s.lists, m)
  }

  function Next(s: State, a: Action): State
    requires Enabled(s, a)
  {
    match a
    case Enqueue(list, payload) =>
      s.(lists := s.lists[list := s.lists[list] + [payload]], enqueued := s.enqueued + multiset{payload})
    case Begin(c, order, clock) =>
      s.(consumers := s.consumers[c := Reading(clock, order, None, 0, None, 0, |order|, 0)])
    case Work(c, m) =>
      var w := s.consumers[c];
      var (w', lists') := Moved(w, s.lists, m);
      State(lists', s.consumers[c := w'], s.enqueued,
            if m == Deliver then s.returned + InHand(w) else s.returned,
            if m == Reject then s.rejected + InHand(w) else s.rejected,
            if m == Fail then s.dropped + InHand(w) else s.dropped)
  }

  function Sum(parts: seq<nat>): nat {
    if parts == [] then 0 else parts[0] + Sum(parts[1..])
  }

  lemma {:induction false} SumOfUpdate(parts: seq<nat>, i: nat, part: nat)
    requires i < |parts|
    ensures Sum(parts[i := part]) + parts[i] == Sum(parts) + part
  {
    if i == 0 {
      assert parts[i := part][1..] == parts[1..];
    } else {
      assert parts[i := part][1..] == parts[1..][i - 1 := part];
      SumOfUpdate(parts[1..], i - 1, part);
    }
  }

  lemma {:induction false} SumOfZeros(parts: seq<nat>)
    requires forall i :: 0 <= i < |parts| ==> parts[i] == 0
    ensures Sum(parts) == 0
  {
    if parts != [] { SumOfZeros(parts[1..]); }
  }

  function PerList(lists: Lists, p: Payload): (r: seq<nat>)
    ensures |r| == |lists| && forall i :: 0 <= i < |r| ==> r[i] == multiset(lists[i])[p]
  {
    seq(|lists|, i requires 0 <= i < |lists| => multiset(lists[i])[p])
  }

  function PerHand(consumers: seq<Consumer>, p: Payload): (r: seq<nat>)
    ensures |r| == |consumers| && forall i :: 0 <= i < |r| ==> r[i] == InHand(consumers[i])[p]
  {
    seq(|consumers|, i requires 0 <= i < |consumers| => InHand(consumers[i])[p])
  }

  /** How often `p` is queued, and how often it is in a worker's hand. */
  function Queued(lists: Lists, p: Payload): nat { Sum(PerList(lists, p)) }

  function Held(consumers: seq<Consumer>, p: Payload): nat { Sum(PerHand(consumers, p)) }

  /** Every copy of `p` ever enqueued is in exactly one place. */
  predicate Conserved(s: State, p: Payload) {
    s.enqueued[p] == Queued(s.lists, p) + Held(s.consumers, p) + s.returned[p] + s.rejected[p] + s.dropped[p]
  }

  /** The commands left to a call are bounded by the LLEN replies it already got. */
  predicate WithinBudget(w: Consumer) {
    w.Reading? ==>
      w.commands + 2 * w.budget + (if w.hand.Some? then 1 else 0) + |w.order| <= w.width + 2 * w.granted
  }

  ghost predicate Accounted(s: State) {
    && (forall c :: 0 <= c < |s.consumers| ==> WithinBudget(s.consumers[c]))
    && (forall p :: p in s.returned ==> Settle(p).Taken?)
    && (forall p :: p in s.rejected ==> Settle(p).Rejected?)
  }

  lemma HeldAfterPut(consumers: seq<Consumer>, c: nat, w: Consumer, p: Payload)
    requires c < |consumers|
    ensures Held(consumers[c := w], p) + InHand(consumers[c])[p] == Held(consumers, p) + InHand(w)[p]
  {
    assert PerHand(consumers[c := w], p) == PerHand(consumers, p)[c := InHand(w)[p]];
    SumOfUpdate(PerHand(consumers, p), c, InHand(w)[p]);
  }

  lemma QueuedAfterUpdate(lists: Lists, l: nat, list: seq<Payload>, p: Payload)
    requires l < |lists|
    ensures Queued(lists[l := list], p) + multiset(lists[l])[p] == Queued(lists, p) + multiset(list)[p]
  {
    assert PerList(lists[l := list], p) == PerList(lists, p)[l := multiset(list)[p]];
    SumOfUpdate(PerList(lists, p), l, multiset(list)[p]);
  }

  /** A move takes nothing out of lists and hand together, unless it ends the call. */
  lemma MoveConserves(w: Consumer, lists: Lists, m: Move, p: Payload)
    requires CanMove(w, lists, m)
    ensures var (w', lists') := Moved(w, lists, m);
      Queued(lists', p) + InHand(w')[p] + (if m in {Deliver, Reject, Fail} then InHand(w)[p] else 0)
      == Queued(lists, p) + InHand(w)[p]
  {
    if m == PushBack {
      var l := w.current.value;
      QueuedAfterUpdate(lists, l, lists[l] + [w.hand.value], p);
    } else if m == Pop && lists[w.current.value] != [] {
      var l := w.current.value;
      assert lists[l] == [lists[l][0]] + lists[l][1..];
      QueuedAfterUpdate(lists, l, lists[l][1..], p);
    }
  }

  lemma StepConserves(s: State, a: Action, p: Payload)
    requires Conserved(s, p) && Enabled(s, a)
    ensures Conserved(Next(s, a), p)
  {
    match a
    case Enqueue(list, payload) =>
      QueuedAfterUpdate(s.lists, list, s.lists[list] + [payload], p);
    case Begin(c, _, _) =>
      HeldAfterPut(s.consumers, c, Next(s, a).consumers[c], p);
    case Work(c, m) =>
      MoveConserves(s.consumers[c], s.lists, m, p);
      HeldAfterPut(s.consumers, c, Next(s, a).consumers[c], p);
  }

  lemma StepAccounts(s: State, a: Action)
    requires Accounted(s) && Enabled(s, a)
    ensures Accounted(Next(s, a))
  {
    var s' := Next(s, a);
    forall c | 0 <= c < |s'.consumers| ensures WithinBudget(s'.consumers[c]) {
      assert WithinBudget(s.consumers[c]);
    }
  }

  /** Any interleaving: each action is taken from the state the one before it left. */
  ghost predicate Run(start: State, actions: seq<Action>, end: State)
    decreases |actions|
  {
    if actions == [] then end == start
    else Enabled(start, actions[0]) && Run(Next(start, actions[0]), actions[1..], end)
  }

  ghost predicate Initial(s: State) {
    && (forall c :: 0 <= c < |s.consumers| ==> s.consumers[c].Idle?)
    && (forall p :: s.enqueued[p] == Queued(s.lists, p))
    && s.returned == s.rejected == s.dropped == multiset{}
  }

  lemma {:induction false} RunKeepsInvariant(start: State, actions: seq<Action>, end: State, p: Payload)
    requires Conserved(start, p) && Accounted(start) && Run(start, actions, end)
    ensures Conserved(end, p) && Accounted(end)
    ensures (forall a :: a in actions && a.Work? ==> a.move != Fail) ==> end.dropped == start.dropped
    decreases |actions|
  {
    if actions != [] {
      StepConserves(start, actions[0], p);
      StepAccounts(start, actions[0]);
      RunKeepsInvariant(Next(start, actions[0]), actions[1..], end, p);
      assert actions[0] in actions;
    }
  }

  /** Conservation under concurrency: after any interleaving, every copy of a payload that was
      enqueued is queued, in a worker's hand, returned, rejected as bad, or dropped by a failing
      command, and nothing is dropped without a failure. So no payload is returned more often
      than it was enqueued. */
  lemma NothingLostOrDuplicated(start: State, actions: seq<Action>, end: State, p: Payload)
    requires Initial(start) && Run(start, actions, end)
    ensures end.enqueued[p] ==
      Queued(end.lists, p) + Held(end.consumers, p) + end.returned[p] + end.rejected[p] + end.dropped[p]
    ensures end.returned[p] <= end.enqueued[p]
    ensures end.returned[p] > 0 ==> Settle(p).Taken?
    ensures end.rejected[p] > 0 ==> Settle(p).Rejected?
    ensures (forall a :: a in actions && a.Work? ==> a.move != Fail) ==> end.dropped[p] == 0
  {
    SumOfZeros(PerHand(start.consumers, p));
    RunKeepsInvariant(start, actions, end, p);
  }

  /** However much others enqueue meanwhile, a call issues at most one LLEN per list plus two
      commands for each pop its LLEN replies allowed. */
  lemma CallIsBounded(start: State, actions: seq<Action>, end: State, c: nat)
    requires Initial(start) && Run(start, actions, end)
    requires c < |end.consumers| && end.consumers[c].Reading?
    ensures end.consumers[c].commands <= end.consumers[c].width + 2 * end.consumers[c].granted
  {
    SumOfZeros(PerHand(start.consumers, Corrupt));
    RunKeepsInvariant(start, actions, end, Corrupt);
    assert WithinBudget(end.consumers[c]);
  }
}
