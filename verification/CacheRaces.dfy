/** One canonical wallet graph, one store command at a time: any number of reads and of changes with their
    invalidations, interleaved (`ReadWalletGraph` and `InvalidateWalletGraphSnapshot` of
    packages/db/wallet_graph_cache.go). A stored graph is the number of the source's version it shows. */
module CacheRaces {
  import opened Text

  /** Where a read is: before its GET, before it reads the snapshot, before it loads, before it upserts the
      snapshot, before its SET, and done with the version it answers. */
  datatype Reader = Asking | Missed | Loading | Loaded(v: nat) | Filling(v: nat) | Answered(v: nat)

  /** Where a change of the source is with its invalidation: before each of the two deletions, or done. */
  datatype Invalidation = MustDropCache | MustDropSnap | Done

  datatype State = State(version: nat, cache: Option<nat>, snap: Option<nat>, readers: seq<Reader>, changes: seq<Invalidation>)

  /** `Advance` is the next command of a read, `Drop` the next deletion of an invalidation; `Fail` ends a
      read at a failing command. */
  datatype Step = Arrive | Advance(r: nat) | Fail(r: nat) | Change | Drop(c: nat) | Expire

  const START := State(0, None, None, [], [])

  predicate Enabled(s: State, step: Step) {
    match step
    case Advance(r) => r < |s.readers| && !s.readers[r].Answered?
    case Fail(r) => r < |s.readers| && !s.readers[r].Answered?
    case Drop(c) => c < |s.changes| && s.changes[c] != Done
    case _ => true
  }

  function Advanced(s: State, reader: Reader): Reader {
    match reader
    case Asking => if s.cache.Some? then Answered(s.cache.value) else Missed
    case Missed => if s.snap.Some? then Filling(s.snap.value) else Loading
    case Loading => Loaded(s.version)
    case Loaded(v) => Filling(v)
    case Filling(v) => Answered(v)
    case Answered(v) => reader
  }

  function Next(s: State, step: Step): State
    requires Enabled(s, step)
  {
    match step
    case Arrive => s.(readers := s.readers + [Asking])
    case Advance(r) =>
      var reader := s.readers[r];
      s.(readers := s.readers[r := Advanced(s, reader)],
         snap := if reader.Loaded? then Some(reader.v) else s.snap,
         cache := if reader.Filling? then Some(reader.v) else s.cache)
    case Fail(r) => s.(readers := s.readers[..r] + s.readers[r + 1..])
    case Change => s.(version := s.version + 1, changes := s.changes + [MustDropCache])
    case Drop(c) =>
      if s.changes[c] == MustDropCache then s.(cache := None, changes := s.changes[c := MustDropSnap])
      else s.(snap := None, changes := s.changes[c := Done])
    case Expire => s.(cache := None)
  }

  /** Steps that can happen one after the other, from empty stores. */
  predicate Happens(steps: seq<Step>)
    decreases |steps|, 0
  {
    steps == [] || (Happens(Before(steps)) && Enabled(After(Before(steps)), Last(steps)))
  }

  function After(steps: seq<Step>): State
    requires Happens(steps)
    decreases |steps|, 1
  {
    if steps == [] then START else Next(After(Before(steps)), Last(steps))
  }

  function Before(steps: seq<Step>): (r: seq<Step>)
    requires steps != []
    ensures |r| < |steps|
  {
    steps[..|steps| - 1]
  }

  function Last(steps: seq<Step>): Step
    requires steps != []
  {
    steps[|steps| - 1]
  }

  // ---- Stale answers ----

  predicate CacheDropPending(s: State) {
    exists c :: 0 <= c < |s.changes| && s.changes[c] == MustDropCache
  }

  predicate SnapDropPending(s: State) {
    exists c :: 0 <= c < |s.changes| && s.changes[c] != Done
  }

  predicate StaleCache(s: State) { s.cache.Some? && s.cache.value < s.version }
  predicate StaleSnap(s: State) { s.snap.Some? && s.snap.value < s.version }

  /** What invalidation is for: a stale stored graph is about to be deleted. */
  predicate Clean(s: State) {
    (StaleCache(s) ==> CacheDropPending(s)) && (StaleSnap(s) ==> SnapDropPending(s))
  }

  /** The fill of a cache or a snapshot with an old version when no deletion of it is to come. */
  predicate LateCacheFill(s: State, step: Step)
    requires Enabled(s, step)
  {
    step.Advance? && s.readers[step.r].Filling? && s.readers[step.r].v < s.version && !CacheDropPending(s)
  }

  predicate LateSnapFill(s: State, step: Step)
    requires Enabled(s, step)
  {
    step.Advance? && s.readers[step.r].Loaded? && s.readers[step.r].v < s.version && !SnapDropPending(s)
  }

  /** Versions come from the source. */
  predicate Possible(s: State) {
    && (s.cache.Some? ==> s.cache.value <= s.version) && (s.snap.Some? ==> s.snap.value <= s.version)
    && forall r :: 0 <= r < |s.readers| ==>
         (s.readers[r].Loaded? || s.readers[r].Filling? || s.readers[r].Answered? ==> s.readers[r].v <= s.version)
  }

  lemma StepIsPossible(s: State, step: Step)
    requires Possible(s) && Enabled(s, step)
    ensures Possible(Next(s, step))
  {
    var s' := Next(s, step);
    if step.Fail? {
      forall r | 0 <= r < |s'.readers|
        ensures s'.readers[r].Loaded? || s'.readers[r].Filling? || s'.readers[r].Answered? ==> s'.readers[r].v <= s'.version
      {
        assert s'.readers[r] == s.readers[if r < step.r then r else r + 1];
      }
    }
  }

  /** Each step keeps the stores clean exactly when it is not a late fill. */
  lemma StepKeepsCleanIff(s: State, step: Step)
    requires Possible(s) && Clean(s) && Enabled(s, step)
    ensures Clean(Next(s, step)) <==> !LateCacheFill(s, step) && !LateSnapFill(s, step)
  {
    DropsPending(s, step);
  }

  /** A change brings both deletions, and a deletion is pending until it is made. */
  lemma DropsPending(s: State, step: Step)
    requires Enabled(s, step)
    ensures step.Change? ==> CacheDropPending(Next(s, step)) && SnapDropPending(Next(s, step))
    ensures !step.Change? && !step.Drop? ==>
      CacheDropPending(Next(s, step)) == CacheDropPending(s) && SnapDropPending(Next(s, step)) == SnapDropPending(s)
    ensures step.Drop? && s.changes[step.c] == MustDropCache ==> SnapDropPending(Next(s, step))
    ensures step.Drop? && s.changes[step.c] != MustDropCache ==> CacheDropPending(Next(s, step)) == CacheDropPending(s)
  {
    var s' := Next(s, step);
    match step
    case Change =>
      assert s'.changes[|s.changes|] == MustDropCache;
    case Drop(c) =>
      assert s.changes[c] == MustDropCache ==> s'.changes[c] == MustDropSnap;
      assert forall d :: 0 <= d < |s.changes| && d != c ==> s'.changes[d] == s.changes[d];
    case _ =>
  }

  // ---- Whole runs ----

  /** The cached graph is one that a late fill left and that was not deleted, expired or replaced since. */
  predicate CacheLeftLate(steps: seq<Step>)
    requires Happens(steps)
    decreases |steps|
  {
    if steps == [] then false
    else
      var s := After(Before(steps));
      match Last(steps)
      case Advance(r) => if s.readers[r].Filling? then LateCacheFill(s, Last(steps)) else CacheLeftLate(Before(steps))
      case Drop(c) => s.changes[c] != MustDropCache && CacheLeftLate(Before(steps))
      case Expire => false
      case _ => CacheLeftLate(Before(steps))
  }

  /** So is the snapshot. */
  predicate SnapLeftLate(steps: seq<Step>)
    requires Happens(steps)
    decreases |steps|
  {
    if steps == [] then false
    else
      var s := After(Before(steps));
      match Last(steps)
      case Advance(r) => if s.readers[r].Loaded? then LateSnapFill(s, Last(steps)) else SnapLeftLate(Before(steps))
      case Drop(c) => s.changes[c] == MustDropCache && SnapLeftLate(Before(steps))
      case _ => SnapLeftLate(Before(steps))
  }

  /** At any point of any interleaving, a stored graph whose deletion is not pending is stale exactly when a
      late fill left it. */
  lemma {:induction false} StaleIffLeftLate(steps: seq<Step>)
    requires Happens(steps)
    ensures Possible(After(steps))
    ensures CacheLeftLate(steps) ==> StaleCache(After(steps))
    ensures StaleCache(After(steps)) && !CacheDropPending(After(steps)) ==> CacheLeftLate(steps)
    ensures SnapLeftLate(steps) ==> StaleSnap(After(steps))
    ensures StaleSnap(After(steps)) && !SnapDropPending(After(steps)) ==> SnapLeftLate(steps)
    decreases |steps|
  {
    if steps != [] {
      StaleIffLeftLate(Before(steps));
      StepIsPossible(After(Before(steps)), Last(steps));
      DropsPending(After(Before(steps)), Last(steps));
    }
  }

  // ---- A read that nothing interrupts ----

  /** The read runs to its end while everything else stands still. */
  function Finish(s: State, r: nat): State
    requires r < |s.readers|
    decreases CommandsLeft(s.readers[r])
  {
    if s.readers[r].Answered? then s else Finish(Next(s, Advance(r)), r)
  }

  function CommandsLeft(reader: Reader): nat {
    match reader
    case Asking => 5 case Missed => 4 case Loading => 3 case Loaded(_) => 2 case Filling(_) => 1 case Answered(_) => 0
  }

  /** What such a read answers. */
  function AloneAnswer(s: State): (v: nat)
    ensures v == if s.cache.Some? then s.cache.value else if s.snap.Some? then s.snap.value else s.version
  {
    var end := Finish(Next(s, Arrive), |s.readers|);
    FinishAnswers(s);
    end.readers[|s.readers|].v
  }

  lemma FinishAnswers(s: State)
    ensures var end := Finish(Next(s, Arrive), |s.readers|);
      && |end.readers| == |s.readers| + 1
      && end.readers[|s.readers|] == Answered(if s.cache.Some? then s.cache.value else if s.snap.Some? then s.snap.value else s.version)
  {
    var r := |s.readers|;
    var asked := Next(s, Arrive);
    var one := Next(asked, Advance(r));
    if s.cache.None? {
      var two := Next(one, Advance(r));
      if s.snap.None? {
        var three := Next(two, Advance(r));
        var four := Next(three, Advance(r));
        assert Finish(two, r) == Finish(three, r) == Finish(four, r) == Next(four, Advance(r));
      } else {
        assert Finish(two, r) == Next(two, Advance(r));
      }
      assert Finish(one, r) == Finish(two, r);
    }
    assert Finish(asked, r) == Finish(one, r);
  }

  /** When every change has been invalidated, a read on its own answers the source's current version
      exactly when no late fill left it the cached graph, or the snapshot behind an empty cache. */
  lemma QuietReadIsFreshIff(steps: seq<Step>)
    requires Happens(steps) && !SnapDropPending(After(steps))
    ensures AloneAnswer(After(steps)) == After(steps).version
            <==> !CacheLeftLate(steps) && (After(steps).cache.None? ==> !SnapLeftLate(steps))
  {
    StaleIffLeftLate(steps);
  }

  // ---- Late fills happen ----

  lemma Extend(steps: seq<Step>, step: Step) returns (more: seq<Step>)
    requires Happens(steps) && Enabled(After(steps), step)
    ensures more == steps + [step] && Happens(more) && After(more) == Next(After(steps), step)
  {
    more := steps + [step];
    assert Before(more) == steps;
  }

  lemma ExtendTo(steps: seq<Step>, step: Step, so: State, next: State) returns (more: seq<Step>)
    requires Happens(steps) && After(steps) == so && Enabled(so, step) && Next(so, step) == next
    ensures Happens(more) && After(more) == next
  {
    more := Extend(steps, step);
  }

  /** A lone first read fills both stores. */
  lemma FirstReadFills() returns (steps: seq<Step>)
    ensures Happens(steps) && After(steps) == State(0, Some(0), Some(0), [Answered(0)], [])
  {
    steps := ExtendTo([], Arrive, START, State(0, None, None, [Asking], []));
    steps := ExtendTo(steps, Advance(0), State(0, None, None, [Asking], []), State(0, None, None, [Missed], []));
    steps := ExtendTo(steps, Advance(0), State(0, None, None, [Missed], []), State(0, None, None, [Loading], []));
    steps := ExtendTo(steps, Advance(0), State(0, None, None, [Loading], []), State(0, None, None, [Loaded(0)], []));
    steps := ExtendTo(steps, Advance(0), State(0, None, None, [Loaded(0)], []), State(0, None, Some(0), [Filling(0)], []));
    steps := ExtendTo(steps, Advance(0), State(0, None, Some(0), [Filling(0)], []), State(0, Some(0), Some(0), [Answered(0)], []));
  }

  /** The source changes, and the cache entry is deleted. */
  lemma ChangeDropsCache(before: seq<Step>) returns (steps: seq<Step>)
    requires Happens(before) && After(before) == State(0, Some(0), Some(0), [Answered(0)], [])
    ensures Happens(steps) && After(steps) == State(1, None, Some(0), [Answered(0)], [MustDropSnap])
  {
    steps := ExtendTo(before, Change, After(before), State(1, Some(0), Some(0), [Answered(0)], [MustDropCache]));
    steps := ExtendTo(steps, Drop(0), State(1, Some(0), Some(0), [Answered(0)], [MustDropCache]),
                      State(1, None, Some(0), [Answered(0)], [MustDropSnap]));
  }

  /** A second read takes the snapshot before that is deleted too. */
  lemma SecondReadTakesSnapshot(before: seq<Step>) returns (steps: seq<Step>)
    requires Happens(before) && After(before) == State(1, None, Some(0), [Answered(0)], [MustDropSnap])
    ensures Happens(steps) && After(steps) == State(1, Some(0), None, [Answered(0), Answered(0)], [Done])
  {
    steps := ExtendTo(before, Arrive, After(before), State(1, None, Some(0), [Answered(0), Asking], [MustDropSnap]));
    steps := ExtendTo(steps, Advance(1), State(1, None, Some(0), [Answered(0), Asking], [MustDropSnap]),
                      State(1, None, Some(0), [Answered(0), Missed], [MustDropSnap]));
    steps := ExtendTo(steps, Advance(1), State(1, None, Some(0), [Answered(0), Missed], [MustDropSnap]),
                      State(1, None, Some(0), [Answered(0), Filling(0)], [MustDropSnap]));
    steps := ExtendTo(steps, Advance(1), State(1, None, Some(0), [Answered(0), Filling(0)], [MustDropSnap]),
                      State(1, Some(0), Some(0), [Answered(0), Answered(0)], [MustDropSnap]));
    steps := ExtendTo(steps, Drop(0), State(1, Some(0), Some(0), [Answered(0), Answered(0)], [MustDropSnap]),
                      State(1, Some(0), None, [Answered(0), Answered(0)], [Done]));
  }

  /** A read that comes between the two deletions of an invalidation: it misses the cache, takes the
      snapshot that is about to be deleted, and caches it for good. */
  lemma ReadBetweenDeletions() returns (steps: seq<Step>)
    ensures Happens(steps) && !SnapDropPending(After(steps))
    ensures After(steps) == State(1, Some(0), None, [Answered(0), Answered(0)], [Done])
    ensures AloneAnswer(After(steps)) == 0
  {
    steps := FirstReadFills();
    steps := ChangeDropsCache(steps);
    steps := SecondReadTakesSnapshot(steps);
  }
}
