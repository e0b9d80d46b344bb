/** Claiming transactions before writing them, by any number of concurrent ingest runs, one Redis
    or SQL statement at a time (`runBatchIngest` and `filterDuplicateTransactions`). */
module IngestClaims {
  /** `BuildTransactionCanonicalKey`, as a tuple: chain, hash, wallet. */
  datatype TxKey = TxKey(chain: string, hash: string, wallet: string)

  /** Where a run is: what it still has to claim, write or release, and the keys it claimed. */
  datatype Phase =
    | Claiming(todo: seq<TxKey>, owned: seq<TxKey>)
    | Writing(todo: seq<TxKey>, owned: seq<TxKey>)
    | Deriving(owned: seq<TxKey>)
    | Releasing(todo: seq<TxKey>)
    | Ended(ok: bool)

  datatype Run = Run(fetched: seq<TxKey>, phase: Phase)

  datatype State = State(claims: set<TxKey>, stored: set<TxKey>, runs: seq<Run>)

  /** `DeriveFails` is a failure of the daily stats, the graph or the expansion; `LateFails` one after
      those, which releases nothing. `Abandon` is an end without releases: a claim that errors, a
      release that errors, or a crash. */
  datatype Move = Claim | BeginWrites | Write | WriteFails | BeginDerive | DeriveFails | Succeed | LateFails
                | Release | EndRelease | Abandon

  datatype Action = Start(fetched: seq<TxKey>) | Advance(r: nat, move: Move)

  predicate CanMove(phase: Phase, m: Move) {
    match m
    case Claim => phase.Claiming? && phase.todo != []
    case BeginWrites => phase.Claiming? && phase.todo == []
    case Write => phase.Writing? && phase.todo != []
    case WriteFails => phase.Writing? && phase.todo != []
    case BeginDerive => phase.Writing? && phase.todo == []
    case DeriveFails => phase.Deriving?
    case Succeed => phase.Deriving?
    case LateFails => phase.Deriving?
    case Release => phase.Releasing? && phase.todo != []
    case EndRelease => phase.Releasing? && phase.todo == []
    case Abandon => !phase.Ended?
  }

  /** The phase after the move; a claim looks at the claims of that moment. */
  function Moved(phase: Phase, claims: set<TxKey>, m: Move): Phase
    requires CanMove(phase, m)
  {
    match m
    case Claim =>
      Claiming(phase.todo[1..], if phase.todo[0] in claims then phase.owned else phase.owned + [phase.todo[0]])
    case BeginWrites => Writing(phase.owned, phase.owned)
    case Write => Writing(phase.todo[1..], phase.owned)
    case WriteFails => Releasing(phase.owned)
    case BeginDerive => Deriving(phase.owned)
    case DeriveFails => Releasing(phase.owned)
    case Succeed => Ended(true)
    case LateFails => Ended(false)
    case Release => Releasing(phase.todo[1..])
    case EndRelease => Ended(false)
    case Abandon => Ended(false)
  }

  function ClaimsAfter(phase: Phase, claims: set<TxKey>, m: Move): set<TxKey>
    requires CanMove(phase, m)
  {
    if m == Claim then claims + {phase.todo[0]}
    else if m == Release then claims - {phase.todo[0]}
    else claims
  }

  function StoredAfter(phase: Phase, stored: set<TxKey>, m: Move): set<TxKey>
    requires CanMove(phase, m)
  {
    if m == Write then stored + {phase.todo[0]} else stored
  }

  predicate Enabled(s: State, a: Action) {
    a.Advance? ==> a.r < |s.runs| && CanMove(s.runs[a.r].phase, a.move)
  }

  function Next(s: State, a: Action): State
    requires Enabled(s, a)
  {
    match a
    case Start(fetched) => s.(runs := s.runs + [Run(fetched, Claiming(fetched, []))])
    case Advance(r, m) =>
      var phase := s.runs[r].phase;
      State(ClaimsAfter(phase, s.claims, m), StoredAfter(phase, s.stored, m),
            s.runs[r := s.runs[r].(phase := Moved(phase, s.claims, m))])
  }

  /** The claims a run in flight still answers for. */
  function Holds(phase: Phase): seq<TxKey> {
    match phase
    case Ended(_) => []
    case Releasing(todo) => todo
    case _ => phase.owned
  }

  /** No lost transactions: every claimed key is stored, or held by a run in flight. */
  ghost predicate NoneLost(s: State) {
    forall k :: k in s.claims ==> k in s.stored || exists r :: 0 <= r < |s.runs| && k in Holds(s.runs[r].phase)
  }

  predicate Distinct(keys: seq<TxKey>) {
    forall i, j :: 0 <= i < j < |keys| ==> keys[i] != keys[j]
  }

  /** What a run knows about the keys it holds. */
  ghost predicate PhaseValid(claims: set<TxKey>, stored: set<TxKey>, phase: Phase) {
    && Distinct(Holds(phase))
    && (forall k :: k in Holds(phase) ==> k in claims)
    && (phase.Writing? ==> forall k :: k in phase.owned ==> k in phase.todo || k in stored)
    && (phase.Deriving? ==> forall k :: k in phase.owned ==> k in stored)
  }

  ghost predicate Valid(s: State) {
    forall r :: 0 <= r < |s.runs| ==> PhaseValid(s.claims, s.stored, s.runs[r].phase)
  }

  /** Claims are exclusive: no key is held by two runs. */
  ghost predicate Exclusive(s: State) {
    forall q, r, k :: 0 <= q < r < |s.runs| && k in Holds(s.runs[q].phase) ==> k !in Holds(s.runs[r].phase)
  }

  /** A move adds only keys nobody claimed and gives up only keys its run holds. */
  lemma MoveEffect(phase: Phase, claims: set<TxKey>, stored: set<TxKey>, m: Move)
    requires CanMove(phase, m) && PhaseValid(claims, stored, phase)
    ensures var phase' := Moved(phase, claims, m);
      var claims' := ClaimsAfter(phase, claims, m);
      && PhaseValid(claims', StoredAfter(phase, stored, m), phase')
      && (forall k :: k in Holds(phase') ==> k in Holds(phase) || k !in claims)
      && (forall k :: k in claims && k !in claims' ==> k in Holds(phase))
  {
    if m == Claim || m == Release || m == Write {
      assert phase.todo == [phase.todo[0]] + phase.todo[1..];
    }
  }

  lemma StepKeepsValid(s: State, a: Action)
    requires Valid(s) && Exclusive(s) && Enabled(s, a)
    ensures Valid(Next(s, a)) && Exclusive(Next(s, a))
  {
    var s' := Next(s, a);
    if a.Advance? {
      MoveEffect(s.runs[a.r].phase, s.claims, s.stored, a.move);
      forall r | 0 <= r < |s'.runs| ensures PhaseValid(s'.claims, s'.stored, s'.runs[r].phase) {
        OthersUntouched(s, a.r, r);
      }
      forall q, r, k | 0 <= q < r < |s'.runs| && k in Holds(s'.runs[q].phase)
        ensures k !in Holds(s'.runs[r].phase)
      {
        assert PhaseValid(s.claims, s.stored, s.runs[q].phase);
        assert PhaseValid(s.claims, s.stored, s.runs[r].phase);
      }
    }
  }

  lemma OthersUntouched(s: State, moved: nat, r: nat)
    requires Valid(s) && Exclusive(s) && moved < |s.runs| && r < |s.runs|
    ensures PhaseValid(s.claims, s.stored, s.runs[r].phase)
    ensures r != moved ==> forall k :: k in Holds(s.runs[moved].phase) ==> k !in Holds(s.runs[r].phase)
  {
  }

  /** A move other than abandoning drops a held key only when it is stored or no longer claimed, and holds what it claims. */
  lemma MoveKeepsTrack(phase: Phase, claims: set<TxKey>, stored: set<TxKey>, m: Move)
    requires CanMove(phase, m) && PhaseValid(claims, stored, phase) && m != Abandon
    ensures var phase' := Moved(phase, claims, m);
      var claims' := ClaimsAfter(phase, claims, m);
      && stored <= StoredAfter(phase, stored, m)
      && (forall k :: k in Holds(phase) ==> k in Holds(phase') || k in StoredAfter(phase, stored, m) || k !in claims')
      && (forall k :: k in claims' ==> k in claims || k in Holds(phase'))
  {
    if m == Claim || m == Release || m == Write {
      assert phase.todo == [phase.todo[0]] + phase.todo[1..];
    }
  }

  /** Every move but abandoning keeps the promise. */
  lemma StepLosesNothing(s: State, a: Action)
    requires Valid(s) && NoneLost(s) && Enabled(s, a)
    requires a.Advance? ==> a.move != Abandon
    ensures NoneLost(Next(s, a))
  {
    var s' := Next(s, a);
    if a.Advance? {
      assert PhaseValid(s.claims, s.stored, s.runs[a.r].phase);
      MoveKeepsTrack(s.runs[a.r].phase, s.claims, s.stored, a.move);
    }
    forall k | k in s'.claims && k !in s'.stored ensures exists r :: 0 <= r < |s'.runs| && k in Holds(s'.runs[r].phase) {
      if k in s.claims {
        var r :| 0 <= r < |s.runs| && k in Holds(s.runs[r].phase);
        assert k in Holds(s'.runs[r].phase);
      } else {
        assert k in Holds(s'.runs[a.r].phase);
      }
    }
  }

  /** Abandoning a run (a claim or release that errors, a crash) is harmless exactly when all it
      still holds is already stored. */
  lemma AbandonLosesIffUnstored(s: State, r: nat)
    requires Valid(s) && Exclusive(s) && NoneLost(s) && Enabled(s, Advance(r, Abandon))
    ensures NoneLost(Next(s, Advance(r, Abandon))) <==> forall k :: k in Holds(s.runs[r].phase) ==> k in s.stored
  {
    var s' := Next(s, Advance(r, Abandon));
    assert forall q :: 0 <= q < |s.runs| && q != r ==> s'.runs[q] == s.runs[q];
    if forall k :: k in Holds(s.runs[r].phase) ==> k in s.stored {
      forall k | k in s'.claims && k !in s'.stored
        ensures exists q :: 0 <= q < |s'.runs| && k in Holds(s'.runs[q].phase)
      {
        var q :| 0 <= q < |s.runs| && k in Holds(s.runs[q].phase);
        assert s'.runs[q] == s.runs[q];
      }
    } else {
      var k :| k in Holds(s.runs[r].phase) && k !in s.stored;
      HeldOnlyBy(s, r, k);
      assert k in s'.claims;
      assert forall q :: 0 <= q < |s'.runs| ==> k !in Holds(s'.runs[q].phase);
    }
  }

  lemma HeldOnlyBy(s: State, r: nat, k: TxKey)
    requires Valid(s) && Exclusive(s) && r < |s.runs| && k in Holds(s.runs[r].phase)
    ensures k in s.claims
    ensures forall q :: 0 <= q < |s.runs| && q != r ==> k !in Holds(s.runs[q].phase)
  {
    assert PhaseValid(s.claims, s.stored, s.runs[r].phase);
    forall q | 0 <= q < |s.runs| && q != r ensures k !in Holds(s.runs[q].phase) {
      OthersUntouched(s, r, q);
    }
  }

  predicate Harmless(s: State, a: Action) {
    && Enabled(s, a)
    && (a.Advance? && a.move == Abandon ==> forall k :: k in Holds(s.runs[a.r].phase) ==> k in s.stored)
  }

  /** Any interleaving in which runs are abandoned only when everything they hold is stored. */
  ghost predicate Trace(start: State, actions: seq<Action>, end: State)
    decreases |actions|
  {
    if actions == [] then end == start
    else Harmless(start, actions[0]) && Trace(Next(start, actions[0]), actions[1..], end)
  }

  /** Safety over whole runs: whatever components fail and however the runs interleave, a claimed
      key is stored or in flight, and a claim is held by one run at a time. */
  lemma {:induction false} NoLostTransactions(start: State, actions: seq<Action>, end: State)
    requires Valid(start) && Exclusive(start) && NoneLost(start) && Trace(start, actions, end)
    ensures Valid(end) && Exclusive(end) && NoneLost(end)
    decreases |actions|
  {
    if actions != [] {
      StepKeepsValid(start, actions[0]);
      if actions[0].Advance? && actions[0].move == Abandon {
        AbandonLosesIffUnstored(start, actions[0].r);
      } else {
        StepLosesNothing(start, actions[0]);
      }
      NoLostTransactions(Next(start, actions[0]), actions[1..], end);
    }
  }

  /** Once no run is in flight, every claimed transaction is stored. */
  lemma QuiescentClaimsAreStored(actions: seq<Action>, end: State)
    requires Trace(State({}, {}, []), actions, end)
    requires forall r :: 0 <= r < |end.runs| ==> end.runs[r].phase.Ended?
    ensures end.claims <= end.stored
  {
    NoLostTransactions(State({}, {}, []), actions, end);
    forall k | k in end.claims ensures k in end.stored {
      assert forall r :: 0 <= r < |end.runs| ==> Holds(end.runs[r].phase) == [];
    }
  }

  /** Any interleaving at all, harmful abandonments included. */
  ghost predicate Steps(start: State, actions: seq<Action>, end: State)
    decreases |actions|
  {
    if actions == [] then end == start
    else Enabled(start, actions[0]) && Steps(Next(start, actions[0]), actions[1..], end)
  }

  ghost predicate Held(s: State, k: TxKey) {
    exists r :: 0 <= r < |s.runs| && k in Holds(s.runs[r].phase)
  }

  /** The step releases the key, or abandons the run that holds it. */
  predicate GivesUp(s: State, a: Action, k: TxKey)
    requires Enabled(s, a)
  {
    && a.Advance?
    && (if a.move == Release then s.runs[a.r].phase.todo[0] == k
        else a.move == Abandon && k in Holds(s.runs[a.r].phase))
  }

  /** The step makes a run hold the key. */
  predicate Takes(s: State, a: Action, k: TxKey)
    requires Enabled(s, a)
  {
    a.Advance? && a.move == Claim && s.runs[a.r].phase.todo[0] == k && k !in s.claims
  }

  ghost predicate NobodyTakes(s: State, actions: seq<Action>, end: State, k: TxKey)
    requires Steps(s, actions, end)
    decreases |actions|
  {
    actions == [] || (!Takes(s, actions[0], k) && NobodyTakes(Next(s, actions[0]), actions[1..], end, k))
  }

  /** Some step gives the key up, and no later one takes it again. */
  ghost predicate GivenUpForGood(s: State, actions: seq<Action>, end: State, k: TxKey)
    requires Steps(s, actions, end)
    decreases |actions|
  {
    && actions != []
    && var next := Next(s, actions[0]);
       || (GivesUp(s, actions[0], k) && NobodyTakes(next, actions[1..], end, k))
       || GivenUpForGood(next, actions[1..], end, k)
  }

  lemma MoveHolds(phase: Phase, claims: set<TxKey>, stored: set<TxKey>, m: Move, k: TxKey)
    requires CanMove(phase, m) && PhaseValid(claims, stored, phase)
    ensures var taken := m == Claim && phase.todo[0] == k && k !in claims;
      var gives := if m == Release then phase.todo[0] == k else m == Abandon && k in Holds(phase);
      var holds := k in Holds(Moved(phase, claims, m));
      && (taken ==> holds)
      && (gives ==> !holds)
      && (!taken && holds ==> k in Holds(phase))
      && (k in Holds(phase) && !gives ==> holds || k in stored)
  {
    if m == Claim || m == Release {
      assert phase.todo == [phase.todo[0]] + phase.todo[1..];
    }
  }

  /** A key comes into hands by being taken and leaves them by being given up or stored. */
  lemma StepHolds(s: State, a: Action, k: TxKey)
    requires Valid(s) && Exclusive(s) && Enabled(s, a)
    ensures Takes(s, a, k) ==> Held(Next(s, a), k)
    ensures !Takes(s, a, k) && Held(Next(s, a), k) ==> Held(s, k)
    ensures GivesUp(s, a, k) ==> !Held(Next(s, a), k)
    ensures Held(s, k) && !GivesUp(s, a, k) ==> Held(Next(s, a), k) || k in s.stored
    ensures s.stored <= Next(s, a).stored
  {
    var s' := Next(s, a);
    if a.Start? {
      assert forall r :: 0 <= r < |s.runs| ==> s'.runs[r] == s.runs[r];
    } else {
      assert PhaseValid(s.claims, s.stored, s.runs[a.r].phase);
      MoveHolds(s.runs[a.r].phase, s.claims, s.stored, a.move, k);
      assert s'.runs[a.r].phase == Moved(s.runs[a.r].phase, s.claims, a.move);
      assert k in Holds(s'.runs[a.r].phase) ==> Held(s', k);
      assert forall r :: 0 <= r < |s.runs| && r != a.r ==> s'.runs[r] == s.runs[r];
      if k in Holds(s.runs[a.r].phase) {
        HeldOnlyBy(s, a.r, k);
      }
    }
  }

  /** What becomes of a key nobody holds: nothing, unless somebody takes it. */
  lemma {:induction false} NotHeldUntilTaken(s: State, actions: seq<Action>, end: State, k: TxKey)
    requires Valid(s) && Exclusive(s) && Steps(s, actions, end) && !Held(s, k)
    ensures NobodyTakes(s, actions, end, k) ==> !Held(end, k)
    ensures !NobodyTakes(s, actions, end, k) && k !in end.stored ==>
      (Held(end, k) <==> !GivenUpForGood(s, actions, end, k))
    ensures NobodyTakes(s, actions, end, k) ==> !GivenUpForGood(s, actions, end, k)
    ensures s.stored <= end.stored
    decreases |actions|
  {
    if actions != [] {
      var a, next := actions[0], Next(s, actions[0]);
      StepKeepsValid(s, a);
      StepHolds(s, a, k);
      if Takes(s, a, k) {
        HeldUntilGivenUp(next, actions[1..], end, k);
      } else {
        NotHeldUntilTaken(next, actions[1..], end, k);
      }
    }
  }

  /** What becomes of a key in the hands of a run: as long as it is not stored, it is missing exactly
      when it was given up and nobody took it since. */
  lemma {:induction false} HeldUntilGivenUp(s: State, actions: seq<Action>, end: State, k: TxKey)
    requires Valid(s) && Exclusive(s) && Steps(s, actions, end) && (Held(s, k) || k in s.stored)
    ensures k !in end.stored ==> (Held(end, k) <==> !GivenUpForGood(s, actions, end, k))
    ensures s.stored <= end.stored
    decreases |actions|
  {
    if actions != [] {
      var a, next := actions[0], Next(s, actions[0]);
      StepKeepsValid(s, a);
      StepHolds(s, a, k);
      if Held(next, k) || k in next.stored {
        HeldUntilGivenUp(next, actions[1..], end, k);
      } else {
        NotHeldUntilTaken(next, actions[1..], end, k);
      }
    }
  }

  /** What a run may rely on when it skips a claimed key: whatever happens next, the key is stored, or
      in the hands of a run, or it was given up and nobody took it since; and of the last two exactly one. */
  lemma SkippedIsMissingIff(before: seq<Action>, s: State, r: nat, after: seq<Action>, end: State)
    requires Trace(State({}, {}, []), before, s) && Enabled(s, Advance(r, Claim))
    requires s.runs[r].phase.todo[0] in s.claims && Steps(s, [Advance(r, Claim)] + after, end)
    ensures var k := s.runs[r].phase.todo[0];
      k !in end.stored ==> (!Held(end, k) <==> GivenUpForGood(s, [Advance(r, Claim)] + after, end, k))
  {
    NoLostTransactions(State({}, {}, []), before, s);
    HeldUntilGivenUp(s, [Advance(r, Claim)] + after, end, s.runs[r].phase.todo[0]);
  }

  /** The limit of the promise: a run may skip a key another run holds and succeed, and that other
      run may then fail to write it. Of the two runs below only the second one succeeds. */
  lemma SkippedDuplicateCanBeMissing(k: TxKey)
    ensures exists actions :: Trace(State({}, {}, []), actions, Missed(k))
    ensures Missed(k).runs[1].phase == Ended(true) && k in Missed(k).runs[1].fetched && k !in Missed(k).stored
  {
    var start := State({}, {}, []);
    var none: seq<TxKey> := [];
    assert [k][1..] == none && none + [k] == [k];
    var holding := Run([k], Claiming([], [k]));
    var s1 := State({}, {}, [Run([k], Claiming([k], []))]);
    var s2 := State({k}, {}, [holding]);
    var s3 := State({k}, {}, [holding, Run([k], Claiming([k], []))]);
    var s4 := State({k}, {}, [holding, Run([k], Claiming([], []))]);
    var t := Extend(start, [], start, Start([k]), s1);
    t := Extend(start, t, s1, Advance(0, Claim), s2);
    t := Extend(start, t, s2, Start([k]), s3);
    t := Extend(start, t, s3, Advance(1, Claim), s4);
    t := SecondSucceeds(start, t, k);
    t := FirstReleases(start, t, k);
  }

  function Missed(k: TxKey): State {
    State({}, {}, [Run([k], Releasing([])), Run([k], Ended(true))])
  }

  lemma SecondSucceeds(start: State, t: seq<Action>, k: TxKey) returns (t': seq<Action>)
    requires Trace(start, t, State({k}, {}, [Run([k], Claiming([], [k])), Run([k], Claiming([], []))]))
    ensures Trace(start, t', State({k}, {}, [Run([k], Claiming([], [k])), Run([k], Ended(true))]))
  {
    var holding := Run([k], Claiming([], [k]));
    var s5 := State({k}, {}, [holding, Run([k], Writing([], []))]);
    var s6 := State({k}, {}, [holding, Run([k], Deriving([]))]);
    t' := Extend(start, t, State({k}, {}, [holding, Run([k], Claiming([], []))]), Advance(1, BeginWrites), s5);
    t' := Extend(start, t', s5, Advance(1, BeginDerive), s6);
    t' := Extend(start, t', s6, Advance(1, Succeed), State({k}, {}, [holding, Run([k], Ended(true))]));
  }

  lemma FirstReleases(start: State, t: seq<Action>, k: TxKey) returns (t': seq<Action>)
    requires Trace(start, t, State({k}, {}, [Run([k], Claiming([], [k])), Run([k], Ended(true))]))
    ensures Trace(start, t', Missed(k))
  {
    var done := Run([k], Ended(true));
    assert [k][1..] == [];
    var s8 := State({k}, {}, [Run([k], Writing([k], [k])), done]);
    var s9 := State({k}, {}, [Run([k], Releasing([k])), done]);
    t' := Extend(start, t, State({k}, {}, [Run([k], Claiming([], [k])), done]), Advance(0, BeginWrites), s8);
    t' := Extend(start, t', s8, Advance(0, WriteFails), s9);
    t' := Extend(start, t', s9, Advance(0, Release), Missed(k));
  }

  lemma {:induction false} Extend(start: State, t: seq<Action>, s: State, a: Action, s': State) returns (t': seq<Action>)
    requires Trace(start, t, s) && Harmless(s, a) && Next(s, a) == s'
    ensures t' == t + [a] && Trace(start, t', s')
    decreases |t|
  {
    t' := t + [a];
    if t == [] {
      assert t'[1..] == [];
      assert Trace(s', [], s');
    } else {
      var rest := Extend(Next(start, t[0]), t[1..], s, a, s');
      assert t'[1..] == rest;
    }
  }
}
