/** What the two suppression layers of alert dispatch guarantee over whole runs
    (apps/workers/alerts.go). */
module AlertCooldown {
  import opened Text
  import opened AlertDispatch

  /** One call of the dispatcher: the rules the store listed and the signal. */
  datatype Call = Call(rules: seq<Rule>, signal: Signal)

  /** The alert_events table after the calls, one after the other. */
  function History(calls: seq<Call>): seq<Event> {
    if calls == [] then []
    else
      var last := calls[|calls| - 1];
      MeetAll(History(calls[..|calls| - 1]), last.rules, last.signal)
  }

  /** What stays fixed about a rule while its other settings may be edited between calls.
      `quiet` rules never re-notify. */
  datatype Settings = Settings(owner: string -> string, cooldown: string -> int, quiet: set<string>)

  predicate RuleFits(rule: Rule, settings: Settings) {
    && rule.owner == settings.owner(rule.id)
    && rule.cooldownSeconds == settings.cooldown(rule.id)
    && (rule.id in settings.quiet ==> !rule.renotify)
  }

  ghost predicate RulesFit(rules: seq<Rule>, settings: Settings) {
    forall i :: 0 <= i < |rules| ==> RuleFits(rules[i], settings)
  }

  ghost predicate CallsFit(calls: seq<Call>, settings: Settings) {
    forall i :: 0 <= i < |calls| ==> RulesFit(calls[i].rules, settings)
  }

  /** Signals for one event key arrive in the order they were observed. */
  ghost predicate InOrder(calls: seq<Call>) {
    forall i, j :: 0 <= i < j < |calls| && calls[i].signal.eventKey == calls[j].signal.eventKey
      ==> calls[i].signal.observedAt <= calls[j].signal.observedAt
  }

  predicate SameStream(a: Event, b: Event) {
    a.rule == b.rule && a.eventKey == b.eventKey
  }

  /** Whether the second event was observed before the first one's cooldown ended. */
  predicate Close(a: Event, b: Event, settings: Settings) {
    b.observedAt < a.observedAt + settings.cooldown(a.rule) * SECOND
  }

  // ---- What every stored event satisfies ----

  predicate EventFits(e: Event, settings: Settings) {
    && e.owner == settings.owner(e.rule)
    && e.dedup == DedupKey(e.rule, e.eventKey, e.severity,
                           Truncate(e.observedAt, Window(settings.cooldown(e.rule))))
  }

  ghost predicate Recorded(events: seq<Event>, settings: Settings) {
    forall i :: 0 <= i < |events| ==> EventFits(events[i], settings)
  }

  /** Within a stream: later rows were observed no earlier, and rows that are close escalate. */
  ghost predicate Escalating(events: seq<Event>, settings: Settings) {
    forall i, j :: 0 <= i < j < |events| && SameStream(events[i], events[j]) ==>
      && events[i].observedAt <= events[j].observedAt
      && (Close(events[i], events[j], settings) && settings.cooldown(events[i].rule) > 0
          ==> events[i].severity < events[j].severity)
  }

  /** Rows of a quiet rule's stream are at least a cooldown apart. */
  ghost predicate Spaced(events: seq<Event>, settings: Settings) {
    forall i, j :: 0 <= i < j < |events| && SameStream(events[i], events[j])
      && events[i].rule in settings.quiet && settings.cooldown(events[i].rule) > 0
      ==> !Close(events[i], events[j], settings)
  }

  /** No row of the signal's streams was observed after the signal. */
  ghost predicate NotBefore(events: seq<Event>, signal: Signal) {
    forall i :: 0 <= i < |events| && events[i].eventKey == signal.eventKey ==> events[i].observedAt <= signal.observedAt
  }

  // ---- The latest event ----

  /** Row l is the stream's last observed one, the newest of those observed together. */
  ghost predicate IsLatestAt(events: seq<Event>, l: nat, rule: Rule, eventKey: string) {
    && l < |events| && OfStream(events[l], rule, eventKey)
    && (forall i :: 0 <= i < |events| && OfStream(events[i], rule, eventKey) ==> events[i].observedAt <= events[l].observedAt)
    && (forall i :: l < i < |events| && OfStream(events[i], rule, eventKey) ==> events[i].observedAt < events[l].observedAt)
  }

  lemma LatestStays(before: seq<Event>, e: Event, l: nat, rule: Rule, eventKey: string)
    requires IsLatestAt(before, l, rule, eventKey)
    requires OfStream(e, rule, eventKey) ==> e.observedAt < before[l].observedAt
    ensures IsLatestAt(before + [e], l, rule, eventKey)
  {
    assert forall i :: 0 <= i < |before| ==> (before + [e])[i] == before[i];
  }

  lemma LatestMoves(before: seq<Event>, e: Event, rule: Rule, eventKey: string)
    requires OfStream(e, rule, eventKey)
    requires forall i :: 0 <= i < |before| && OfStream(before[i], rule, eventKey) ==> before[i].observedAt <= e.observedAt
    ensures IsLatestAt(before + [e], |before|, rule, eventKey)
  {
    assert forall i :: 0 <= i < |before| ==> (before + [e])[i] == before[i];
  }

  lemma {:induction false} LatestIsLast(events: seq<Event>, rule: Rule, eventKey: string)
    ensures match Latest(events, rule, eventKey)
            case None => forall i :: 0 <= i < |events| ==> !OfStream(events[i], rule, eventKey)
            case Some(e) => exists l: nat :: IsLatestAt(events, l, rule, eventKey) && events[l] == e
  {
    if events != [] {
      var n := |events| - 1;
      var before := events[..n];
      LatestIsLast(before, rule, eventKey);
      assert events == before + [events[n]];
      var earlier := Latest(before, rule, eventKey);
      if earlier.None? {
        if OfStream(events[n], rule, eventKey) {
          LatestMoves(before, events[n], rule, eventKey);
        } else {
          assert forall i :: 0 <= i < n ==> events[i] == before[i];
        }
      } else {
        var l: nat :| IsLatestAt(before, l, rule, eventKey) && before[l] == earlier.value;
        if OfStream(events[n], rule, eventKey) && earlier.value.observedAt <= events[n].observedAt {
          LatestMoves(before, events[n], rule, eventKey);
        } else {
          LatestStays(before, events[n], l, rule, eventKey);
        }
      }
    }
  }

  // ---- One rule, one signal ----

  /** A new event that is not suppressed escalates over every row it is close to. */
  lemma NewEventEscalates(events: seq<Event>, rule: Rule, signal: Signal, settings: Settings, i: nat)
    requires Recorded(events, settings) && Escalating(events, settings) && RuleFits(rule, settings)
    requires NotBefore(events, signal)
    requires !Suppressed(rule, signal, Latest(events, rule, signal.eventKey))
    requires i < |events| && SameStream(events[i], NewEvent(rule, signal)) && rule.cooldownSeconds > 0
    requires Close(events[i], NewEvent(rule, signal), settings)
    ensures events[i].severity < signal.severity
  {
    LatestIsLast(events, rule, signal.eventKey);
    assert EventFits(events[i], settings);
    assert OfStream(events[i], rule, signal.eventKey);
    var e := Latest(events, rule, signal.eventKey).value;
    var l: nat :| IsLatestAt(events, l, rule, signal.eventKey) && events[l] == e;
    assert i <= l;
    if i < l {
      assert SameStream(events[i], events[l]);
    }
  }

  /** A new event of a quiet rule is clear of every row of its stream, in whatever order signals come. */
  lemma NewQuietEventIsClear(events: seq<Event>, rule: Rule, signal: Signal, settings: Settings, i: nat)
    requires Recorded(events, settings) && RuleFits(rule, settings) && rule.id in settings.quiet
    requires !Suppressed(rule, signal, Latest(events, rule, signal.eventKey))
    requires i < |events| && SameStream(events[i], NewEvent(rule, signal)) && rule.cooldownSeconds > 0
    ensures !Close(events[i], NewEvent(rule, signal), settings)
  {
    LatestIsLast(events, rule, signal.eventKey);
    assert EventFits(events[i], settings);
    assert OfStream(events[i], rule, signal.eventKey);
  }

  /** Exactly when a rule suppresses a signal: the rule does not take it, or the stream's last row is less than
      a cooldown old and the signal does not escalate over it under a rule that re-notifies. */
  lemma SuppressedIff(events: seq<Event>, rule: Rule, signal: Signal)
    ensures Judge(events, rule, signal) == Suppress <==>
      || !rule.valid || signal.severity < rule.minimumSeverity
      || (rule.snoozeUntil.Some? && signal.observedAt < rule.snoozeUntil.value)
      || exists l: nat :: IsLatestAt(events, l, rule, signal.eventKey)
           && rule.cooldownSeconds > 0 && signal.observedAt < events[l].observedAt + rule.cooldownSeconds * SECOND
           && (!rule.renotify || signal.severity <= events[l].severity)
  {
    LatestIsLast(events, rule, signal.eventKey);
    forall k: nat, l: nat | IsLatestAt(events, k, rule, signal.eventKey) && IsLatestAt(events, l, rule, signal.eventKey)
      ensures k == l
    {
    }
  }

  /** The rule's earlier row does not keep the signal back: it is a cooldown old, or the rule re-notifies
      and the signal is more severe. */
  predicate Clears(e: Event, rule: Rule, signal: Signal) {
    || e.observedAt + rule.cooldownSeconds * SECOND <= signal.observedAt
    || (rule.renotify && e.severity < signal.severity)
  }

  /** What must be recorded: a signal that the rule takes and that clears every row of the rule for its event
      key makes a row of its own. */
  lemma ClearSignalIsRecorded(events: seq<Event>, rule: Rule, signal: Signal, settings: Settings)
    requires Recorded(events, settings) && RuleFits(rule, settings) && rule.cooldownSeconds > 0
    requires rule.valid && signal.severity >= rule.minimumSeverity
    requires rule.snoozeUntil.Some? ==> rule.snoozeUntil.value <= signal.observedAt
    requires forall i :: 0 <= i < |events| && events[i].rule == rule.id && events[i].eventKey == signal.eventKey ==>
      Clears(events[i], rule, signal)
    ensures Judge(events, rule, signal) == Create
    ensures var after := Meet(events, rule, signal);
      && |after| == |events| + 1 && after[..|events|] == events
      && var e := after[|events|];
         && e.rule == rule.id && e.owner == rule.owner
         && e.eventKey == signal.eventKey && e.severity == signal.severity && e.observedAt == signal.observedAt
  {
    SuppressedIff(events, rule, signal);
    forall i | 0 <= i < |events| ensures events[i].dedup != DedupKeyFor(rule, signal) {
      assert EventFits(events[i], settings);
      ClearMeansFreshKey(events[i], rule, signal, settings);
    }
  }

  lemma ClearMeansFreshKey(e: Event, rule: Rule, signal: Signal, settings: Settings)
    requires EventFits(e, settings) && RuleFits(rule, settings) && rule.cooldownSeconds > 0
    requires e.rule == rule.id && e.eventKey == signal.eventKey ==> Clears(e, rule, signal)
    ensures e.dedup != DedupKeyFor(rule, signal)
  {
    var w := Window(rule.cooldownSeconds);
    assert signal.observedAt < Truncate(signal.observedAt, w) + w && Truncate(e.observedAt, w) <= e.observedAt;
  }

  /** Equal dedup keys name close rows of one stream with one severity. */
  lemma EqualKeysAreClose(e: Event, rule: Rule, signal: Signal, settings: Settings)
    requires EventFits(e, settings) && RuleFits(rule, settings) && rule.cooldownSeconds > 0
    requires e.dedup == DedupKeyFor(rule, signal)
    ensures SameStream(e, NewEvent(rule, signal)) && e.severity == signal.severity
    ensures Close(e, NewEvent(rule, signal), settings)
  {
    var w := Window(rule.cooldownSeconds);
    assert Truncate(e.observedAt, w) <= e.observedAt;
    assert signal.observedAt < Truncate(signal.observedAt, w) + w;
  }

  /** A row of the signal's stream has its severity and falls in the same bucket of the cooldown. */
  ghost predicate SameBucket(e: Event, rule: Rule, signal: Signal) {
    && SameStream(e, NewEvent(rule, signal)) && e.severity == signal.severity
    && Truncate(e.observedAt, Window(rule.cooldownSeconds)) == Truncate(signal.observedAt, Window(rule.cooldownSeconds))
  }

  predicate Eligible(rule: Rule, signal: Signal) {
    && rule.valid && signal.severity >= rule.minimumSeverity
    && (rule.snoozeUntil.Some? ==> rule.snoozeUntil.value <= signal.observedAt)
  }

  /** When the key refuses what the cooldown check lets through: a rule that re-notifies, a stream whose
      last row is less severe than the signal, and an equally severe row of it in the signal's bucket. */
  lemma DedupedIff(events: seq<Event>, rule: Rule, signal: Signal, settings: Settings)
    requires Recorded(events, settings) && RuleFits(rule, settings) && rule.cooldownSeconds > 0
    ensures Judge(events, rule, signal) == Dedupe <==>
      && Eligible(rule, signal) && rule.renotify
      && Latest(events, rule, signal.eventKey).Some?
      && Latest(events, rule, signal.eventKey).value.severity < signal.severity
      && exists i :: 0 <= i < |events| && SameBucket(events[i], rule, signal)
  {
    LatestIsLast(events, rule, signal.eventKey);
    forall i | 0 <= i < |events| ensures events[i].dedup == DedupKeyFor(rule, signal) <==> SameBucket(events[i], rule, signal) {
      assert EventFits(events[i], settings);
    }
    if i: nat :| i < |events| && events[i].dedup == DedupKeyFor(rule, signal) {
      assert EventFits(events[i], settings) && OfStream(events[i], rule, signal.eventKey);
      EqualKeysAreClose(events[i], rule, signal, settings);
    }
  }

  /** The two layers agree: what passes the cooldown check has a fresh dedup key, when the stream's
      signals are in order or the rule never re-notifies. */
  lemma PassingMeansFreshKey(events: seq<Event>, rule: Rule, signal: Signal, settings: Settings)
    requires Recorded(events, settings) && RuleFits(rule, settings) && rule.cooldownSeconds > 0
    requires rule.id in settings.quiet || (Escalating(events, settings) && NotBefore(events, signal))
    ensures Judge(events, rule, signal) != Dedupe
  {
    DedupedIff(events, rule, signal, settings);
    if rule.id !in settings.quiet {
      forall i: nat | i < |events| && SameBucket(events[i], rule, signal)
        ensures Latest(events, rule, signal.eventKey).Some?
                && Latest(events, rule, signal.eventKey).value.severity >= signal.severity
      {
        BucketIsUnderLatest(events, rule, signal, settings, i);
      }
    }
  }

  /** In a stream that is in order, the last row is at least as severe as any row in the signal's bucket. */
  lemma BucketIsUnderLatest(events: seq<Event>, rule: Rule, signal: Signal, settings: Settings, i: nat)
    requires Recorded(events, settings) && RuleFits(rule, settings) && rule.cooldownSeconds > 0
    requires Escalating(events, settings) && NotBefore(events, signal)
    requires i < |events| && SameBucket(events[i], rule, signal)
    ensures Latest(events, rule, signal.eventKey).Some?
    ensures Latest(events, rule, signal.eventKey).value.severity >= signal.severity
  {
    LatestIsLast(events, rule, signal.eventKey);
    assert EventFits(events[i], settings) && OfStream(events[i], rule, signal.eventKey);
    EqualKeysAreClose(events[i], rule, signal, settings);
    var l: nat :| IsLatestAt(events, l, rule, signal.eventKey) && events[l] == Latest(events, rule, signal.eventKey).value;
    assert i <= l && (i < l ==> SameStream(events[i], events[l]));
  }

  /** Without a cooldown the key alone decides: a repeat is the same severity in the same second. */
  lemma DedupedIffSameSecond(events: seq<Event>, rule: Rule, signal: Signal, settings: Settings)
    requires Recorded(events, settings) && RuleFits(rule, settings) && rule.cooldownSeconds <= 0
    ensures Judge(events, rule, signal) == Dedupe <==>
      && !Suppressed(rule, signal, None)
      && exists i :: 0 <= i < |events| && SameStream(events[i], NewEvent(rule, signal))
           && events[i].severity == signal.severity
           && Truncate(events[i].observedAt, SECOND) == Truncate(signal.observedAt, SECOND)
  {
    var key := DedupKeyFor(rule, signal);
    forall i | 0 <= i < |events|
      ensures events[i].dedup == key <==>
                SameStream(events[i], NewEvent(rule, signal)) && events[i].severity == signal.severity
                && Truncate(events[i].observedAt, SECOND) == Truncate(signal.observedAt, SECOND)
    {
      assert EventFits(events[i], settings);
    }
  }

  lemma MeetKeeps(events: seq<Event>, rule: Rule, signal: Signal, settings: Settings)
    requires Recorded(events, settings) && RuleFits(rule, settings)
    ensures Recorded(Meet(events, rule, signal), settings)
    ensures Spaced(events, settings) ==> Spaced(Meet(events, rule, signal), settings)
    ensures Escalating(events, settings) && NotBefore(events, signal) ==>
              Escalating(Meet(events, rule, signal), settings) && NotBefore(Meet(events, rule, signal), signal)
  {
    if Judge(events, rule, signal) == Create {
      var e := NewEvent(rule, signal);
      var after := events + [e];
      if Spaced(events, settings) && rule.id in settings.quiet && rule.cooldownSeconds > 0 {
        forall i | 0 <= i < |events| && SameStream(events[i], e) ensures !Close(events[i], e, settings) {
          NewQuietEventIsClear(events, rule, signal, settings, i);
        }
      }
      if Escalating(events, settings) && NotBefore(events, signal) {
        forall i | 0 <= i < |events| && SameStream(events[i], e) && rule.cooldownSeconds > 0 && Close(events[i], e, settings)
          ensures events[i].severity < e.severity
        {
          NewEventEscalates(events, rule, signal, settings, i);
        }
      }
    }
  }

  // ---- One dispatch ----

  lemma {:induction false} DispatchKeeps(events: seq<Event>, rules: seq<Rule>, signal: Signal, settings: Settings)
    requires Recorded(events, settings) && Spaced(events, settings) && RulesFit(rules, settings)
    ensures Recorded(MeetAll(events, rules, signal), settings) && Spaced(MeetAll(events, rules, signal), settings)
    ensures Escalating(events, settings) && NotBefore(events, signal) ==>
              Escalating(MeetAll(events, rules, signal), settings) && NotBefore(MeetAll(events, rules, signal), signal)
  {
    if rules != [] {
      var n := |rules| - 1;
      DispatchKeeps(events, rules[..n], signal, settings);
      MeetKeeps(MeetAll(events, rules[..n], signal), rules[n], signal, settings);
    }
  }

  /** A dispatch only appends rows that carry the signal's event key and time. */
  lemma {:induction false} DispatchAppends(events: seq<Event>, rules: seq<Rule>, signal: Signal)
    ensures events <= MeetAll(events, rules, signal)
    ensures forall i :: |events| <= i < |MeetAll(events, rules, signal)| ==>
              MeetAll(events, rules, signal)[i].eventKey == signal.eventKey
              && MeetAll(events, rules, signal)[i].observedAt == signal.observedAt
  {
    if rules != [] {
      DispatchAppends(events, rules[..|rules| - 1], signal);
    }
  }

  lemma {:induction false} DispatchDedupesNothing(events: seq<Event>, rules: seq<Rule>, signal: Signal, settings: Settings)
    requires Recorded(events, settings) && Spaced(events, settings) && RulesFit(rules, settings)
    requires forall i :: 0 <= i < |rules| ==> rules[i].cooldownSeconds > 0
    requires (Escalating(events, settings) && NotBefore(events, signal))
             || forall i :: 0 <= i < |rules| ==> rules[i].id in settings.quiet
    ensures Tally(events, rules, signal, Dedupe) == 0
  {
    if rules != [] {
      var n := |rules| - 1;
      DispatchDedupesNothing(events, rules[..n], signal, settings);
      DispatchKeeps(events, rules[..n], signal, settings);
      PassingMeansFreshKey(MeetAll(events, rules[..n], signal), rules[n], signal, settings);
    }
  }

  // ---- Whole runs ----

  /** Every row was observed when some signal for its event key was. */
  lemma {:induction false} RowsComeFromSignals(calls: seq<Call>, i: nat) returns (k: nat)
    requires i < |History(calls)|
    ensures k < |calls|
    ensures History(calls)[i].eventKey == calls[k].signal.eventKey && History(calls)[i].observedAt == calls[k].signal.observedAt
  {
    var n := |calls| - 1;
    var before := History(calls[..n]);
    DispatchAppends(before, calls[n].rules, calls[n].signal);
    if i < |before| {
      k := RowsComeFromSignals(calls[..n], i);
      assert History(calls)[i] == before[i];
    } else {
      k := n;
    }
  }

  lemma NoRowAfterNextSignal(calls: seq<Call>, signal: Signal)
    requires InOrder(calls)
    requires forall k :: 0 <= k < |calls| && calls[k].signal.eventKey == signal.eventKey ==> calls[k].signal.observedAt <= signal.observedAt
    ensures NotBefore(History(calls), signal)
  {
    var events := History(calls);
    forall i | 0 <= i < |events| && events[i].eventKey == signal.eventKey ensures events[i].observedAt <= signal.observedAt {
      var k := RowsComeFromSignals(calls, i);
    }
  }

  lemma {:induction false} RunKeeps(calls: seq<Call>, settings: Settings)
    requires CallsFit(calls, settings)
    ensures Recorded(History(calls), settings) && Spaced(History(calls), settings)
    ensures InOrder(calls) ==> Escalating(History(calls), settings)
  {
    if calls != [] {
      var n := |calls| - 1;
      RunKeeps(calls[..n], settings);
      assert RulesFit(calls[n].rules, settings);
      if InOrder(calls) {
        NoRowAfterNextSignal(calls[..n], calls[n].signal);
      }
      DispatchKeeps(History(calls[..n]), calls[n].rules, calls[n].signal, settings);
    }
  }

  /** Rows of one stream, oldest first, all observed in the window [start, start + cooldown). */
  ghost predicate InWindow(events: seq<Event>, rows: seq<nat>, start: int, settings: Settings) {
    && (forall a :: 0 <= a < |rows| ==> rows[a] < |events|)
    && (forall a :: 0 <= a < |rows| ==>
          start <= events[rows[a]].observedAt < start + settings.cooldown(events[rows[a]].rule) * SECOND)
    && forall a, b :: 0 <= a < b < |rows| ==> rows[a] < rows[b] && SameStream(events[rows[a]], events[rows[b]])
  }

  lemma {:induction false} SeveritiesClimb(events: seq<Event>, rows: seq<nat>, a: nat)
    requires a < |rows| && forall b :: 0 <= b < |rows| ==> rows[b] < |events|
    requires forall b, c :: 0 <= b < c < |rows| ==> events[rows[b]].severity < events[rows[c]].severity
    ensures a + 1 <= events[rows[a]].severity as int
  {
    if a > 0 {
      SeveritiesClimb(events, rows, a - 1);
      assert events[rows[a - 1]].severity < events[rows[a]].severity;
    }
  }

  /** Escalation bound: a window one cooldown long holds at most four rows of a stream, and their
      severities climb. Which rules re-notify, snooze or raise their minimum severity may change at any call. */
  lemma AtMostFourPerWindow(calls: seq<Call>, settings: Settings, rows: seq<nat>, start: int)
    requires CallsFit(calls, settings) && InOrder(calls)
    requires InWindow(History(calls), rows, start, settings)
    ensures |rows| <= 4
    ensures forall a, b :: 0 <= a < b < |rows| ==> History(calls)[rows[a]].severity < History(calls)[rows[b]].severity
  {
    var events := History(calls);
    RunKeeps(calls, settings);
    forall a, b | 0 <= a < b < |rows| ensures events[rows[a]].severity < events[rows[b]].severity {
      assert Close(events[rows[a]], events[rows[b]], settings);
    }
    if rows != [] {
      SeveritiesClimb(events, rows, |rows| - 1);
    }
  }

  /** With re-notify off, two rows of a stream are at least a cooldown apart in whatever order the signals arrive. */
  lemma QuietRowsAreSpaced(calls: seq<Call>, settings: Settings, i: nat, j: nat)
    requires CallsFit(calls, settings)
    requires i < j < |History(calls)| && SameStream(History(calls)[i], History(calls)[j])
    requires History(calls)[i].rule in settings.quiet && settings.cooldown(History(calls)[i].rule) > 0
    ensures History(calls)[i].observedAt + settings.cooldown(History(calls)[i].rule) * SECOND <= History(calls)[j].observedAt
  {
    RunKeeps(calls, settings);
  }

  /** `ErrAlertEventDeduped` never fires in a run whose rules have cooldowns, when each event key's
      signals arrive in order or no rule re-notifies. */
  lemma NothingIsDeduped(calls: seq<Call>, settings: Settings, k: nat)
    requires CallsFit(calls, settings) && k < |calls|
    requires forall i :: 0 <= i < |calls[k].rules| ==> calls[k].rules[i].cooldownSeconds > 0
    requires InOrder(calls) || forall i :: 0 <= i < |calls[k].rules| ==> calls[k].rules[i].id in settings.quiet
    ensures Tally(History(calls[..k]), calls[k].rules, calls[k].signal, Dedupe) == 0
  {
    var before := calls[..k];
    RunKeeps(before, settings);
    if InOrder(calls) {
      NoRowAfterNextSignal(before, calls[k].signal);
    }
    assert RulesFit(calls[k].rules, settings);
    DispatchDedupesNothing(History(before), calls[k].rules, calls[k].signal, settings);
  }

  /** Out of order the key is the last resort: a high signal at 12 s, a low one at 22 s and a high one
      observed at 13 s under a 10 s cooldown, and the last passes the cooldown check but repeats a key. */
  lemma OutOfOrderIsDeduped(rule: Rule)
    requires rule.valid && rule.renotify && rule.cooldownSeconds == 10 && rule.snoozeUntil.None? && rule.minimumSeverity == 1
    ensures var early := NewEvent(rule, Signal("k", 3, 12 * SECOND));
            var late := NewEvent(rule, Signal("k", 1, 22 * SECOND));
            && Meet([], rule, Signal("k", 3, 12 * SECOND)) == [early]
            && Meet([early], rule, Signal("k", 1, 22 * SECOND)) == [early, late]
            && Judge([early, late], rule, Signal("k", 3, 13 * SECOND)) == Dedupe
  {
    var early := NewEvent(rule, Signal("k", 3, 12 * SECOND));
    var late := NewEvent(rule, Signal("k", 1, 22 * SECOND));
    assert [early][..0] == [] && [early, late][..1] == [early];
    assert Latest([early], rule, "k") == Some(early);
    assert Latest([early, late], rule, "k") == Some(late);
    assert [early, late][0].dedup == DedupKeyFor(rule, Signal("k", 3, 13 * SECOND));
  }

  /** A more severe signal for a stream whose last row is close is recorded. */
  lemma EscalationIsRecorded(before: seq<Event>, last: Event, rule: Rule, signal: Signal)
    requires rule.valid && rule.renotify && rule.snoozeUntil.None? && rule.minimumSeverity <= signal.severity
    requires OfStream(last, rule, signal.eventKey) && last.severity < signal.severity
    requires forall i :: 0 <= i < |before| ==> before[i].observedAt <= last.observedAt && before[i].dedup != DedupKeyFor(rule, signal)
    requires last.dedup != DedupKeyFor(rule, signal)
    ensures Meet(before + [last], rule, signal) == before + [last] + [NewEvent(rule, signal)]
  {
    var events := before + [last];
    assert events[..|before|] == before;
    LatestIsLast(before, rule, signal.eventKey);
    assert Latest(events, rule, signal.eventKey) == Some(last);
  }

  lemma HistoryNext(calls: seq<Call>, rule: Rule, signal: Signal)
    ensures History(calls + [Call([rule], signal)]) == Meet(History(calls), rule, signal)
  {
    var all := calls + [Call([rule], signal)];
    assert all[..|all| - 1] == calls;
    assert [rule][..0] == [] && MeetAll(History(calls), [], signal) == History(calls);
    assert MeetAll(History(calls), [rule], signal) == Meet(History(calls), rule, signal);
  }

  /** The bound of four is exact: one signal of each severity, all at one moment, makes four rows. */
  lemma FourFitInAWindow(rule: Rule, t: int)
    requires rule.valid && rule.renotify && rule.snoozeUntil.None? && rule.minimumSeverity == 1
    ensures var calls := [Call([rule], Signal("k", 1, t)), Call([rule], Signal("k", 2, t)),
                          Call([rule], Signal("k", 3, t)), Call([rule], Signal("k", 4, t))];
            |History(calls)| == 4
  {
    var a, b := NewEvent(rule, Signal("k", 1, t)), NewEvent(rule, Signal("k", 2, t));
    var c, d := NewEvent(rule, Signal("k", 3, t)), NewEvent(rule, Signal("k", 4, t));
    assert Meet([], rule, Signal("k", 1, t)) == [] + [a];
    EscalationIsRecorded([], a, rule, Signal("k", 2, t));
    EscalationIsRecorded([] + [a], b, rule, Signal("k", 3, t));
    EscalationIsRecorded([] + [a] + [b], c, rule, Signal("k", 4, t));
    var one := [] + [Call([rule], Signal("k", 1, t))];
    var two := one + [Call([rule], Signal("k", 2, t))];
    var three := two + [Call([rule], Signal("k", 3, t))];
    HistoryNext([], rule, Signal("k", 1, t));
    HistoryNext(one, rule, Signal("k", 2, t));
    HistoryNext(two, rule, Signal("k", 3, t));
    HistoryNext(three, rule, Signal("k", 4, t));
    assert three + [Call([rule], Signal("k", 4, t))]
           == [Call([rule], Signal("k", 1, t)), Call([rule], Signal("k", 2, t)),
               Call([rule], Signal("k", 3, t)), Call([rule], Signal("k", 4, t))];
  }
}
