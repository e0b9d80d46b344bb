/** Dispatching wallet signals to alert rules: cooldown windows, severity escalation and bucketed
    dedup keys (apps/workers/alerts.go, packages/db/alerts.go). Times are nanoseconds. */
module AlertDispatch {
  import opened Text

  const SECOND := 1_000_000_000

  /** Low, medium, high, critical as 1 to 4; `CompareAlertSeverity` is the difference of the ranks. */
  newtype Severity = n: int | 1 <= n <= 4 witness 1

  /** What dispatch reads of a rule. `valid` says that its definition parses. */
  datatype Rule = Rule(id: string, owner: string, cooldownSeconds: int, valid: bool,
                       snoozeUntil: Option<int>, minimumSeverity: Severity, renotify: bool)

  datatype DedupKey = DedupKey(rule: string, eventKey: string, severity: Severity, bucket: int)

  /** A row of alert_events; the table lists rows in the order they were inserted. */
  datatype Event = Event(rule: string, owner: string, eventKey: string, severity: Severity, observedAt: int, dedup: DedupKey)

  datatype Signal = Signal(eventKey: string, severity: Severity, observedAt: int)

  /** `Time.Truncate`: down to a multiple of the window. */
  function Truncate(t: int, window: int): (r: int)
    requires window > 0
    ensures r <= t < r + window
  {
    t - t % window
  }

  function Window(cooldownSeconds: int): (w: int)
    ensures w > 0
  {
    if cooldownSeconds > 0 then cooldownSeconds * SECOND else SECOND
  }

  function DedupKeyFor(rule: Rule, signal: Signal): DedupKey {
    DedupKey(rule.id, signal.eventKey, signal.severity, Truncate(signal.observedAt, Window(rule.cooldownSeconds)))
  }

  predicate WithinCooldown(cooldownSeconds: int, last: int, observedAt: int) {
    cooldownSeconds > 0 && observedAt < last + cooldownSeconds * SECOND
  }

  predicate OfStream(e: Event, rule: Rule, eventKey: string) {
    e.rule == rule.id && e.owner == rule.owner && e.eventKey == eventKey
  }

  /** `latestAlertEventSQL`: the last observed event of the stream, the last inserted among equals. */
  function Latest(events: seq<Event>, rule: Rule, eventKey: string): Option<Event> {
    if events == [] then None
    else
      var n := |events| - 1;
      var earlier := Latest(events[..n], rule, eventKey);
      if !OfStream(events[n], rule, eventKey) then earlier
      else if earlier.Some? && earlier.value.observedAt > events[n].observedAt then earlier
      else Some(events[n])
  }

  /** The checks before an event is recorded. */
  predicate Suppressed(rule: Rule, signal: Signal, latest: Option<Event>) {
    || !rule.valid
    || (rule.snoozeUntil.Some? && signal.observedAt < rule.snoozeUntil.value)
    || signal.severity < rule.minimumSeverity
    || (latest.Some? && WithinCooldown(rule.cooldownSeconds, latest.value.observedAt, signal.observedAt)
        && (!rule.renotify || signal.severity <= latest.value.severity))
  }

  predicate HasKey(events: seq<Event>, key: DedupKey) {
    exists i :: 0 <= i < |events| && events[i].dedup == key
  }

  function NewEvent(rule: Rule, signal: Signal): Event {
    Event(rule.id, rule.owner, signal.eventKey, signal.severity, signal.observedAt, DedupKeyFor(rule, signal))
  }

  datatype Verdict = Suppress | Dedupe | Create

  /** What becomes of one rule that matched the signal. */
  function Judge(events: seq<Event>, rule: Rule, signal: Signal): Verdict {
    if Suppressed(rule, signal, Latest(events, rule, signal.eventKey)) then Suppress
    else if HasKey(events, DedupKeyFor(rule, signal)) then Dedupe
    else Create
  }

  function Meet(events: seq<Event>, rule: Rule, signal: Signal): seq<Event> {
    if Judge(events, rule, signal) == Create then events + [NewEvent(rule, signal)] else events
  }

  function MeetAll(events: seq<Event>, rules: seq<Rule>, signal: Signal): seq<Event> {
    if rules == [] then events
    else Meet(MeetAll(events, rules[..|rules| - 1], signal), rules[|rules| - 1], signal)
  }

  /** How many of the matched rules met the given verdict. */
  function Tally(events: seq<Event>, rules: seq<Rule>, signal: Signal, verdict: Verdict): nat {
    if rules == [] then 0
    else
      var before := rules[..|rules| - 1];
      Tally(events, before, signal, verdict)
      + if Judge(MeetAll(events, before, signal), rules[|rules| - 1], signal) == verdict then 1 else 0
  }

  datatype Report = Report(matched: nat, created: nat, suppressed: nat, deduped: nat)

  class AlertStore {
    var events: seq<Event>

    constructor ()
      ensures events == []
    {
      events := [];
    }

    /** `FindLatestAlertEvent`. */
    method FindLatest(rule: Rule, eventKey: string) returns (latest: Option<Event>)
      ensures latest == Latest(events, rule, eventKey)
    {
      latest := None;
      for i := 0 to |events|
        invariant latest == Latest(events[..i], rule, eventKey)
      {
        assert events[..i + 1][..i] == events[..i];
        if OfStream(events[i], rule, eventKey) && (latest.None? || latest.value.observedAt <= events[i].observedAt) {
          latest := Some(events[i]);
        }
      }
      assert events[..|events|] == events;
    }

    /** `RecordAlertEvent`: insert, or do nothing when the dedup key exists. */
    method Record(event: Event) returns (deduped: bool)
      modifies this
      ensures deduped == HasKey(old(events), event.dedup)
      ensures events == if deduped then old(events) else old(events) + [event]
    {
      deduped := exists i :: 0 <= i < |events| && events[i].dedup == event.dedup;
      if !deduped {
        events := events + [event];
      }
    }

    /** The body of the loop over the matched rules. */
    method MeetRule(rule: Rule, signal: Signal) returns (verdict: Verdict)
      modifies this
      ensures verdict == Judge(old(events), rule, signal)
      ensures events == Meet(old(events), rule, signal)
      ensures |events| == |old(events)| + if verdict == Create then 1 else 0
    {
      if !rule.valid {
        return Suppress;
      }
      if rule.snoozeUntil.Some? && signal.observedAt < rule.snoozeUntil.value {
        return Suppress;
      }
      if signal.severity < rule.minimumSeverity {
        return Suppress;
      }
      var latest := FindLatest(rule, signal.eventKey);
      if latest.Some? && WithinCooldown(rule.cooldownSeconds, latest.value.observedAt, signal.observedAt) {
        if !rule.renotify || signal.severity <= latest.value.severity {
          return Suppress;
        }
      }
      var deduped := Record(NewEvent(rule, signal));
      verdict := if deduped then Dedupe else Create;
    }

    /** `DispatchWalletSignal` over the matched rules. */
    method Dispatch(rules: seq<Rule>, signal: Signal) returns (report: Report)
      modifies this
      ensures events == MeetAll(old(events), rules, signal)
      ensures report.matched == |rules|
      ensures report.created == Tally(old(events), rules, signal, Create)
      ensures report.suppressed == Tally(old(events), rules, signal, Suppress)
      ensures report.deduped == Tally(old(events), rules, signal, Dedupe)
      ensures report.matched == report.created + report.suppressed + report.deduped
      ensures |events| == |old(events)| + report.created
    {
      report := Report(|rules|, 0, 0, 0);
      for i := 0 to |rules|
        invariant events == MeetAll(old(events), rules[..i], signal)
        invariant report == Report(|rules|, Tally(old(events), rules[..i], signal, Create),
                                   Tally(old(events), rules[..i], signal, Suppress),
                                   Tally(old(events), rules[..i], signal, Dedupe))
        invariant report.created + report.suppressed + report.deduped == i
        invariant |events| == |old(events)| + report.created
      {
        assert rules[..i + 1][..i] == rules[..i];
        var verdict := MeetRule(rules[i], signal);
        match verdict {
          case Suppress => report := report.(suppressed := report.suppressed + 1);
          case Dedupe => report := report.(deduped := report.deduped + 1);
          case Create => report := report.(created := report.created + 1);
        }
      }
      assert rules[..|rules|] == rules;
    }
  }
}
