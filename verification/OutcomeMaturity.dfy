/** When the outcome of a first-connection entry is settled: the follow-through aggregate and the
    maturity check (apps/workers/first_connection.go, packages/db/wallet_entry_features.go).
    Times are nanoseconds. */
module OutcomeMaturity {
  import opened Text
  import opened Sorting

  const HOUR := 3_600_000_000_000
  const DAY := 24 * HOUR
  const MATURITY := 72 * HOUR

  datatype Counterparty = Counterparty(chain: string, address: string)

  /** A transaction of the wallet: its counterparty, with the wallet's chain where none was stored. */
  datatype Tx = Tx(counterparty: Counterparty, observedAt: int)

  datatype State = Monitoring | Sustained | ShortLived

  /** A row of wallet_entry_features_daily. The features that maturing carries over unchanged are `features`. */
  datatype Entry = Entry(windowEnd: int, tops: seq<Counterparty>, features: string,
                         historicalSustained: nat, followed: nat, hours: nat, shortLived: nat,
                         state: State, resolvedAt: Option<int>)

  // ---- The follow-through aggregate ----

  datatype FollowThrough = FollowThrough(followed: nat, hours: nat, shortLived: nat)

  /** The `::int` cast rounds a half up. */
  function RoundHours(elapsed: int): int {
    (elapsed + HOUR / 2) / HOUR
  }

  predicate Matches(tx: Tx, tops: set<Counterparty>, start: int, end: int) {
    tx.counterparty in tops && start < tx.observedAt <= end
  }

  /** The counterparties that are asked for: those with an address, each once. */
  function Asked(tops: seq<Counterparty>): set<Counterparty> {
    set c | c in tops && Trim(c.address) != "" :: Counterparty(Trim(c.chain), Trim(c.address))
  }

  function Followed(txs: seq<Tx>, tops: set<Counterparty>, start: int, end: int): set<Counterparty> {
    set tx | tx in txs && Matches(tx, tops, start, end) :: tx.counterparty
  }

  function MaxHours(txs: seq<Tx>, tops: set<Counterparty>, start: int, end: int): nat {
    if txs == [] then 0
    else
      var n := |txs| - 1;
      var before := MaxHours(txs[..n], tops, start, end);
      if Matches(txs[n], tops, start, end) && RoundHours(txs[n].observedAt - start) > before
      then RoundHours(txs[n].observedAt - start) else before
  }

  /** `walletEntryFeatureFollowThroughSQL`. */
  function Aggregate(txs: seq<Tx>, tops: seq<Counterparty>, start: int, end: int): FollowThrough {
    var asked := Asked(tops);
    var followed := Followed(txs, asked, start, end);
    FollowThrough(|followed|, MaxHours(txs, asked, start, end), |asked - followed|)
  }

  // ---- The check ----

  function Min(a: int, b: int): int { if a <= b then a else b }

  predicate IsSustained(f: FollowThrough) { f.followed >= 2 && f.hours >= 24 }

  /** What the outcome read at `end` makes of a row that matures at `maturity`. The row that is written
      has no historical count: the write leaves that field out. */
  function Settled(entry: Entry, f: FollowThrough, end: int, maturity: int): Entry {
    var state := if IsSustained(f) then Sustained else if end >= maturity then ShortLived else Monitoring;
    entry.(historicalSustained := 0, followed := f.followed, hours := f.hours, shortLived := f.shortLived,
           state := state, resolvedAt := if state == Monitoring then None else Some(end))
  }

  /** When the row's 72 hours are over. */
  function Maturity(windowEnd: int): int { windowEnd + MATURITY }

  function ObservationEnd(entry: Entry, now: int): int { Min(now, Maturity(entry.windowEnd)) }

  function Decided(entry: Entry, f: FollowThrough, now: int): Entry {
    if entry.resolvedAt.Some? || entry.tops == [] || ObservationEnd(entry, now) <= entry.windowEnd then entry
    else Settled(entry, f, ObservationEnd(entry, now), Maturity(entry.windowEnd))
  }

  /** `maturePriorEntryFeatures` on the row it found. */
  function Mature(entry: Entry, txs: seq<Tx>, now: int): Entry {
    Decided(entry, Aggregate(txs, entry.tops, entry.windowEnd, ObservationEnd(entry, now)), now)
  }

  /** A check of the row: when, and the transactions stored by then. */
  datatype Check = Check(now: int, txs: seq<Tx>)

  function Checked(entry: Entry, checks: seq<Check>): Entry {
    if checks == [] then entry
    else Mature(Checked(entry, checks[..|checks| - 1]), checks[|checks| - 1].txs, checks[|checks| - 1].now)
  }

  // ---- The aggregate only grows ----

  lemma {:induction false} HoursAtLeast(txs: seq<Tx>, tops: set<Counterparty>, start: int, end: int, k: nat)
    requires k >= 1
    ensures MaxHours(txs, tops, start, end) >= k
            <==> exists tx :: tx in txs && Matches(tx, tops, start, end) && RoundHours(tx.observedAt - start) >= k
  {
    if txs != [] {
      HoursAtLeast(txs[..|txs| - 1], tops, start, end, k);
    }
  }

  ghost predicate Within(txs: seq<Tx>, more: seq<Tx>) {
    forall tx :: tx in txs ==> tx in more
  }

  /** More transactions and a longer window: at least as many counterparties followed, as many hours,
      and no more short-lived overlaps; every counterparty asked for is one or the other. */
  lemma AggregateGrows(txs: seq<Tx>, more: seq<Tx>, tops: seq<Counterparty>, start: int, end: int, later: int)
    requires end <= later && Within(txs, more)
    ensures var f, g := Aggregate(txs, tops, start, end), Aggregate(more, tops, start, later);
            && f.followed <= g.followed && f.hours <= g.hours && g.shortLived <= f.shortLived
            && f.followed + f.shortLived == |Asked(tops)|
  {
    var asked := Asked(tops);
    var f, g := Followed(txs, asked, start, end), Followed(more, asked, start, later);
    assert f <= g;
    SubsetIsNoLarger(f, g);
    SubsetIsNoLarger(asked - g, asked - f);
    assert f <= asked && asked == f + (asked - f);
    assert |f + (asked - f)| == |f| + |asked - f|;
    var k := MaxHours(txs, asked, start, end);
    if k >= 1 {
      HoursAtLeast(txs, asked, start, end, k);
      HoursAtLeast(more, asked, start, later, k);
    }
  }

  // ---- The verdict ----

  /** A resolved row never changes. */
  lemma {:induction false} ResolvedStays(entry: Entry, checks: seq<Check>)
    requires entry.resolvedAt.Some?
    ensures Checked(entry, checks) == entry
  {
    if checks != [] {
      ResolvedStays(entry, checks[..|checks| - 1]);
    }
  }

  /** A row as it is first written: nothing is settled. */
  predicate Pending(entry: Entry) {
    entry.resolvedAt.None? && entry.state == Monitoring && entry.tops != []
  }

  predicate SameRow(a: Entry, b: Entry) { a.windowEnd == b.windowEnd && a.tops == b.tops && a.features == b.features }

  /** What one check at the end of the 72 hours over all the transactions says. */
  function Verdict(windowEnd: int, tops: seq<Counterparty>, full: seq<Tx>): State {
    if IsSustained(Aggregate(full, tops, windowEnd, Maturity(windowEnd))) then Sustained else ShortLived
  }

  /** The row is resolved to the verdict, or nothing is settled. */
  predicate Tells(entry: Entry, after: Entry, verdict: State) {
    && SameRow(after, entry)
    && (if after.resolvedAt.Some? then after.state == verdict && entry.windowEnd < after.resolvedAt.value <= Maturity(entry.windowEnd)
        else Pending(after))
  }

  /** A check sees only transactions of `full`, and from maturity on all of them. */
  ghost predicate SeesAllBy(maturity: int, full: seq<Tx>, check: Check) {
    Within(check.txs, full) && (check.now >= maturity ==> Within(full, check.txs))
  }

  lemma DecisionTells(entry: Entry, f: FollowThrough, g: FollowThrough, now: int)
    requires Pending(entry) && f.followed <= g.followed && f.hours <= g.hours
    requires now >= Maturity(entry.windowEnd) ==> g.followed == f.followed && g.hours == f.hours
    ensures Tells(entry, Decided(entry, f, now), if IsSustained(g) then Sustained else ShortLived)
    ensures now >= Maturity(entry.windowEnd) ==> Decided(entry, f, now).resolvedAt.Some?
  {
  }

  lemma MatureIs(entry: Entry, txs: seq<Tx>, now: int, f: FollowThrough)
    requires f == Aggregate(txs, entry.tops, entry.windowEnd, ObservationEnd(entry, now))
    ensures Mature(entry, txs, now) == Decided(entry, f, now)
  {
  }

  lemma VerdictIs(entry: Entry, full: seq<Tx>, g: FollowThrough)
    requires g == Aggregate(full, entry.tops, entry.windowEnd, Maturity(entry.windowEnd))
    ensures Verdict(entry.windowEnd, entry.tops, full) == if IsSustained(g) then Sustained else ShortLived
  {
  }

  /** The outcome a check reads and the one at maturity. */
  lemma OutcomesOf(entry: Entry, full: seq<Tx>, check: Check) returns (f: FollowThrough, g: FollowThrough)
    requires SeesAllBy(Maturity(entry.windowEnd), full, check)
    ensures Mature(entry, check.txs, check.now) == Decided(entry, f, check.now)
    ensures Verdict(entry.windowEnd, entry.tops, full) == if IsSustained(g) then Sustained else ShortLived
    ensures f.followed <= g.followed && f.hours <= g.hours
    ensures check.now >= Maturity(entry.windowEnd) ==> g.followed == f.followed && g.hours == f.hours
  {
    var end, maturity := ObservationEnd(entry, check.now), Maturity(entry.windowEnd);
    f := Aggregate(check.txs, entry.tops, entry.windowEnd, end);
    g := Aggregate(full, entry.tops, entry.windowEnd, maturity);
    MatureIs(entry, check.txs, check.now, f);
    VerdictIs(entry, full, g);
    AggregateGrows(check.txs, full, entry.tops, entry.windowEnd, end, maturity);
    if check.now >= maturity {
      AggregateGrows(full, check.txs, entry.tops, entry.windowEnd, maturity, end);
    }
  }

  /** One check resolves the row to the verdict or leaves it pending, and from maturity on it resolves it. */
  lemma CheckTellsVerdict(entry: Entry, full: seq<Tx>, check: Check)
    requires Pending(entry) && SeesAllBy(Maturity(entry.windowEnd), full, check)
    ensures Tells(entry, Mature(entry, check.txs, check.now), Verdict(entry.windowEnd, entry.tops, full))
    ensures check.now >= Maturity(entry.windowEnd) ==> Mature(entry, check.txs, check.now).resolvedAt.Some?
  {
    var f, g := OutcomesOf(entry, full, check);
    DecisionTells(entry, f, g, check.now);
  }

  predicate Matured(checks: seq<Check>, maturity: int) {
    exists i :: 0 <= i < |checks| && checks[i].now >= maturity
  }

  lemma MaturedLast(checks: seq<Check>, maturity: int)
    requires checks != []
    ensures Matured(checks, maturity) <==> Matured(checks[..|checks| - 1], maturity) || checks[|checks| - 1].now >= maturity
  {
    if i :| 0 <= i < |checks| - 1 && checks[i].now >= maturity {
      assert checks[..|checks| - 1][i].now >= maturity;
    }
  }

  lemma NextCheckTells(entry: Entry, before: Entry, full: seq<Tx>, check: Check)
    requires Tells(entry, before, Verdict(entry.windowEnd, entry.tops, full)) && SeesAllBy(Maturity(entry.windowEnd), full, check)
    ensures var after := Mature(before, check.txs, check.now);
            && Tells(entry, after, Verdict(entry.windowEnd, entry.tops, full))
            && (before.resolvedAt.Some? || check.now >= Maturity(entry.windowEnd) ==> after.resolvedAt.Some?)
  {
    if before.resolvedAt.None? {
      CheckTellsVerdict(before, full, check);
    }
  }

  /** The verdict does not depend on the schedule: whenever and in whatever order the row is checked,
      and however late transactions are stored, once some check is at or past maturity the row is
      resolved, to what one check at maturity says. */
  lemma {:induction false} VerdictIsScheduleIndependent(entry: Entry, full: seq<Tx>, checks: seq<Check>)
    requires Pending(entry) && forall i :: 0 <= i < |checks| ==> SeesAllBy(Maturity(entry.windowEnd), full, checks[i])
    ensures Tells(entry, Checked(entry, checks), Verdict(entry.windowEnd, entry.tops, full))
    ensures Matured(checks, Maturity(entry.windowEnd)) ==> Checked(entry, checks).resolvedAt.Some?
  {
    if checks != [] {
      var n := |checks| - 1;
      VerdictIsScheduleIndependent(entry, full, checks[..n]);
      MaturedLast(checks, Maturity(entry.windowEnd));
      NextCheckTells(entry, Checked(entry, checks[..n]), full, checks[n]);
    }
  }

  /** A transaction with one of the top counterparties after `start` and no later than `end`. */
  predicate FollowsUp(tx: Tx, tops: seq<Counterparty>, start: int, end: int) {
    && start < tx.observedAt <= end
    && exists t :: t in tops && Trim(t.address) != "" && tx.counterparty == Counterparty(Trim(t.chain), Trim(t.address))
  }

  function FollowUps(tops: seq<Counterparty>, start: int, end: int): Tx -> bool {
    tx => FollowsUp(tx, tops, start, end)
  }

  lemma FollowsUpIff(tops: seq<Counterparty>, start: int, end: int)
    ensures forall tx :: FollowUps(tops, start, end)(tx) <==> Matches(tx, Asked(tops), start, end)
  {
  }

  /** Half an hour short of `k` hours rounds up to them. */
  lemma RoundsTo(elapsed: int, k: nat)
    ensures RoundHours(elapsed) >= k <==> 2 * elapsed >= (2 * k - 1) * HOUR
  {
  }

  lemma HasTwo<T>(s: set<T>)
    ensures |s| >= 2 <==> exists x, y :: x in s && y in s && x != y
  {
    if s != {} {
      var x :| x in s;
      var rest := s - {x};
      assert |rest| == |s| - 1;
      if rest != {} {
        var y :| y in rest;
        assert x in s && y in s && x != y;
      } else {
        assert forall z :: z in s ==> z == x;
      }
    }
  }

  /** The transactions that pass have two distinct counterparties. */
  ghost predicate TwoPass(txs: seq<Tx>, passes: Tx -> bool) {
    exists x, y :: x in txs && y in txs && passes(x) && passes(y) && x.counterparty != y.counterparty
  }

  /** Some transaction passes `halves` half hours or more after `start`. */
  ghost predicate PassesAfter(txs: seq<Tx>, passes: Tx -> bool, start: int, halves: int) {
    exists x :: x in txs && passes(x) && 2 * (x.observedAt - start) >= halves * HOUR
  }

  function Passing(txs: seq<Tx>, passes: Tx -> bool): set<Counterparty> {
    set tx | tx in txs && passes(tx) :: tx.counterparty
  }

  lemma TwoPassIff(txs: seq<Tx>, passes: Tx -> bool)
    ensures |Passing(txs, passes)| >= 2 <==> TwoPass(txs, passes)
  {
    HasTwo(Passing(txs, passes));
    if TwoPass(txs, passes) {
      var x, y :| x in txs && y in txs && passes(x) && passes(y) && x.counterparty != y.counterparty;
      assert x.counterparty in Passing(txs, passes) && y.counterparty in Passing(txs, passes);
    }
  }

  /** The columns: the distinct counterparties that pass, the others asked for, and the latest in rounded hours. */
  ghost predicate ColumnsAre(f: FollowThrough, txs: seq<Tx>, passes: Tx -> bool, asked: set<Counterparty>, start: int) {
    && f.followed == |Passing(txs, passes)| && f.followed + f.shortLived == |asked|
    && forall k: nat :: k >= 1 ==> (f.hours >= k <==> PassesAfter(txs, passes, start, 2 * k - 1))
  }

  /** The columns of the aggregate. */
  lemma AggregateIs(txs: seq<Tx>, tops: seq<Counterparty>, start: int, end: int)
    ensures ColumnsAre(Aggregate(txs, tops, start, end), txs, FollowUps(tops, start, end), Asked(tops), start)
  {
    FollowsUpIff(tops, start, end);
    AggregateGrows(txs, txs, tops, start, end, end);
    assert Followed(txs, Asked(tops), start, end) == Passing(txs, FollowUps(tops, start, end));
    forall k: nat | k >= 1
      ensures Aggregate(txs, tops, start, end).hours >= k <==> PassesAfter(txs, FollowUps(tops, start, end), start, 2 * k - 1)
    {
      HoursAtLeast(txs, Asked(tops), start, end, k);
      forall tx: Tx ensures RoundHours(tx.observedAt - start) >= k <==> 2 * (tx.observedAt - start) >= (2 * k - 1) * HOUR {
        RoundsTo(tx.observedAt - start, k);
      }
    }
  }

  lemma SustainedIff(f: FollowThrough, txs: seq<Tx>, passes: Tx -> bool, asked: set<Counterparty>, start: int)
    requires ColumnsAre(f, txs, passes, asked, start)
    ensures IsSustained(f) <==> TwoPass(txs, passes) && PassesAfter(txs, passes, start, 47)
  {
    TwoPassIff(txs, passes);
    assert f.hours >= 24 <==> PassesAfter(txs, passes, start, 2 * 24 - 1);
  }

  /** The verdict is `sustained` exactly when two of the top counterparties are followed up within 72 hours,
      and some follow-up comes 47 half hours or more after the window. */
  lemma VerdictIff(windowEnd: int, tops: seq<Counterparty>, full: seq<Tx>)
    ensures var passes := FollowUps(tops, windowEnd, windowEnd + 72 * HOUR);
      Verdict(windowEnd, tops, full) == if TwoPass(full, passes) && PassesAfter(full, passes, windowEnd, 47) then Sustained else ShortLived
  {
    var end := windowEnd + 72 * HOUR;
    AggregateIs(full, tops, windowEnd, end);
    SustainedIff(Aggregate(full, tops, windowEnd, end), full, FollowUps(tops, windowEnd, end), Asked(tops), windowEnd);
  }

  /** What a check of a pending row writes: the counts up to the check or the end of the 72 hours, and the
      outcome they give by then. */
  lemma WrittenCounts(entry: Entry, txs: seq<Tx>, now: int) returns (f: FollowThrough, end: int)
    requires Pending(entry) && now > entry.windowEnd
    ensures end == if now <= entry.windowEnd + 72 * HOUR then now else entry.windowEnd + 72 * HOUR
    ensures ColumnsAre(f, txs, FollowUps(entry.tops, entry.windowEnd, end), Asked(entry.tops), entry.windowEnd)
    ensures var after := Mature(entry, txs, now);
      && FollowThrough(after.followed, after.hours, after.shortLived) == f && after.historicalSustained == 0
      && (after.state == Sustained <==> f.followed >= 2 && f.hours >= 24)
      && after.resolvedAt == (if after.state == Sustained || now >= entry.windowEnd + 72 * HOUR then Some(end) else None)
  {
    end := ObservationEnd(entry, now);
    f := Aggregate(txs, entry.tops, entry.windowEnd, end);
    AggregateIs(txs, entry.tops, entry.windowEnd, end);
    MatureIs(entry, txs, now, f);
    DecidedIs(entry, f, now);
  }

  lemma DecidedIs(entry: Entry, f: FollowThrough, now: int)
    requires Pending(entry) && now > entry.windowEnd
    ensures var after := Decided(entry, f, now);
      && FollowThrough(after.followed, after.hours, after.shortLived) == f && after.historicalSustained == 0
      && (after.state == Sustained <==> f.followed >= 2 && f.hours >= 24)
      && after.resolvedAt == (if after.state == Sustained || now >= entry.windowEnd + 72 * HOUR then Some(ObservationEnd(entry, now)) else None)
  {
  }

  /** The historical count survives a check exactly when the check writes nothing or there was none. */
  lemma HistoricalCountSurvivesIff(entry: Entry, check: Check)
    requires Pending(entry)
    ensures Mature(entry, check.txs, check.now).historicalSustained == entry.historicalSustained
            <==> check.now <= entry.windowEnd || entry.historicalSustained == 0
  {
  }

  // ---- The rows of one wallet ----

  /** `observed_day`, the row's key. */
  datatype Day = Day(number: int)

  function DayOf(windowEnd: int): Day { Day(windowEnd / DAY) }

  ghost predicate Keyed(rows: map<Day, Entry>) {
    forall d :: d in rows ==> DayOf(rows[d].windowEnd) == d
  }

  /** The last row whose window ended before `now`. */
  predicate IsLatestBefore(rows: map<Day, Entry>, now: int, day: Day) {
    && day in rows && rows[day].windowEnd < now
    && forall d :: d in rows && rows[d].windowEnd < now ==> rows[d].windowEnd <= rows[day].windowEnd
  }

  class EntryFeatures {
    var rows: map<Day, Entry>

    constructor ()
      ensures rows == map[]
    {
      rows := map[];
    }

    /** `ReadLatestWalletEntryFeaturesBefore`. */
    method LatestBefore(now: int) returns (day: Option<Day>)
      ensures day.None? ==> forall d :: d in rows ==> rows[d].windowEnd >= now
      ensures day.Some? ==> IsLatestBefore(rows, now, day.value)
    {
      day := None;
      var rest := rows.Keys;
      while rest != {}
        invariant rest <= rows.Keys
        invariant day.None? ==> forall d :: d in rows && d !in rest ==> rows[d].windowEnd >= now
        invariant day.Some? ==> day.value in rows && rows[day.value].windowEnd < now
        invariant forall d :: day.Some? && d in rows && d !in rest && rows[d].windowEnd < now ==>
                    rows[d].windowEnd <= rows[day.value].windowEnd
      {
        var d :| d in rest;
        rest := rest - {d};
        if rows[d].windowEnd < now && (day.None? || rows[day.value].windowEnd < rows[d].windowEnd) {
          day := Some(d);
        }
      }
    }

    /** `maturePriorEntryFeatures`: only the latest row before `now` is checked, and it is written
        back under its own day. */
    method MaturePrior(now: int, txs: seq<Tx>)
      requires Keyed(rows)
      modifies this
      ensures Keyed(rows)
      ensures forall d :: d in old(rows) && !IsLatestBefore(old(rows), now, d) ==> d in rows && rows[d] == old(rows)[d]
      ensures forall d :: IsLatestBefore(old(rows), now, d) ==> d in rows && rows[d] == Mature(old(rows)[d], txs, now)
      ensures rows.Keys == old(rows).Keys
    {
      var day := LatestBefore(now);
      if day.None? {
        return;
      }
      LatestIsOne(rows, now, day.value);
      var matured := MatureRow(rows[day.value], now, txs);
      rows := rows[DayOf(matured.windowEnd) := matured];
    }

    /** The body of the check. A resolved row stays; a pending one is resolved to the verdict at maturity
        over any transactions the check sees enough of, or stays pending, and from maturity on it is resolved. */
    static method MatureRow(prior: Entry, now: int, txs: seq<Tx>) returns (updated: Entry)
      ensures updated == Mature(prior, txs, now)
      ensures prior.resolvedAt.Some? ==> updated == prior
      ensures forall full :: Pending(prior) && SeesAllBy(Maturity(prior.windowEnd), full, Check(now, txs)) ==>
                Tells(prior, updated, Verdict(prior.windowEnd, prior.tops, full))
      ensures Pending(prior) && now >= Maturity(prior.windowEnd) ==> updated.resolvedAt.Some?
    {
      updated := Settle(prior, now, txs);
      if Pending(prior) {
        forall full | SeesAllBy(Maturity(prior.windowEnd), full, Check(now, txs))
          ensures Tells(prior, updated, Verdict(prior.windowEnd, prior.tops, full))
        {
          CheckTellsVerdict(prior, full, Check(now, txs));
        }
        CheckTellsVerdict(prior, txs, Check(now, txs));
      }
    }

    /** What is written back, or the row as it was. */
    static method Settle(prior: Entry, now: int, txs: seq<Tx>) returns (updated: Entry)
      ensures updated == Mature(prior, txs, now)
    {
      if prior.resolvedAt.Some? || prior.tops == [] {
        return prior;
      }
      var maturity := Maturity(prior.windowEnd);
      var end := now;
      if end > maturity {
        end := maturity;
      }
      if end <= prior.windowEnd {
        return prior;
      }
      assert end == ObservationEnd(prior, now);
      var f := Aggregate(txs, prior.tops, prior.windowEnd, end);
      MatureIs(prior, txs, now, f);
      var state, resolvedAt := Monitoring, None;
      if f.followed >= 2 && f.hours >= 24 {
        state, resolvedAt := Sustained, Some(end);
      } else if end >= maturity {
        state, resolvedAt := ShortLived, Some(end);
      }
      return prior.(historicalSustained := 0, followed := f.followed, hours := f.hours, shortLived := f.shortLived,
                    state := state, resolvedAt := resolvedAt);
    }
  }

  lemma LatestIsOne(rows: map<Day, Entry>, now: int, day: Day)
    requires Keyed(rows) && IsLatestBefore(rows, now, day)
    ensures forall d :: IsLatestBefore(rows, now, d) ==> d == day
  {
    forall d | IsLatestBefore(rows, now, d) ensures d == day {
      assert rows[d].windowEnd == rows[day].windowEnd;
    }
  }
}
