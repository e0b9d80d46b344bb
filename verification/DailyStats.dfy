/** The cumulative daily statistics of one wallet (packages/db/wallet_daily_stats.go): the windowed
    query, and that it computes the plain counts over history. */
module DailyStats {
  import opened Text

  datatype Direction = Inbound | Outbound | SelfTransfer | Unknown

  /** A row of the wallet's transactions; `counterparty` is None for NULL or the empty address. */
  datatype TxRow = TxRow(observedAt: int, direction: Direction, counterparty: Option<string>)

  const DAY_SECONDS := 86_400

  /** `date(observed_at AT TIME ZONE 'UTC')`, as a day number. */
  function Day(row: TxRow): int { row.observedAt / DAY_SECONDS }

  /** `count(*)`, and its two FILTER clauses. */
  datatype Pick = All | Incoming | Outgoing

  predicate Picks(pick: Pick, row: TxRow) {
    match pick
    case All => true
    case Incoming => row.direction == Inbound
    case Outgoing => row.direction == Outbound
  }

  function MaxOpt(a: Option<int>, b: Option<int>): Option<int> {
    if a.None? then b
    else if b.None? then a
    else if a.value >= b.value then a else b
  }

  // The groups of the query, one per day.

  /** `daily_counts`. */
  function CountOn(rows: seq<TxRow>, day: int, pick: Pick): nat {
    if rows == [] then 0
    else (if Day(rows[0]) == day && Picks(pick, rows[0]) then 1 else 0) + CountOn(rows[1..], day, pick)
  }

  function LatestOn(rows: seq<TxRow>, day: int): Option<int> {
    if rows == [] then None
    else MaxOpt(if Day(rows[0]) == day then Some(rows[0].observedAt) else None, LatestOn(rows[1..], day))
  }

  function Counterparties(rows: seq<TxRow>): set<string> {
    set r | r in rows && r.counterparty.Some? :: r.counterparty.value
  }

  /** `counterparty_first_seen`: the first day of a counterparty. */
  function FirstSeen(rows: seq<TxRow>, c: string): (first: int)
    requires c in Counterparties(rows)
    ensures exists r :: r in rows && r.counterparty == Some(c) && Day(r) == first
    ensures forall r :: r in rows && r.counterparty == Some(c) ==> first <= Day(r)
  {
    if rows[0].counterparty != Some(c) then
      assert forall r :: r in rows ==> r == rows[0] || r in rows[1..];
      FirstSeen(rows[1..], c)
    else if c in Counterparties(rows[1..]) && FirstSeen(rows[1..], c) < Day(rows[0]) then FirstSeen(rows[1..], c)
    else
      assert forall r :: r in rows ==> r == rows[0] || r in rows[1..];
      assert rows[0] in rows;
      Day(rows[0])
  }

  /** `daily_new_counterparties`. */
  function NewOn(rows: seq<TxRow>, day: int): set<string> {
    set c | c in Counterparties(rows) && FirstSeen(rows, c) == day
  }

  /** The days that have a transaction, ascending. */
  function ActiveDays(rows: seq<TxRow>): (days: seq<int>)
    ensures Ascending(days)
    ensures forall d :: d in days <==> exists r :: r in rows && Day(r) == d
  {
    if rows == [] then []
    else
      assert forall r :: r in rows <==> r == rows[0] || r in rows[1..];
      InsertDay(Day(rows[0]), ActiveDays(rows[1..]))
  }

  ghost predicate Ascending(days: seq<int>) {
    forall i, j :: 0 <= i < j < |days| ==> days[i] < days[j]
  }

  function InsertDay(day: int, days: seq<int>): (r: seq<int>)
    requires Ascending(days)
    ensures Ascending(r)
    ensures forall d :: d in r <==> d == day || d in days
  {
    if days == [] then [day]
    else if day < days[0] then
      HeadIsLeast(days);
      AscendingCons(day, days);
      [day] + days
    else if day == days[0] then days
    else
      var rest := InsertDay(day, days[1..]);
      HeadIsLeast(days);
      assert forall d :: d in rest ==> days[0] < d;
      AscendingCons(days[0], rest);
      [days[0]] + rest
  }

  lemma HeadIsLeast(days: seq<int>)
    requires days != [] && Ascending(days)
    ensures Ascending(days[1..]) && forall d :: d in days[1..] ==> days[0] < d
    ensures forall d :: d in days <==> d == days[0] || d in days[1..]
  {
    assert forall i :: 0 <= i < |days[1..]| ==> days[1..][i] == days[i + 1];
    assert days == [days[0]] + days[1..];
  }

  lemma AscendingCons(day: int, rest: seq<int>)
    requires Ascending(rest) && forall d :: d in rest ==> day < d
    ensures Ascending([day] + rest)
  {
    var days := [day] + rest;
    forall i, j | 0 <= i < j < |days| ensures days[i] < days[j] {
      assert days[j] == rest[j - 1] && rest[j - 1] in rest;
      if i > 0 {
        assert days[i] == rest[i - 1];
      }
    }
  }

  datatype Stats = Stats(transactions: nat, counterparties: nat, latest: Option<int>, incoming: nat, outgoing: nat)

  const NONE := Stats(0, 0, None, 0, 0)

  /** One more row of a window: the running sums and the running maximum take in the day's groups. */
  function Grown(before: Stats, rows: seq<TxRow>, day: int): Stats {
    Stats(before.transactions + CountOn(rows, day, All),
          before.counterparties + |NewOn(rows, day)|,
          MaxOpt(before.latest, LatestOn(rows, day)),
          before.incoming + CountOn(rows, day, Incoming),
          before.outgoing + CountOn(rows, day, Outgoing))
  }

  /** The window functions over `ordered_daily`, up to the i-th active day. */
  function Cumulative(rows: seq<TxRow>, i: nat): Stats
    requires i < |ActiveDays(rows)|
  {
    Grown(if i == 0 then NONE else Cumulative(rows, i - 1), rows, ActiveDays(rows)[i])
  }

  // What the columns mean.

  function CountUpTo(rows: seq<TxRow>, day: int, pick: Pick): nat {
    if rows == [] then 0
    else (if Day(rows[0]) <= day && Picks(pick, rows[0]) then 1 else 0) + CountUpTo(rows[1..], day, pick)
  }

  function LatestUpTo(rows: seq<TxRow>, day: int): Option<int> {
    if rows == [] then None
    else MaxOpt(if Day(rows[0]) <= day then Some(rows[0].observedAt) else None, LatestUpTo(rows[1..], day))
  }

  /** The distinct counterparties seen on or before a day. */
  function SeenUpTo(rows: seq<TxRow>, day: int): set<string> {
    set r | r in rows && Day(r) <= day && r.counterparty.Some? :: r.counterparty.value
  }

  function Naive(rows: seq<TxRow>, day: int): Stats {
    Stats(CountUpTo(rows, day, All), |SeenUpTo(rows, day)|, LatestUpTo(rows, day),
          CountUpTo(rows, day, Incoming), CountUpTo(rows, day, Outgoing))
  }

  // The columns as counts of rows.

  /** The rows observed before the end of the day. */
  function RowsUpTo(rows: seq<TxRow>, day: int): set<nat> {
    set k: nat | k < |rows| && rows[k].observedAt < (day + 1) * 86_400
  }

  function PickedUpTo(rows: seq<TxRow>, day: int, pick: Pick): set<nat> {
    set k: nat | k in RowsUpTo(rows, day) && Picks(pick, rows[k])
  }

  lemma {:induction false} CountAppend(rows: seq<TxRow>, row: TxRow, day: int, pick: Pick)
    ensures CountUpTo(rows + [row], day, pick) == CountUpTo(rows, day, pick) + if Day(row) <= day && Picks(pick, row) then 1 else 0
  {
    if rows != [] {
      assert (rows + [row])[1..] == rows[1..] + [row];
      CountAppend(rows[1..], row, day, pick);
    }
  }

  lemma {:induction false} CountIs(rows: seq<TxRow>, day: int, pick: Pick)
    ensures CountUpTo(rows, day, pick) == |PickedUpTo(rows, day, pick)|
  {
    if rows == [] {
      assert PickedUpTo(rows, day, pick) == {};
    } else {
      var n := |rows| - 1;
      CountIs(rows[..n], day, pick);
      assert rows == rows[..n] + [rows[n]];
      CountAppend(rows[..n], rows[n], day, pick);
      PickedLast(rows, day, pick);
    }
  }

  lemma {:induction false} PickedLast(rows: seq<TxRow>, day: int, pick: Pick)
    requires rows != []
    ensures var n := |rows| - 1;
      |PickedUpTo(rows, day, pick)|
      == |PickedUpTo(rows[..n], day, pick)| + if Day(rows[n]) <= day && Picks(pick, rows[n]) then 1 else 0
  {
    var n := |rows| - 1;
    var before := PickedUpTo(rows[..n], day, pick);
    assert Day(rows[n]) <= day <==> rows[n].observedAt < (day + 1) * 86_400;
    assert PickedUpTo(rows, day, pick) == if Day(rows[n]) <= day && Picks(pick, rows[n]) then before + {n} else before;
  }

  ghost predicate IsLatest(rows: seq<TxRow>, day: int, latest: Option<int>) {
    match latest
    case None => forall r :: r in rows ==> Day(r) > day
    case Some(t) =>
      && (exists r :: r in rows && Day(r) <= day && r.observedAt == t)
      && forall r :: r in rows && Day(r) <= day ==> r.observedAt <= t
  }

  /** The latest observation up to the end of the day. */
  lemma {:induction false} LatestIs(rows: seq<TxRow>, day: int)
    ensures IsLatest(rows, day, LatestUpTo(rows, day))
  {
    if rows != [] {
      var rest := rows[1..];
      LatestIs(rest, day);
      forall r ensures r in rows <==> r == rows[0] || r in rest {
      }
      var later := LatestUpTo(rest, day);
      if later.Some? {
        var r :| r in rest && Day(r) <= day && r.observedAt == later.value;
        assert r in rows;
      }
      assert rows[0] in rows;
    }
  }

  /** What a row of the table says about the rows up to the end of its day: how many there are, how many of
      them came in and went out, how many counterparties they name, and when the last was observed. */
  lemma ColumnsCountRows(rows: seq<TxRow>, day: int)
    ensures var stats := Naive(rows, day);
      && stats.transactions == |RowsUpTo(rows, day)|
      && stats.incoming == |set k: nat | k in RowsUpTo(rows, day) && rows[k].direction == Inbound|
      && stats.outgoing == |set k: nat | k in RowsUpTo(rows, day) && rows[k].direction == Outbound|
      && stats.counterparties
         == |set k: nat | k in RowsUpTo(rows, day) && rows[k].counterparty.Some? :: rows[k].counterparty.value|
      && IsLatest(rows, day, stats.latest)
  {
    LatestIs(rows, day);
    CountIs(rows, day, All);
    CountIs(rows, day, Incoming);
    CountIs(rows, day, Outgoing);
    assert PickedUpTo(rows, day, All) == RowsUpTo(rows, day);
    assert PickedUpTo(rows, day, Incoming) == set k: nat | k in RowsUpTo(rows, day) && rows[k].direction == Inbound;
    assert PickedUpTo(rows, day, Outgoing) == set k: nat | k in RowsUpTo(rows, day) && rows[k].direction == Outbound;
    var seen := set k: nat | k in RowsUpTo(rows, day) && rows[k].counterparty.Some? :: rows[k].counterparty.value;
    forall c ensures c in SeenUpTo(rows, day) <==> c in seen {
      if c in SeenUpTo(rows, day) {
        var r :| r in rows && Day(r) <= day && r.counterparty == Some(c);
        var k: nat :| k < |rows| && rows[k] == r;
        assert k in RowsUpTo(rows, day);
      }
    }
    assert SeenUpTo(rows, day) == seen;
  }

  /** No transaction falls strictly between two days. */
  ghost predicate QuietBetween(rows: seq<TxRow>, low: int, day: int) {
    forall r :: r in rows ==> Day(r) <= low || day <= Day(r)
  }

  lemma {:induction false} CountStep(rows: seq<TxRow>, low: int, day: int, pick: Pick)
    requires low < day && QuietBetween(rows, low, day)
    ensures CountUpTo(rows, day, pick) == CountUpTo(rows, low, pick) + CountOn(rows, day, pick)
  {
    if rows != [] {
      assert rows[0] in rows;
      CountStep(rows[1..], low, day, pick);
    }
  }

  lemma {:induction false} LatestStep(rows: seq<TxRow>, low: int, day: int)
    requires low < day && QuietBetween(rows, low, day)
    ensures LatestUpTo(rows, day) == MaxOpt(LatestUpTo(rows, low), LatestOn(rows, day))
  {
    if rows != [] {
      assert rows[0] in rows;
      LatestStep(rows[1..], low, day);
    }
  }

  /** The counterparties of a day's prefix are the earlier ones and the day's new ones, which do not overlap. */
  lemma SeenStep(rows: seq<TxRow>, low: int, day: int)
    requires low < day && QuietBetween(rows, low, day)
    ensures |SeenUpTo(rows, day)| == |SeenUpTo(rows, low)| + |NewOn(rows, day)|
  {
    forall c ensures c in SeenUpTo(rows, day) <==> c in SeenUpTo(rows, low) + NewOn(rows, day) {
      SeenByFirst(rows, c, day);
      SeenByFirst(rows, c, low);
    }
    forall c | c in NewOn(rows, day) ensures c !in SeenUpTo(rows, low) {
      SeenByFirst(rows, c, low);
    }
    assert SeenUpTo(rows, day) == SeenUpTo(rows, low) + NewOn(rows, day);
  }

  /** A counterparty is seen by a day exactly when its first day is no later. */
  lemma SeenByFirst(rows: seq<TxRow>, c: string, day: int)
    ensures c in SeenUpTo(rows, day) <==> c in Counterparties(rows) && FirstSeen(rows, c) <= day
  {
    if c in Counterparties(rows) {
      var first := FirstSeen(rows, c);
      var r :| r in rows && r.counterparty == Some(c) && Day(r) == first;
      if c in SeenUpTo(rows, day) {
        var q :| q in rows && Day(q) <= day && q.counterparty == Some(c);
      }
    }
  }

  lemma {:induction false} NothingBefore(rows: seq<TxRow>, day: int)
    requires forall r :: r in rows ==> day < Day(r)
    ensures Naive(rows, day) == NONE
  {
    assert SeenUpTo(rows, day) == {};
    if rows != [] {
      assert rows[0] in rows;
      NothingBefore(rows[1..], day);
    }
  }

  /** Nothing falls between one active day and the next, nor before the first. */
  lemma ActiveDaysLeaveNoGap(rows: seq<TxRow>, i: nat)
    requires i < |ActiveDays(rows)|
    ensures var days := ActiveDays(rows);
            if i == 0 then forall r :: r in rows ==> days[0] <= Day(r) else QuietBetween(rows, days[i - 1], days[i])
  {
    var days := ActiveDays(rows);
    forall r | r in rows ensures days[i] <= Day(r) || (i > 0 && Day(r) <= days[i - 1]) {
      assert Day(r) in days;
      var k :| 0 <= k < |days| && days[k] == Day(r);
    }
  }

  lemma StatsStep(rows: seq<TxRow>, low: int, day: int)
    requires low < day && QuietBetween(rows, low, day)
    ensures Naive(rows, day) == Grown(Naive(rows, low), rows, day)
  {
    CountStep(rows, low, day, All);
    CountStep(rows, low, day, Incoming);
    CountStep(rows, low, day, Outgoing);
    LatestStep(rows, low, day);
    SeenStep(rows, low, day);
  }

  /** The windowed query is the naive one: on every active day, each column is the count, the number
      of distinct counterparties, or the latest observation over all history up to that day. */
  lemma {:induction false} WindowedIsNaive(rows: seq<TxRow>, i: nat)
    requires i < |ActiveDays(rows)|
    ensures Cumulative(rows, i) == Naive(rows, ActiveDays(rows)[i])
  {
    var days := ActiveDays(rows);
    ActiveDaysLeaveNoGap(rows, i);
    var day := days[i];
    if i == 0 {
      NothingBefore(rows, day - 1);
      StatsStep(rows, day - 1, day);
    } else {
      WindowedIsNaive(rows, i - 1);
      StatsStep(rows, days[i - 1], day);
    }
  }

  /** The final statement: insert the active days, overwriting rows that exist. */
  function Refresh(table: map<int, Stats>, rows: seq<TxRow>): map<int, Stats> {
    UpsertFrom(table, rows, 0)
  }

  function UpsertFrom(table: map<int, Stats>, rows: seq<TxRow>, i: nat): map<int, Stats>
    requires i <= |ActiveDays(rows)|
    decreases |ActiveDays(rows)| - i
  {
    if i == |ActiveDays(rows)| then table
    else UpsertFrom(table[ActiveDays(rows)[i] := Cumulative(rows, i)], rows, i + 1)
  }

  lemma {:induction false} UpsertFromAt(table: map<int, Stats>, rows: seq<TxRow>, i: nat, day: int)
    requires i <= |ActiveDays(rows)|
    ensures var table' := UpsertFrom(table, rows, i);
      if day in ActiveDays(rows)[i..] then day in table' && table'[day] == Naive(rows, day)
      else (day in table' <==> day in table) && (day in table ==> table'[day] == table[day])
    decreases |ActiveDays(rows)| - i
  {
    var days := ActiveDays(rows);
    if i < |days| {
      UpsertFromAt(table[days[i] := Cumulative(rows, i)], rows, i + 1, day);
      assert days[i..] == [days[i]] + days[i + 1..];
      if day == days[i] {
        assert day !in days[i + 1..];
        WindowedIsNaive(rows, i);
      }
    }
  }

  /** A refresh never deletes: the table ends exact exactly when its rows for days that have no
      transaction any more were exact before. */
  lemma RefreshIsExactIffNoStaleDay(table: map<int, Stats>, rows: seq<TxRow>)
    ensures (forall d :: d in Refresh(table, rows) ==> Refresh(table, rows)[d] == Naive(rows, d))
      <==> (forall d :: d in table && d !in ActiveDays(rows) ==> table[d] == Naive(rows, d))
    ensures forall d :: d in ActiveDays(rows) ==> d in Refresh(table, rows) && Refresh(table, rows)[d] == Naive(rows, d)
  {
    assert ActiveDays(rows)[0..] == ActiveDays(rows);
    forall d {
      UpsertFromAt(table, rows, 0, d);
    }
  }
}
