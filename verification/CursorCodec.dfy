/** The text of the cursors (packages/db/findings.go, packages/db/alert_delivery.go,
    packages/db/shadow_exit_feed.go, packages/db/first_connection_feed.go). */
module CursorCodec {
  import opened Text
  import opened KeysetPaging

  /** `Time.Format` and `time.Parse`: timestamps of section 5.6 of RFC 3339. */
  datatype Clock = Clock(format: int -> string, parse: string -> Option<int>)

  /** From the start of year 1, where times count from, to the end of year 9999. */
  predicate FourDigitYear(t: int) { 0 <= t < 315_537_897_600 * 1_000_000_000 }

  /** What the codecs rely on: whole seconds are read back, the text has no bar or outer space, and
      the sort names are not timestamps. */
  ghost predicate Rfc3339(clock: Clock) {
    && (forall t {:trigger clock.format(t)} :: WholeSeconds(t) && FourDigitYear(t) ==> clock.parse(clock.format(t)) == Some(t))
    && (forall t {:trigger clock.format(t)} :: clock.format(t) != "" && Trimmed(clock.format(t)) && '|' !in clock.format(t))
    && clock.parse("latest").None?
  }

  /** `Encode...Cursor`. */
  function Encode(clock: Clock, feed: Feed, mark: Mark): string {
    var text := clock.format(mark.at) + ['|'] + Trim(mark.id);
    if feed == ScoredConnections then "score" + ['|'] + (Itoa(mark.score) + ['|'] + text) else text
  }

  /** A cursor's prefix is dropped when it names the sort. */
  function DropPrefix(s: string, name: string): string {
    match Cut(s, '|')
    case None => s
    case Some((prefix, rest)) => if Trim(prefix) == name then rest else s
  }

  /** The time and id that end every cursor. Only the snapshot feeds trim the time first. */
  function DecodeTail(clock: Clock, s: string, score: int, trims: bool): Option<Mark> {
    match Cut(s, '|')
    case None => None
    case Some((timestamp, id)) =>
      var at := clock.parse(if trims then Trim(timestamp) else timestamp);
      if at.None? || Trim(id) == "" then None else Some(Mark(score, at.value, Trim(id)))
  }

  /** `decode...Cursor`; `None` is an invalid cursor. */
  function Decode(clock: Clock, feed: Feed, raw: string): Option<Mark> {
    var trimmed := Trim(raw);
    match feed
    case Findings => DecodeTail(clock, trimmed, 0, false)
    case Inbox => DecodeTail(clock, trimmed, 0, false)
    case ShadowExits => DecodeTail(clock, trimmed, 0, true)
    case LatestConnections => DecodeTail(clock, DropPrefix(trimmed, "latest"), 0, true)
    case ScoredConnections =>
      match Cut(DropPrefix(trimmed, "score"), '|')
      case None => None
      case Some((score, rest)) =>
        var value := Atoi(Trim(score));
        if value.None? then None else DecodeTail(clock, rest, value.value, true)
  }

  /** A mark some row left: an id with no outer space, and a score that fits an integer. */
  predicate Encodable(feed: Feed, mark: Mark) {
    && mark.id != "" && Trimmed(mark.id) && WholeSeconds(mark.at) && FourDigitYear(mark.at)
    && (if feed == ScoredConnections then -0x8000_0000_0000_0000 <= mark.score < 0x8000_0000_0000_0000 else mark.score == 0)
  }

  lemma JoinIsTrimmed(a: string, b: string)
    requires a != "" && b != "" && Trimmed(a) && Trimmed(b)
    ensures Trimmed(a + ['|'] + b)
  {
  }

  lemma TailRoundTrip(clock: Clock, mark: Mark, score: int, trims: bool)
    requires Rfc3339(clock) && mark.id != "" && Trimmed(mark.id) && WholeSeconds(mark.at) && FourDigitYear(mark.at)
    ensures DecodeTail(clock, clock.format(mark.at) + ['|'] + mark.id, score, trims) == Some(Mark(score, mark.at, mark.id))
    ensures Trimmed(clock.format(mark.at) + ['|'] + mark.id)
  {
    var timestamp := clock.format(mark.at);
    CutOfJoin(timestamp, '|', mark.id);
    TrimOfTrimmed(timestamp);
    TrimOfTrimmed(mark.id);
    JoinIsTrimmed(timestamp, mark.id);
  }

  lemma {:induction false} DigitsArePlain(s: string)
    requires s != "" && AllDigits(s)
    ensures Trimmed(s) && '|' !in s
  {
    assert IsDigit(s[0]) && IsDigit(s[|s| - 1]);
  }

  lemma ItoaIsPlain(n: int)
    ensures Itoa(n) != "" && Trimmed(Itoa(n)) && '|' !in Itoa(n)
  {
    var digits := Digits(if n < 0 then -n else n);
    DigitsArePlain(digits);
    if n < 0 {
      assert Itoa(n)[0] == '-' && Itoa(n)[|Itoa(n)| - 1] == digits[|digits| - 1];
    }
  }

  lemma ScoreRoundTrip(clock: Clock, mark: Mark)
    requires Rfc3339(clock) && Encodable(ScoredConnections, mark)
    ensures Decode(clock, ScoredConnections, Encode(clock, ScoredConnections, mark)) == Some(mark)
  {
    var tail := clock.format(mark.at) + ['|'] + mark.id;
    var score := Itoa(mark.score);
    var body := score + ['|'] + tail;
    TrimOfTrimmed(mark.id);
    TailRoundTrip(clock, mark, mark.score, true);
    ItoaIsPlain(mark.score);
    JoinIsTrimmed(score, tail);
    JoinIsTrimmed("score", body);
    TrimOfTrimmed("score" + ['|'] + body);
    CutOfJoin("score", '|', body);
    TrimOfTrimmed("score");
    CutOfJoin(score, '|', tail);
    TrimOfTrimmed(score);
    ItoaRoundTrip(mark.score);
  }

  /** Every feed reads back the cursor it wrote. */
  lemma CursorRoundTrip(clock: Clock, feed: Feed, mark: Mark)
    requires Rfc3339(clock) && Encodable(feed, mark)
    ensures Decode(clock, feed, Encode(clock, feed, mark)) == Some(mark)
  {
    var timestamp := clock.format(mark.at);
    var text := timestamp + ['|'] + mark.id;
    TrimOfTrimmed(mark.id);
    if feed == ScoredConnections {
      ScoreRoundTrip(clock, mark);
    } else {
      TailRoundTrip(clock, mark, 0, true);
      TailRoundTrip(clock, mark, 0, false);
      TrimOfTrimmed(text);
      CutOfJoin(timestamp, '|', mark.id);
      TrimOfTrimmed(timestamp);
      assert timestamp != "latest";
    }
  }

  /** One request: the raw cursor in, the page and the next raw cursor out. */
  datatype Response = Invalid | Served(page: Page, next: Option<string>)

  method Request(clock: Clock, feed: Feed, store: seq<Row>, cursor: string, limit: int) returns (response: Response)
    requires Rfc3339(clock)
    ensures Trim(cursor) == "" ==> response.Served? && response.page == PageOf(feed, store, None, PageLimit(feed, limit))
    ensures Trim(cursor) != "" && Decode(clock, feed, cursor).None? ==> response == Invalid
    ensures forall mark :: Encodable(feed, mark) && cursor == Encode(clock, feed, mark) ==>
              response.Served? && response.page == PageOf(feed, store, Some(mark), PageLimit(feed, limit))
    ensures response.Served? ==>
              match response.page.next
              case None => response.next.None?
              case Some(mark) => response.next == Some(Encode(clock, feed, mark))
  {
    forall mark | Encodable(feed, mark) && cursor == Encode(clock, feed, mark) ensures Decode(clock, feed, cursor) == Some(mark) {
      CursorRoundTrip(clock, feed, mark);
    }
    var decoded: Option<Mark> := None;
    if Trim(cursor) != "" {
      decoded := Decode(clock, feed, cursor);
      if decoded.None? {
        return Invalid;
      }
    }
    var page := ReadPage(feed, store, decoded, limit);
    return Served(page, if page.next.None? then None else Some(Encode(clock, feed, page.next.value)));
  }
}
