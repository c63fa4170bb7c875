/** Paginated fetching of historical candles over REST, against an abstract exchange. */
module Fetch {
  import opened Market

  const QUERY_LIMIT := 1000

  /** One row of the REST response; times in milliseconds. */
  datatype Kline = Kline(openTime: int, open: real, high: real, low: real, close: real, volume: real)

  datatype FetchError = Http | InProgress(openTime: int)

  /** `fetch_klines` for one symbol: start and end of the range to the rows of one response. */
  type Exchange = (int, int) -> Result<seq<Kline>, FetchError>

  function ParseKline(symbol: string, row: Kline): Candle {
    Candle(symbol, row.openTime, row.open, row.high, row.low, row.close, row.volume)
  }

  function ParseAll(symbol: string, rows: seq<Kline>): seq<Candle> {
    seq(|rows|, i requires 0 <= i < |rows| => ParseKline(symbol, rows[i]))
  }

  /** `now` in microseconds, as a datetime carries it. */
  function LastCompleteMinuteMs(nowUs: int): int {
    TruncDiv(nowUs, 1000) / MINUTE * MINUTE - MINUTE
  }

  /** The result starts a minute, that minute is over at `now`, and the next one is not. */
  lemma LastCompleteMinuteIsClosed(nowUs: int)
    requires nowUs >= 0
    ensures
      var m := LastCompleteMinuteMs(nowUs);
      && m % MINUTE == 0
      && (m + MINUTE) * 1000 <= nowUs < (m + 2 * MINUTE) * 1000
  {
    var ms := nowUs / 1000;
    assert ms == ms / MINUTE * MINUTE + ms % MINUTE;
    assert (ms / MINUTE * MINUTE - MINUTE) % MINUTE == 0;
  }

  ghost predicate Ascending(rows: seq<Kline>) {
    forall i, j :: 0 <= i < j < |rows| ==> rows[i].openTime < rows[j].openTime
  }

  /** The little the loop needs to end: a page is in order and starts no earlier than asked. It may overrun the end. */
  ghost predicate Ordered(ex: Exchange) {
    forall s, e :: ex(s, e).Ok? ==>
      Ascending(ex(s, e).value) && forall row :: row in ex(s, e).value ==> s <= row.openTime
  }

  /** The `while True` loop of `fetch_range`: the rows of all pages from `start` on. */
  function FetchRows(ex: Exchange, start: int, last: int): Result<seq<Kline>, FetchError>
    requires Ordered(ex)
    decreases last - start
  {
    match ex(start, last)
    case Err(e) => Err(e)
    case Ok(page) =>
      if page == [] then Ok([])
      else
        assert page[|page| - 1] in page;
        var next := page[|page| - 1].openTime + MINUTE;
        if |page| < QUERY_LIMIT || next > last then Ok(page)
        else Behind(page, FetchRows(ex, next, last))
  }

  function Behind(rows: seq<Kline>, rest: Result<seq<Kline>, FetchError>): Result<seq<Kline>, FetchError> {
    match rest
    case Err(e) => Err(e)
    case Ok(more) => Ok(rows + more)
  }

  /** `fetch_range` with start and end in microseconds. */
  function FetchSpec(ex: Exchange, symbol: string, startUs: int, endUs: int): Result<seq<Candle>, FetchError>
    requires Ordered(ex)
  {
    var last := LastCompleteMinuteMs(endUs);
    match FetchRows(ex, TruncDiv(startUs, 1000), last)
    case Err(e) => Err(e)
    case Ok(rows) =>
      if rows != [] && rows[|rows| - 1].openTime > last then Err(InProgress(rows[|rows| - 1].openTime))
      else Ok(ParseAll(symbol, rows))
  }

  /** The loop of `fetch_range`. */
  method FetchPages(ex: Exchange, start: int, lastCompleteMs: int) returns (r: Result<seq<Kline>, FetchError>)
    requires Ordered(ex)
    ensures r == FetchRows(ex, start, lastCompleteMs)
  {
    var startMs := start;
    var candles: seq<Kline> := [];
    ghost var whole := FetchRows(ex, start, lastCompleteMs);
    assert whole.Ok? ==> candles + whole.value == whole.value;
    while true
      invariant whole == Behind(candles, FetchRows(ex, startMs, lastCompleteMs))
      decreases lastCompleteMs - startMs
    {
      var reply := ex(startMs, lastCompleteMs);
      if reply.Err? {
        return Err(reply.error);
      }
      var page := reply.value;
      if page == [] {
        assert candles + page == candles;
        return Ok(candles);
      }
      assert page[|page| - 1] in page;
      var next := page[|page| - 1].openTime + MINUTE;
      if |page| < QUERY_LIMIT || next > lastCompleteMs {
        return Ok(candles + page);
      }
      BehindTwice(candles, page, FetchRows(ex, next, lastCompleteMs));
      candles := candles + page;
      startMs := next;
    }
  }

  lemma BehindTwice(a: seq<Kline>, b: seq<Kline>, rest: Result<seq<Kline>, FetchError>)
    ensures Behind(a, Behind(b, rest)) == Behind(a + b, rest)
  {
    if rest.Ok? {
      assert a + (b + rest.value) == a + b + rest.value;
    }
  }

  method FetchRange(ex: Exchange, symbol: string, startUs: int, endUs: int) returns (r: Result<seq<Candle>, FetchError>)
    requires Ordered(ex)
    ensures r == FetchSpec(ex, symbol, startUs, endUs)
  {
    var startMs := TruncDiv(startUs, 1000);
    var lastCompleteMs := LastCompleteMinuteMs(endUs);
    var fetched := FetchPages(ex, startMs, lastCompleteMs);
    if fetched.Err? {
      return Err(fetched.error);
    }
    var candles := fetched.value;
    if candles != [] && candles[|candles| - 1].openTime > lastCompleteMs {
      return Err(InProgress(candles[|candles| - 1].openTime));
    }
    return Ok(ParseAll(symbol, candles));
  }

  // ---------- any exchange that orders its pages ----------

  lemma {:induction false} RowsAscend(ex: Exchange, start: int, last: int)
    requires Ordered(ex)
    ensures
      var r := FetchRows(ex, start, last);
      r.Ok? ==> Ascending(r.value) && forall row :: row in r.value ==> start <= row.openTime
    decreases last - start
  {
    if ex(start, last).Err? || ex(start, last).value == [] {
    } else {
      var page := ex(start, last).value;
      assert page[|page| - 1] in page;
      var next := page[|page| - 1].openTime + MINUTE;
      if !(|page| < QUERY_LIMIT || next > last) {
        RowsAscend(ex, next, last);
        var rest := FetchRows(ex, next, last);
        if rest.Ok? {
          var all := page + rest.value;
          forall i, j | 0 <= i < j < |all|
            ensures all[i].openTime < all[j].openTime
          {
            if i < |page| <= j {
              assert all[j] in rest.value;
              assert page[i].openTime <= page[|page| - 1].openTime;
            }
          }
        }
      }
    }
  }

  /** Looking at the last row is enough: every candle that is returned is closed by `end`, in order and without
      duplicates, whatever the exchange sent past the requested end. */
  lemma OnlyClosedCandles(ex: Exchange, symbol: string, startUs: int, endUs: int)
    requires Ordered(ex) && endUs >= 0
    ensures
      var r := FetchSpec(ex, symbol, startUs, endUs);
      r.Ok? ==>
        && (forall i :: 0 <= i < |r.value| ==>
              r.value[i].symbol == symbol && TruncDiv(startUs, 1000) <= r.value[i].ts
              && (r.value[i].ts + MINUTE) * 1000 <= endUs)
        && (forall i, j :: 0 <= i < j < |r.value| ==> r.value[i].ts < r.value[j].ts)
  {
    var last := LastCompleteMinuteMs(endUs);
    RowsAscend(ex, TruncDiv(startUs, 1000), last);
    LastCompleteMinuteIsClosed(endUs);
    var rows := FetchRows(ex, TruncDiv(startUs, 1000), last);
    if rows.Ok? && FetchSpec(ex, symbol, startUs, endUs).Ok? {
      forall i | 0 <= i < |rows.value|
        ensures TruncDiv(startUs, 1000) <= rows.value[i].openTime <= last
      {
        assert rows.value[i] in rows.value;
        assert rows.value[i].openTime <= rows.value[|rows.value| - 1].openTime;
      }
    }
  }

  /** An answer is refused exactly when some row of it is not over yet, and the error names the latest row. */
  lemma RefusedIffOverrun(ex: Exchange, symbol: string, startUs: int, endUs: int, rows: seq<Kline>)
    requires Ordered(ex) && FetchRows(ex, TruncDiv(startUs, 1000), LastCompleteMinuteMs(endUs)) == Ok(rows)
    ensures
      var r := FetchSpec(ex, symbol, startUs, endUs);
      if exists row :: row in rows && row.openTime > LastCompleteMinuteMs(endUs) then
        exists row :: row in rows && r == Err(InProgress(row.openTime)) && LatestOf(rows, row)
      else r.Ok? && |r.value| == |rows|
  {
    RowsAscend(ex, TruncDiv(startUs, 1000), LastCompleteMinuteMs(endUs));
    LastIsLatest(rows);
  }

  lemma LastIsLatest(rows: seq<Kline>)
    requires Ascending(rows)
    ensures rows != [] ==> rows[|rows| - 1] in rows && LatestOf(rows, rows[|rows| - 1])
  {
  }

  ghost predicate LatestOf(rows: seq<Kline>, last: Kline) {
    forall row :: row in rows ==> row.openTime <= last.openTime
  }

  // ---------- an exchange that serves its book ----------

  /** Candles of one symbol as the exchange holds them: at least a minute apart. */
  ghost predicate Spaced(book: seq<Kline>) {
    forall i, j :: 0 <= i < j < |book| ==> book[i].openTime + MINUTE <= book[j].openTime
  }

  /** The rows of the book within `lo..hi`, both included. */
  function Between(book: seq<Kline>, lo: int, hi: int): seq<Kline> {
    if book == [] then []
    else if lo <= book[0].openTime <= hi then [book[0]] + Between(book[1..], lo, hi)
    else Between(book[1..], lo, hi)
  }

  function FirstPage(rows: seq<Kline>): seq<Kline> {
    if |rows| <= 1000 then rows else rows[..1000]
  }

  /** Each response holds the first rows of the range, 1000 of them at most. */
  ghost predicate Serves(ex: Exchange, book: seq<Kline>) {
    Spaced(book) &&
    forall s, e :: ex(s, e) == Ok(FirstPage(Between(book, s, e)))
  }

  lemma {:induction false} BetweenRows(book: seq<Kline>, lo: int, hi: int)
    requires Spaced(book)
    ensures Spaced(Between(book, lo, hi))
    ensures forall row :: row in Between(book, lo, hi) <==> row in book && lo <= row.openTime <= hi
  {
    if book == [] {
    } else {
      BetweenRows(book[1..], lo, hi);
      var rest := Between(book[1..], lo, hi);
      assert book == [book[0]] + book[1..];
      forall row | row in rest
        ensures book[0].openTime + MINUTE <= row.openTime
      {
        assert row in book[1..];
      }
    }
  }

  lemma FirstInRange(book: seq<Kline>, lo: int, hi: int)
    requires Spaced(book) && book != [] && lo <= book[0].openTime <= hi
    ensures Between(book, book[0].openTime + MINUTE, hi) == Between(book[1..], lo, hi)
  {
    SameAbove(book[1..], lo, book[0].openTime + MINUTE, hi);
  }

  /** Asking again a minute after a row gives exactly the rows after it. */
  lemma {:induction false} NextPage(book: seq<Kline>, lo: int, hi: int, k: nat)
    requires Spaced(book) && k < |Between(book, lo, hi)|
    ensures Between(book, Between(book, lo, hi)[k].openTime + MINUTE, hi) == Between(book, lo, hi)[k + 1..]
  {
    var all, rest := Between(book, lo, hi), Between(book[1..], lo, hi);
    var first := if lo <= book[0].openTime <= hi then 1 else 0;
    assert all == (if first == 1 then [book[0]] else []) + rest;
    if k < first {
      FirstInRange(book, lo, hi);
      assert all[1..] == rest;
    } else {
      NextPage(book[1..], lo, hi, k - first);
      LaterRow(book, lo, hi, k - first);
      assert all[k + 1..] == rest[k - first + 1..];
    }
  }

  lemma LaterRow(book: seq<Kline>, lo: int, hi: int, k: nat)
    requires Spaced(book) && book != [] && k < |Between(book[1..], lo, hi)|
    ensures book[0].openTime < Between(book[1..], lo, hi)[k].openTime + MINUTE
    ensures var t := Between(book[1..], lo, hi)[k].openTime + MINUTE; Between(book, t, hi) == Between(book[1..], t, hi)
  {
    BetweenRows(book[1..], lo, hi);
    assert Between(book[1..], lo, hi)[k] in book[1..];
  }

  lemma {:induction false} SameAbove(book: seq<Kline>, a: int, b: int, hi: int)
    requires forall row :: row in book ==> a <= row.openTime && b <= row.openTime
    ensures Between(book, a, hi) == Between(book, b, hi)
  {
    if book == [] {
    } else {
      SameAbove(book[1..], a, b, hi);
    }
  }

  lemma ServesIsOrdered(ex: Exchange, book: seq<Kline>)
    requires Serves(ex, book)
    ensures Ordered(ex)
  {
    forall s, e | ex(s, e).Ok?
      ensures Ascending(ex(s, e).value) && forall row :: row in ex(s, e).value ==> s <= row.openTime
    {
      BetweenRows(book, s, e);
    }
  }

  /** A full page ends exactly where the next request starts. */
  lemma FullPage(book: seq<Kline>, start: int, last: int)
    requires Spaced(book) && |Between(book, start, last)| >= QUERY_LIMIT
    ensures
      var all := Between(book, start, last);
      var page := FirstPage(all);
      && |page| == QUERY_LIMIT && start <= page[QUERY_LIMIT - 1].openTime
      && page + Between(book, page[QUERY_LIMIT - 1].openTime + MINUTE, last) == all
  {
    var all := Between(book, start, last);
    BetweenRows(book, start, last);
    NextPage(book, start, last, QUERY_LIMIT - 1);
    assert all[QUERY_LIMIT - 1] in all;
    assert FirstPage(all) == all[..QUERY_LIMIT];
  }

  lemma ShortAnswer(ex: Exchange, book: seq<Kline>, start: int, last: int)
    requires Serves(ex, book) && Ordered(ex) && |Between(book, start, last)| < QUERY_LIMIT
    ensures FetchRows(ex, start, last) == Ok(Between(book, start, last))
  {
    assert ex(start, last) == Ok(Between(book, start, last));
  }

  lemma LongAnswer(ex: Exchange, book: seq<Kline>, start: int, last: int) returns (page: seq<Kline>, next: int)
    requires Serves(ex, book) && Ordered(ex) && |Between(book, start, last)| >= QUERY_LIMIT
    ensures |page| == QUERY_LIMIT && ex(start, last) == Ok(page) && next == page[|page| - 1].openTime + MINUTE
    ensures page + Between(book, next, last) == Between(book, start, last) && start < next
  {
    page := FirstPage(Between(book, start, last));
    FullPage(book, start, last);
    next := page[QUERY_LIMIT - 1].openTime + MINUTE;
  }

  lemma LongAnswerRows(ex: Exchange, start: int, last: int, page: seq<Kline>, next: int)
    requires Ordered(ex) && |page| == QUERY_LIMIT && ex(start, last) == Ok(page) && start < next
    requires next == page[|page| - 1].openTime + MINUTE
    ensures FetchRows(ex, start, last) == if next > last then Ok(page) else Behind(page, FetchRows(ex, next, last))
  {
  }

  /** Pagination is complete: the pages together are exactly the book's rows in the range, no duplicate and no skip
      at a page border, however many pages it takes. */
  lemma {:induction false} PagesAreComplete(ex: Exchange, book: seq<Kline>, start: int, last: int)
    requires Serves(ex, book) && Ordered(ex)
    ensures FetchRows(ex, start, last) == Ok(Between(book, start, last))
    decreases last - start
  {
    if |Between(book, start, last)| < QUERY_LIMIT {
      ShortAnswer(ex, book, start, last);
    } else {
      var page, next := LongAnswer(ex, book, start, last);
      LongAnswerRows(ex, start, last, page, next);
      if next > last {
        NoneAbove(book, next, last);
        assert page + [] == page;
      } else {
        PagesAreComplete(ex, book, next, last);
      }
    }
  }

  lemma {:induction false} NoneAbove(book: seq<Kline>, lo: int, hi: int)
    requires lo > hi
    ensures Between(book, lo, hi) == []
  {
    if book == [] {
    } else {
      NoneAbove(book[1..], lo, hi);
    }
  }

  /** `fetch_range` returns the candles from `start` to the last complete minute before `end`: all of them and no
      others, in order. */
  lemma FetchIsComplete(ex: Exchange, book: seq<Kline>, symbol: string, startUs: int, endUs: int)
    requires Serves(ex, book) && Ordered(ex)
    ensures FetchSpec(ex, symbol, startUs, endUs) ==
      Ok(ParseAll(symbol, Between(book, TruncDiv(startUs, 1000), LastCompleteMinuteMs(endUs))))
  {
    var start, last := TruncDiv(startUs, 1000), LastCompleteMinuteMs(endUs);
    PagesAreComplete(ex, book, start, last);
    BetweenRows(book, start, last);
    var rows := Between(book, start, last);
    assert rows != [] ==> rows[|rows| - 1] in rows;
  }

  /** The candle holds the row, field by field. */
  predicate IsCandleOf(c: Candle, symbol: string, row: Kline) {
    && c.symbol == symbol && c.ts == row.openTime && c.open == row.open && c.high == row.high && c.low == row.low
    && c.close == row.close && c.volume == row.volume
  }

  /** Each row of the range comes back as one candle with its values, in the order of the book. */
  lemma FetchedAreRows(ex: Exchange, book: seq<Kline>, symbol: string, startUs: int, endUs: int)
    returns (cs: seq<Candle>, rows: seq<Kline>)
    requires Serves(ex, book) && Ordered(ex)
    ensures FetchSpec(ex, symbol, startUs, endUs) == Ok(cs) && |cs| == |rows| && Spaced(rows)
    ensures forall row :: row in rows <==>
      row in book && TruncDiv(startUs, 1000) <= row.openTime <= LastCompleteMinuteMs(endUs)
    ensures forall i :: 0 <= i < |cs| ==> IsCandleOf(cs[i], symbol, rows[i])
  {
    FetchIsComplete(ex, book, symbol, startUs, endUs);
    rows := Between(book, TruncDiv(startUs, 1000), LastCompleteMinuteMs(endUs));
    BetweenRows(book, TruncDiv(startUs, 1000), LastCompleteMinuteMs(endUs));
    cs := ParseAll(symbol, rows);
  }

  // ---------- any exchange that may fail ----------

  /** The start times the loop asks for, one after another: on from a full page, a minute after its last row. */
  function Requests(ex: Exchange, start: int, last: int): (starts: seq<int>)
    requires Ordered(ex)
    ensures starts != [] && starts[0] == start
    decreases last - start
  {
    var reply := ex(start, last);
    if reply.Err? || |reply.value| < QUERY_LIMIT then [start]
    else
      assert reply.value[|reply.value| - 1] in reply.value;
      var next := reply.value[|reply.value| - 1].openTime + MINUTE;
      if next > last then [start] else [start] + Requests(ex, next, last)
  }

  function Answers(ex: Exchange, starts: seq<int>, last: int): seq<Kline>
    requires forall i :: 0 <= i < |starts| ==> ex(starts[i], last).Ok?
  {
    if starts == [] then [] else ex(starts[0], last).value + Answers(ex, starts[1..], last)
  }

  /** Nothing is kept of a fetch that fails: the result is all rows of all requests, or the error of the one that
      failed, which is the last. */
  lemma {:induction false} FetchIsAllOrError(ex: Exchange, start: int, last: int)
    requires Ordered(ex)
    ensures
      var starts := Requests(ex, start, last);
      var r := FetchRows(ex, start, last);
      && (forall i :: 0 <= i < |starts| - 1 ==> ex(starts[i], last).Ok?)
      && (match ex(starts[|starts| - 1], last)
          case Err(e) => r == Err(e)
          case Ok(_) => r == Ok(Answers(ex, starts, last)))
    decreases last - start
  {
    var reply := ex(start, last);
    var starts := Requests(ex, start, last);
    if |starts| == 1 {
      if reply.Ok? {
        assert starts[1..] == [] && reply.value + [] == reply.value;
      }
    } else {
      var page := reply.value;
      assert page[|page| - 1] in page;
      FetchIsAllOrError(ex, page[|page| - 1].openTime + MINUTE, last);
      assert starts[1..] == Requests(ex, page[|page| - 1].openTime + MINUTE, last);
      assert forall i :: 0 < i < |starts| ==> starts[i] == starts[1..][i - 1];
    }
  }

  // ---------- a book without holes ----------

  ghost predicate HasMinute(book: seq<Kline>, t: int) {
    exists row :: row in book && row.openTime == t
  }

  /** The book has a row for each of the `n` minutes from `lo` on. */
  ghost predicate HasMinutes(book: seq<Kline>, lo: int, n: nat) {
    forall i :: 0 <= i < n ==> HasMinute(book, lo + i * MINUTE)
  }

  lemma FirstOfRange(book: seq<Kline>, lo: int, hi: int)
    requires Spaced(book) && HasMinute(book, lo) && lo <= hi
    ensures |Between(book, lo, hi)| > 0 && Between(book, lo, hi)[0].openTime == lo
  {
    var rows := Between(book, lo, hi);
    BetweenRows(book, lo, hi);
    var row :| row in book && row.openTime == lo;
    assert row in rows;
    assert rows[0] in rows;
  }

  ghost predicate AreMinutes(rows: seq<Kline>, lo: int) {
    forall i :: 0 <= i < |rows| ==> rows[i].openTime == lo + i * MINUTE
  }

  lemma LaterMinutes(book: seq<Kline>, lo: int, n: nat)
    requires n > 0 && HasMinutes(book, lo, n)
    ensures HasMinute(book, lo) && HasMinutes(book, lo + MINUTE, n - 1)
  {
    assert HasMinute(book, lo + 0 * MINUTE);
    forall i | 0 <= i < n - 1
      ensures HasMinute(book, lo + MINUTE + i * MINUTE)
    {
      assert HasMinute(book, lo + (i + 1) * MINUTE);
    }
  }

  lemma MinuteBefore(rows: seq<Kline>, lo: int)
    requires rows != [] && rows[0].openTime == lo && AreMinutes(rows[1..], lo + MINUTE)
    ensures AreMinutes(rows, lo)
  {
    forall i | 0 < i < |rows|
      ensures rows[i].openTime == lo + i * MINUTE
    {
      assert rows[i] == rows[1..][i - 1];
    }
  }

  /** Then the rows of that range are those minutes, in order. */
  lemma {:induction false} FullRange(book: seq<Kline>, lo: int, n: nat, hi: int)
    requires Spaced(book) && HasMinutes(book, lo, n) && hi == lo + n * MINUTE - MINUTE
    ensures |Between(book, lo, hi)| == n && AreMinutes(Between(book, lo, hi), lo)
    decreases n
  {
    if n == 0 {
      NoneAbove(book, lo, hi);
    } else {
      LaterMinutes(book, lo, n);
      FirstOfRange(book, lo, hi);
      NextPage(book, lo, hi, 0);
      FullRange(book, lo + MINUTE, n - 1, hi);
      MinuteBefore(Between(book, lo, hi), lo);
    }
  }
}
