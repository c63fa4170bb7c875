/** The candle queries of the service and the coverage they are reported with. */
module Queries {
  import opened Market
  import opened Database
  import opened Frame

  const HOUR := 60 * MINUTE

  /** The symbol's rows with start <= ts <= end, in order of ts: the WHERE and ORDER BY of both queries. */
  ghost predicate IsScan(t: Table, symbol: string, start: int, end: int, rows: seq<Candle>) {
    && Rising(Times(rows))
    && (forall c :: c in rows <==>
          c.symbol == symbol && start <= c.ts <= end && KeyOf(c) in t && t[KeyOf(c)] == c)
  }

  // ---------- GROUP BY time_bucket ----------

  function Bucket(ts: int, width: int): int
    requires width > 0
  {
    ts / width * width
  }

  /** The distinct buckets of rows in order of ts. */
  function Buckets(rows: seq<Candle>, width: int): seq<int>
    requires width > 0
  {
    if rows == [] then []
    else
      var bs := Buckets(rows[..|rows| - 1], width);
      var b := Bucket(rows[|rows| - 1].ts, width);
      if bs != [] && bs[|bs| - 1] == b then bs else bs + [b]
  }

  /** The rows of one bucket. */
  function Members(rows: seq<Candle>, width: int, b: int): seq<Candle>
    requires width > 0
  {
    if rows == [] then []
    else
      Members(rows[..|rows| - 1], width, b)
      + if Bucket(rows[|rows| - 1].ts, width) == b then [rows[|rows| - 1]] else []
  }

  function MaxHigh(rows: seq<Candle>): real
    requires rows != []
  {
    if |rows| == 1 then rows[0].high else MaxOf(MaxHigh(rows[..|rows| - 1]), rows[|rows| - 1].high)
  }

  function MinLow(rows: seq<Candle>): real
    requires rows != []
  {
    if |rows| == 1 then rows[0].low else MinOf(MinLow(rows[..|rows| - 1]), rows[|rows| - 1].low)
  }

  function Volume(rows: seq<Candle>): real {
    if rows == [] then 0.0 else Volume(rows[..|rows| - 1]) + rows[|rows| - 1].volume
  }

  /** first(open), max(high), min(low), last(close), sum(volume) */
  function Aggregate(b: int, rows: seq<Candle>): Candle
    requires rows != []
  {
    Candle(rows[0].symbol, b, rows[0].open, MaxHigh(rows), MinLow(rows), rows[|rows| - 1].close, Volume(rows))
  }

  lemma FrontRises(rows: seq<Candle>, n: nat)
    requires Rising(Times(rows)) && n <= |rows|
    ensures Rising(Times(rows[..n]))
  {
    assert Times(rows[..n]) == Times(rows)[..n];
  }

  lemma {:induction false} BucketsRise(rows: seq<Candle>, width: int)
    requires width > 0 && Rising(Times(rows))
    ensures Rising(Buckets(rows, width))
    ensures rows != [] ==>
      Buckets(rows, width) != []
      && Buckets(rows, width)[|Buckets(rows, width)| - 1] == Bucket(rows[|rows| - 1].ts, width)
  {
    if rows == [] {
    } else {
      var n := |rows| - 1;
      FrontRises(rows, n);
      BucketsRise(rows[..n], width);
      if n > 0 {
        assert Times(rows)[n - 1] < Times(rows)[n];
        BucketMonotone(rows[n - 1].ts, rows[n].ts, width);
      }
    }
  }

  lemma {:induction false} BucketIffMembers(rows: seq<Candle>, width: int, b: int)
    requires width > 0
    ensures b in Buckets(rows, width) <==> Members(rows, width, b) != []
    ensures b in Buckets(rows, width) ==> b % width == 0
  {
    if rows == [] {
    } else {
      var n := |rows| - 1;
      BucketIffMembers(rows[..n], width, b);
      MultipleOf(rows[n].ts / width, width);
    }
  }

  lemma BucketsOfRows(rows: seq<Candle>, width: int)
    requires width > 0 && Rising(Times(rows))
    ensures Rising(Buckets(rows, width))
    ensures forall b :: b in Buckets(rows, width) <==> Members(rows, width, b) != []
    ensures forall b :: b in Buckets(rows, width) ==> b % width == 0
  {
    BucketsRise(rows, width);
    forall b
      ensures b in Buckets(rows, width) <==> Members(rows, width, b) != []
      ensures b in Buckets(rows, width) ==> b % width == 0
    {
      BucketIffMembers(rows, width, b);
    }
  }

  lemma MultipleOf(k: int, width: int)
    requires width > 0
    ensures k * width % width == 0
  {
    AddMultiple(0, k, width);
  }

  lemma BucketMonotone(a: int, b: int, width: int)
    requires width > 0 && a <= b
    ensures Bucket(a, width) <= Bucket(b, width)
    ensures Bucket(a, width) <= a < Bucket(a, width) + width
  {
    DivMonotone(a, b, width);
    MulMonotone(a / width, b / width, width);
  }

  lemma DivMonotone(a: int, b: int, width: int)
    requires width > 0 && a <= b
    ensures a / width <= b / width
  {
    AddMultiple(b % width, b / width, width);
    AddMultiple(b - a + a % width, a / width, width);
    assert b == b - a + a % width + a / width * width;
    assert (b - a + a % width) / width >= 0;
  }

  lemma MulMonotone(a: int, b: int, c: int)
    requires a <= b && c >= 0
    ensures a * c <= b * c
  {
    assert (b - a) * c >= 0;
  }

  /** The bars of the bucketed query: one per bucket that has rows, in order. */
  function Bars(rows: seq<Candle>, width: int): seq<Candle>
    requires width > 0 && Rising(Times(rows))
  {
    BucketsOfRows(rows, width);
    var bs := Buckets(rows, width);
    seq(|bs|, i requires 0 <= i < |bs| =>
      assert bs[i] in bs;
      Aggregate(bs[i], Members(rows, width, bs[i])))
  }

  /** Summed over `bs`, the volume of the rows in those buckets. */
  function VolumeOver(rows: seq<Candle>, width: int, bs: seq<int>): real
    requires width > 0
  {
    if bs == [] then 0.0
    else VolumeOver(rows, width, bs[..|bs| - 1]) + Volume(Members(rows, width, bs[|bs| - 1]))
  }

  lemma VolumeAppend(rows: seq<Candle>, c: Candle)
    ensures Volume(rows + [c]) == Volume(rows) + c.volume
  {
    assert (rows + [c])[..|rows|] == rows;
  }

  /** One more row adds its volume to its bucket and to no other. */
  lemma MembersVolume(rows: seq<Candle>, width: int, b: int)
    requires width > 0 && rows != []
    ensures Volume(Members(rows, width, b)) == Volume(Members(rows[..|rows| - 1], width, b))
      + if Bucket(rows[|rows| - 1].ts, width) == b then rows[|rows| - 1].volume else 0.0
  {
    if Bucket(rows[|rows| - 1].ts, width) == b {
      VolumeAppend(Members(rows[..|rows| - 1], width, b), rows[|rows| - 1]);
    } else {
      assert Members(rows, width, b) == Members(rows[..|rows| - 1], width, b);
    }
  }

  lemma {:induction false} VolumeOfLast(rows: seq<Candle>, width: int, bs: seq<int>)
    requires width > 0 && rows != [] && Rising(bs)
    ensures VolumeOver(rows, width, bs) == VolumeOver(rows[..|rows| - 1], width, bs)
      + if Bucket(rows[|rows| - 1].ts, width) in bs then rows[|rows| - 1].volume else 0.0
  {
    if bs == [] {
    } else {
      var m := |bs| - 1;
      assert Rising(bs[..m]);
      VolumeOfLast(rows, width, bs[..m]);
      MembersVolume(rows, width, bs[m]);
      assert bs == bs[..m] + [bs[m]];
      assert bs[m] !in bs[..m];
    }
  }

  lemma {:induction false} VolumeOverAll(rows: seq<Candle>, width: int)
    requires width > 0 && Rising(Times(rows))
    ensures VolumeOver(rows, width, Buckets(rows, width)) == Volume(rows)
  {
    if rows == [] {
    } else {
      var n := |rows| - 1;
      var b := Bucket(rows[n].ts, width);
      FrontRises(rows, n);
      VolumeOverAll(rows[..n], width);
      BucketsRise(rows, width);
      BucketsRise(rows[..n], width);
      NewBucket(rows[..n], width, b);
      VolumeOfLast(rows, width, Buckets(rows, width));
    }
  }

  /** A bucket no row is in yet adds nothing. */
  lemma NewBucket(rows: seq<Candle>, width: int, b: int)
    requires width > 0
    ensures b !in Buckets(rows, width) ==>
      VolumeOver(rows, width, Buckets(rows, width) + [b]) == VolumeOver(rows, width, Buckets(rows, width))
  {
    BucketIffMembers(rows, width, b);
    var bs := Buckets(rows, width);
    assert (bs + [b])[..|bs|] == bs;
  }

  lemma {:induction false} BarsVolume(rows: seq<Candle>, width: int, n: nat)
    requires width > 0 && Rising(Times(rows)) && n <= |Buckets(rows, width)|
    ensures Volume(Bars(rows, width)[..n]) == VolumeOver(rows, width, Buckets(rows, width)[..n])
  {
    if n == 0 {
    } else {
      var bars, bs := Bars(rows, width), Buckets(rows, width);
      BarsVolume(rows, width, n - 1);
      assert bars[..n][..n - 1] == bars[..n - 1] && bs[..n][..n - 1] == bs[..n - 1];
    }
  }

  /** The bars together carry exactly the volume of the rows. */
  lemma VolumeIsConserved(rows: seq<Candle>, width: int)
    requires width > 0 && Rising(Times(rows))
    ensures Volume(Bars(rows, width)) == Volume(rows)
  {
    var bars, bs := Bars(rows, width), Buckets(rows, width);
    BarsVolume(rows, width, |bs|);
    assert bars[..|bs|] == bars && bs[..|bs|] == bs;
    VolumeOverAll(rows, width);
  }

  lemma {:induction false} RangeOf(rows: seq<Candle>)
    requires rows != []
    ensures forall c :: c in rows ==> MinLow(rows) <= c.low && c.high <= MaxHigh(rows)
    ensures (exists c :: c in rows && c.low == MinLow(rows)) && (exists c :: c in rows && c.high == MaxHigh(rows))
  {
    if |rows| == 1 {
      assert rows[0] in rows;
    } else {
      RangeOf(rows[..|rows| - 1]);
      assert rows == rows[..|rows| - 1] + [rows[|rows| - 1]];
      assert rows[|rows| - 1] in rows;
      assert forall c :: c in rows[..|rows| - 1] ==> c in rows;
    }
  }

  lemma {:induction false} VolumeNonNegative(rows: seq<Candle>)
    requires forall c :: c in rows ==> c.volume >= 0.0
    ensures Volume(rows) >= 0.0
  {
    if rows == [] {
    } else {
      assert forall c :: c in rows[..|rows| - 1] ==> c in rows;
      VolumeNonNegative(rows[..|rows| - 1]);
      assert rows[|rows| - 1] in rows;
    }
  }

  lemma {:induction false} MembersAreRows(rows: seq<Candle>, width: int, b: int)
    requires width > 0
    ensures forall c :: c in Members(rows, width, b) <==> c in rows && Bucket(c.ts, width) == b
  {
    if rows == [] {
    } else {
      MembersAreRows(rows[..|rows| - 1], width, b);
      assert rows == rows[..|rows| - 1] + [rows[|rows| - 1]];
    }
  }

  /** Bars of sound candles are sound; their buckets strictly increase; and a bar's high and low are the extremes of the
      rows in its bucket. */
  lemma BarsAreSound(rows: seq<Candle>, width: int)
    requires width > 0 && Rising(Times(rows)) && forall c :: c in rows ==> Sound(c)
    ensures
      var bars := Bars(rows, width);
      && Rising(Times(bars)) && (forall i :: 0 <= i < |bars| ==> Sound(bars[i]))
      && (forall i, c :: 0 <= i < |bars| && c in rows && Bucket(c.ts, width) == bars[i].ts ==>
            bars[i].low <= c.low && c.high <= bars[i].high)
  {
    BucketsOfRows(rows, width);
    var bars, bs := Bars(rows, width), Buckets(rows, width);
    assert Times(bars) == bs;
    forall i | 0 <= i < |bars|
      ensures Sound(bars[i])
      ensures forall c :: c in rows && Bucket(c.ts, width) == bars[i].ts ==>
        bars[i].low <= c.low && c.high <= bars[i].high
    {
      assert bs[i] in bs;
      var ms := Members(rows, width, bs[i]);
      MembersAreRows(rows, width, bs[i]);
      RangeOf(ms);
      VolumeNonNegative(ms);
      assert ms[0] in ms && ms[|ms| - 1] in ms;
    }
  }

  lemma {:induction false} MembersRise(rows: seq<Candle>, width: int, b: int)
    requires width > 0 && Rising(Times(rows))
    ensures Rising(Times(Members(rows, width, b)))
  {
    if rows == [] {
    } else {
      var n := |rows| - 1;
      FrontRises(rows, n);
      MembersRise(rows[..n], width, b);
      MembersAreRows(rows[..n], width, b);
      var front, all := Members(rows[..n], width, b), Members(rows, width, b);
      forall i, j | 0 <= i < j < |all|
        ensures Times(all)[i] < Times(all)[j]
      {
        assert i < |front| && front[i] in front;
        var k :| 0 <= k < n && rows[k] == front[i];
        assert Times(rows)[k] < Times(rows)[n];
        assert j < |front| ==> Times(front)[i] < Times(front)[j];
      }
    }
  }

  /** The first and last of rows in order. */
  lemma EndsOfRows(rows: seq<Candle>)
    requires rows != [] && Rising(Times(rows))
    ensures forall c :: c in rows ==> rows[0].ts <= c.ts <= rows[|rows| - 1].ts
  {
    forall c | c in rows
      ensures rows[0].ts <= c.ts <= rows[|rows| - 1].ts
    {
      var k :| 0 <= k < |rows| && rows[k] == c;
      assert Times(rows)[0] == rows[0].ts && Times(rows)[|rows| - 1] == rows[|rows| - 1].ts && Times(rows)[k] == c.ts;
    }
  }

  /** A bar opens with the earliest row of its bucket and closes with the latest. */
  lemma BarEnds(rows: seq<Candle>, width: int, i: nat) returns (first: Candle, last: Candle)
    requires width > 0 && Rising(Times(rows)) && i < |Bars(rows, width)|
    ensures
      var bar := Bars(rows, width)[i];
      && first in rows && last in rows && bar.open == first.open && bar.close == last.close
      && Bucket(first.ts, width) == bar.ts == Bucket(last.ts, width)
      && forall c :: c in rows && Bucket(c.ts, width) == bar.ts ==> first.ts <= c.ts <= last.ts
  {
    BucketsOfRows(rows, width);
    var b := Buckets(rows, width)[i];
    assert b in Buckets(rows, width);
    var ms := Members(rows, width, b);
    MembersAreRows(rows, width, b);
    MembersRise(rows, width, b);
    EndsOfRows(ms);
    first, last := ms[0], ms[|ms| - 1];
    assert first in ms && last in ms;
  }

  /** The volume of the rows whose bucket is `b`. */
  function VolumeIn(rows: seq<Candle>, width: int, b: int): real
    requires width > 0
  {
    if rows == [] then 0.0
    else
      VolumeIn(rows[..|rows| - 1], width, b)
      + if Bucket(rows[|rows| - 1].ts, width) == b then rows[|rows| - 1].volume else 0.0
  }

  lemma {:induction false} VolumeOfMembers(rows: seq<Candle>, width: int, b: int)
    requires width > 0
    ensures Volume(Members(rows, width, b)) == VolumeIn(rows, width, b)
  {
    if rows == [] {
    } else {
      VolumeOfMembers(rows[..|rows| - 1], width, b);
      MembersVolume(rows, width, b);
    }
  }

  /** The candle is a row of the bucket that starts at `b`. */
  predicate InBucket(c: Candle, rows: seq<Candle>, width: int, b: int)
    requires width > 0
  {
    c in rows && b <= c.ts < b + width
  }

  lemma BucketIff(ts: int, width: int, b: int)
    requires width > 0 && b % width == 0
    ensures Bucket(ts, width) == b <==> b <= ts < b + width
  {
    BucketMonotone(ts, ts, width);
    assert b == b / width * width;
    if b <= ts < b + width {
      var d := ts - b;
      AddMultiple(d, b / width, width);
      SmallQuotient(d, width);
    }
  }

  /** A bar is made of the rows of its bucket: some row has its high and none a higher one, some has its low and none a
      lower one, its volume is theirs, and its symbol is theirs. */
  lemma BarIsItsRows(rows: seq<Candle>, width: int, symbol: string, i: nat)
    requires width > 0 && Rising(Times(rows)) && i < |Bars(rows, width)| && forall c :: c in rows ==> c.symbol == symbol
    ensures
      var bar := Bars(rows, width)[i];
      && bar.symbol == symbol && bar.ts % width == 0 && bar.volume == VolumeIn(rows, width, bar.ts)
      && (forall c :: InBucket(c, rows, width, bar.ts) ==> bar.low <= c.low && c.high <= bar.high)
      && (exists c :: InBucket(c, rows, width, bar.ts) && c.high == bar.high)
      && (exists c :: InBucket(c, rows, width, bar.ts) && c.low == bar.low)
  {
    BucketsOfRows(rows, width);
    var b := Buckets(rows, width)[i];
    assert b in Buckets(rows, width);
    var ms := Members(rows, width, b);
    MembersAreRows(rows, width, b);
    VolumeOfMembers(rows, width, b);
    RangeOf(ms);
    forall c | c in rows
      ensures InBucket(c, rows, width, b) <==> c in ms
    {
      BucketIff(c.ts, width, b);
    }
    assert ms[0] in ms;
    var high :| high in ms && high.high == MaxHigh(ms);
    var low :| low in ms && low.low == MinLow(ms);
    assert InBucket(high, rows, width, b) && InBucket(low, rows, width, b);
  }

  /** Every row has a bar. */
  lemma EveryRowHasBar(rows: seq<Candle>, width: int, c: Candle) returns (i: nat)
    requires width > 0 && Rising(Times(rows)) && c in rows
    ensures i < |Bars(rows, width)| && Bars(rows, width)[i].ts <= c.ts < Bars(rows, width)[i].ts + width
  {
    BucketsOfRows(rows, width);
    var b := Bucket(c.ts, width);
    BucketMonotone(c.ts, c.ts, width);
    MembersAreRows(rows, width, b);
    assert c in Members(rows, width, b);
    i :| 0 <= i < |Buckets(rows, width)| && Buckets(rows, width)[i] == b;
  }

  // ---------- pages ----------

  /** LIMIT limit + 1, then the page and whether there was more. */
  function Page(all: seq<Candle>, limit: nat): (seq<Candle>, bool) {
    var fetched := if |all| <= limit + 1 then all else all[..limit + 1];
    (if |fetched| <= limit then fetched else fetched[..limit], |fetched| > limit)
  }

  /** `list_candles` over the scanned rows; no width means raw candles. */
  function ListCandles(rows: seq<Candle>, width: Option<int>, limit: nat): (seq<Candle>, bool)
    requires Rising(Times(rows)) && (width.Some? ==> width.value > 0)
  {
    Page(if width.None? then rows else Bars(rows, width.value), limit)
  }

  /** The flag tells the truth: it is raised exactly when something is missing from the page, and the page is the start
      of the full answer, as long as the limit allows. */
  lemma TruncatedIffMore(rows: seq<Candle>, width: Option<int>, limit: nat)
    requires Rising(Times(rows)) && (width.Some? ==> width.value > 0)
    ensures
      var all := if width.None? then rows else Bars(rows, width.value);
      var (page, truncated) := ListCandles(rows, width, limit);
      && page <= all && (truncated <==> page != all) && |page| == (if |all| <= limit then |all| else limit)
      && (width.Some? && !truncated ==> Volume(page) == Volume(rows))
  {
    if width.Some? {
      VolumeIsConserved(rows, width.value);
    }
  }

  // ---------- coverage ----------

  /** `_expected_for_range` */
  function ExpectedForRange(start: int, end: int, interval: int): int
    requires interval > 0
  {
    TruncDiv(end - start + interval, interval)
  }

  lemma MultiplesDiffer(a: int, b: int, width: int)
    requires width > 0 && a < b && a % width == 0 && b % width == 0
    ensures a / width < b / width
  {
    DivMonotone(a, b, width);
    assert a == a / width * width;
    assert b == b / width * width;
  }

  lemma {:induction false} RisingMultiples(xs: seq<int>, width: int, i: nat)
    requires width > 0 && Rising(xs) && i < |xs| && forall x :: x in xs ==> x % width == 0
    ensures xs[0] / width + i <= xs[i] / width
  {
    if i == 0 {
    } else {
      RisingMultiples(xs, width, i - 1);
      assert xs[i - 1] in xs && xs[i] in xs;
      MultiplesDiffer(xs[i - 1], xs[i], width);
    }
  }

  lemma AddMultiple(a: int, k: int, width: int)
    requires width > 0
    ensures (a + k * width) / width == a / width + k
  {
    var q := (a + k * width) / width;
    var d := q - a / width - k;
    assert d * width == a % width - (a + k * width) % width;
    if d >= 1 {
      MulMonotone(1, d, width);
    } else if d <= -1 {
      MulMonotone(d, -1, width);
    }
  }

  lemma SmallQuotient(r: int, width: int)
    requires -width < r < width
    ensures r / width == if r >= 0 then 0 else -1
  {
    var q := r / width;
    assert r == q * width + r % width;
    if q >= 1 {
      MulMonotone(1, q, width);
    } else if q <= -2 {
      MulMonotone(q, -2, width);
    }
  }

  lemma QuotientOfDifference(start: int, end: int, width: int)
    requires width > 0
    ensures (end - start) / width == end / width - start / width + if start % width <= end % width then 0 else -1
  {
    var d := end / width - start / width;
    var r := end % width - start % width;
    SmallQuotient(r, width);
    AddMultiple(r, d, width);
    assert end - start == r + d * width;
  }

  /** The buckets a range touches, against what is expected of it. */
  lemma BucketSpan(start: int, end: int, width: int)
    requires width > 0 && start <= end
    ensures ExpectedForRange(start, end, width) == (end - start) / width + 1
    ensures end / width - start / width + 1 ==
      ExpectedForRange(start, end, width) + if start % width <= end % width then 0 else 1
  {
    AddMultiple(end - start, 1, width);
    QuotientOfDifference(start, end, width);
  }

  /** Rising integers within `n` places. */
  lemma {:induction false} PlacesFilled(ks: seq<int>, lo: int, n: nat)
    requires Rising(ks) && forall k :: k in ks ==> lo <= k < lo + n
    ensures |ks| <= n
    ensures |ks| == n <==> forall k :: lo <= k < lo + n ==> k in ks
  {
    if ks == [] {
      assert n > 0 ==> lo !in ks;
    } else if ks[|ks| - 1] == lo + n - 1 {
      assert ks[0] in ks;
      var front, last := ks[..|ks| - 1], ks[|ks| - 1];
      assert ks == front + [last];
      forall k | k in front
        ensures lo <= k < lo + n - 1
      {
        var i :| 0 <= i < |front| && front[i] == k;
        assert ks[i] < last;
        assert k in ks;
      }
      PlacesFilled(front, lo, n - 1);
      forall k | lo <= k < lo + n - 1
        ensures k in ks <==> k in front
      {
      }
    } else {
      assert ks[0] in ks;
      forall k | k in ks
        ensures k < lo + n - 1
      {
        var i :| 0 <= i < |ks| && ks[i] == k;
        assert ks[|ks| - 1] in ks;
      }
      PlacesFilled(ks, lo, n - 1);
      assert lo + n - 1 !in ks;
    }
  }

  /** Every row is stored under its own key, at a whole minute. */
  ghost predicate MinuteTable(t: Table) {
    forall k :: k in t ==> KeyOf(t[k]) == k && k.ts % MINUTE == 0
  }

  /** The minutes from `start` to `end` as places: minute `start` rounded up, and so on. */
  lemma MinutePlaces(start: int, end: int) returns (lo: int, n: nat)
    requires start <= end
    ensures lo == (start + MINUTE - 1) / MINUTE
    ensures n == ExpectedForRange(start, end, MINUTE) - if 0 < start % MINUTE <= end % MINUTE then 1 else 0
    ensures forall k :: lo <= k < lo + n <==> start <= k * MINUTE <= end
  {
    BucketSpan(start, end, MINUTE);
    lo := (start + MINUTE - 1) / MINUTE;
    n := end / MINUTE - lo + 1;
  }

  lemma StoredIffScanned(t: Table, symbol: string, start: int, end: int, rows: seq<Candle>, m: int)
    requires IsScan(t, symbol, start, end, rows) && MinuteTable(t) && start <= m <= end
    ensures Key(symbol, m) in t <==> exists i :: 0 <= i < |rows| && rows[i].ts == m
  {
    if Key(symbol, m) in t {
      var c := t[Key(symbol, m)];
      assert c in rows;
    }
    if i :| 0 <= i < |rows| && rows[i].ts == m {
      assert rows[i] in rows;
    }
  }

  lemma MinuteParts(t: int) returns (minute: int)
    requires t % MINUTE == 0
    ensures t == minute * MINUTE
  {
    minute := t / MINUTE;
  }

  /** The places of the scanned rows: rising, within the range, and those of the minutes the table has. */
  lemma ScanPlaces(t: Table, symbol: string, start: int, end: int, rows: seq<Candle>, lo: int, n: nat)
    returns (ks: seq<int>)
    requires IsScan(t, symbol, start, end, rows) && MinuteTable(t)
    requires forall k :: lo <= k < lo + n <==> start <= k * MINUTE <= end
    ensures |ks| == |rows| && Rising(ks) && forall k :: k in ks ==> lo <= k < lo + n
    ensures forall k :: lo <= k < lo + n ==> (Key(symbol, k * MINUTE) in t <==> k in ks)
  {
    ks := seq(|rows|, i requires 0 <= i < |rows| => rows[i].ts / MINUTE);
    forall i | 0 <= i < |rows|
      ensures rows[i].ts == ks[i] * MINUTE && lo <= ks[i] < lo + n
    {
      assert rows[i] in rows;
      assert KeyOf(rows[i]).ts % MINUTE == 0;
    }
    forall i, j | 0 <= i < j < |ks|
      ensures ks[i] < ks[j]
    {
      assert Times(rows)[i] < Times(rows)[j];
    }
    forall k | lo <= k < lo + n
      ensures Key(symbol, k * MINUTE) in t <==> k in ks
    {
      StoredIffScanned(t, symbol, start, end, rows, k * MINUTE);
      if i :| 0 <= i < |rows| && rows[i].ts == k * MINUTE {
        assert ks[i] == k;
      }
      if i :| 0 <= i < |ks| && ks[i] == k {
        assert rows[i].ts == k * MINUTE;
      }
    }
  }

  /** The coverage of a range of minutes: never more rows than expected; and nothing is missing from the table exactly
      when as many are returned as expected, less one if the range starts inside a minute and not later in it than it
      ends in its own. */
  lemma MinuteCoverage(t: Table, symbol: string, start: int, end: int, rows: seq<Candle>)
    requires IsScan(t, symbol, start, end, rows) && MinuteTable(t) && start <= end
    ensures |rows| <= ExpectedForRange(start, end, MINUTE)
    ensures (forall m :: start <= m <= end && m % MINUTE == 0 ==> Key(symbol, m) in t) <==>
      |rows| == ExpectedForRange(start, end, MINUTE) - if 0 < start % MINUTE <= end % MINUTE then 1 else 0
  {
    var lo, n := MinutePlaces(start, end);
    var ks := ScanPlaces(t, symbol, start, end, rows, lo, n);
    PlacesFilled(ks, lo, n);
    if forall m :: start <= m <= end && m % MINUTE == 0 ==> Key(symbol, m) in t {
      forall k | lo <= k < lo + n
        ensures k in ks
      {
        MultipleOf(k, MINUTE);
        assert Key(symbol, k * MINUTE) in t;
      }
    }
    if |rows| == n {
      forall m | start <= m <= end && m % MINUTE == 0
        ensures Key(symbol, m) in t
      {
        var minute := MinuteParts(m);
        assert minute in ks;
      }
    }
  }

  lemma BucketInRange(rows: seq<Candle>, start: int, end: int, width: int, b: int)
    requires width > 0 && Members(rows, width, b) != [] && forall c :: c in rows ==> start <= c.ts <= end
    ensures start / width <= b / width <= end / width
  {
    MembersAreRows(rows, width, b);
    var c := Members(rows, width, b)[0];
    assert c in Members(rows, width, b);
    DivMonotone(start, c.ts, width);
    DivMonotone(c.ts, end, width);
    AddMultiple(0, c.ts / width, width);
  }

  /** Bars of a range: at most as many as the buckets it touches. */
  lemma BarCoverage(rows: seq<Candle>, start: int, end: int, width: int)
    requires width > 0 && Rising(Times(rows)) && start <= end
    requires forall c :: c in rows ==> start <= c.ts <= end
    ensures |Bars(rows, width)| <= ExpectedForRange(start, end, width) + if start % width <= end % width then 0 else 1
  {
    BucketSpan(start, end, width);
    BucketsOfRows(rows, width);
    var bs := Buckets(rows, width);
    if bs != [] {
      RisingMultiples(bs, width, |bs| - 1);
      assert bs[0] in bs && bs[|bs| - 1] in bs;
      BucketInRange(rows, start, end, width, bs[0]);
      BucketInRange(rows, start, end, width, bs[|bs| - 1]);
    }
  }

  /** One candle in each bucket the range touches. */
  function OnePerBucket(start: int, width: int, n: nat): seq<Candle>
    requires width > 0
  {
    seq(n, i requires 0 <= i < n =>
      Candle("BTCUSDT", if i == 0 then start else Bucket(start, width) + i * width, 1.0, 1.0, 1.0, 1.0, 1.0))
  }

  lemma NthBucket(start: int, width: int, i: nat)
    requires width > 0
    ensures Bucket(Bucket(start, width) + i * width, width) == Bucket(start, width) + i * width
    ensures i > 0 ==> Bucket(start, width) + i * width != Bucket(start, width) + (i - 1) * width
  {
    AddMultiple(0, start / width + i, width);
    assert (start / width + i) * width == start / width * width + i * width;
    assert (i - 1) * width == i * width - width;
  }

  lemma {:induction false} OnePerBucketBuckets(start: int, width: int, n: nat)
    requires width > 0 && Rising(Times(OnePerBucket(start, width, n)))
    ensures |Buckets(OnePerBucket(start, width, n), width)| == n
    ensures n > 0 ==>
      Buckets(OnePerBucket(start, width, n), width)[n - 1] == Bucket(start, width) + (n - 1) * width
  {
    if n == 0 {
    } else {
      var rows := OnePerBucket(start, width, n);
      assert rows[..n - 1] == OnePerBucket(start, width, n - 1);
      FrontRises(rows, n - 1);
      OnePerBucketBuckets(start, width, n - 1);
      NthBucket(start, width, n - 1);
    }
  }

  lemma OnePerBucketInRange(start: int, end: int, width: int)
    requires width > 0 && start <= end
    ensures
      var rows := OnePerBucket(start, width, end / width - start / width + 1);
      Rising(Times(rows)) && forall c :: c in rows ==> start <= c.ts <= end
  {
    DivMonotone(start, end, width);
    var n := end / width - start / width + 1;
    var rows := OnePerBucket(start, width, n);
    BucketMonotone(start, start, width);
    forall i, j | 0 <= i < j < n
      ensures Times(rows)[i] < Times(rows)[j]
    {
      MulMonotone(i + 1, j, width);
      assert (i + 1) * width == i * width + width;
    }
    forall i | 0 <= i < n
      ensures start <= rows[i].ts <= end
    {
      if i > 0 {
        MulMonotone(1, i, width);
        MulMonotone(start / width + i, end / width, width);
        assert (start / width + i) * width == start / width * width + i * width;
      }
    }
  }

  /** The scanned rows of a range, in order; every candle starts a minute. */
  ghost predicate MinuteRows(rows: seq<Candle>, start: int, end: int) {
    Rising(Times(rows)) && forall c :: c in rows ==> start <= c.ts <= end && c.ts % MINUTE == 0
  }

  /** What an hourly request reports as returned: the bars on the page. */
  function HourlyReturned(rows: seq<Candle>, limit: nat): nat
    requires Rising(Times(rows))
  {
    |ListCandles(rows, Some(HOUR), limit).0|
  }

  lemma HourlyReturnedIs(rows: seq<Candle>, limit: nat)
    requires Rising(Times(rows))
    ensures HourlyReturned(rows, limit) == if |Bars(rows, HOUR)| <= limit then |Bars(rows, HOUR)| else limit
  {
  }

  lemma HourParts(t: int) returns (hour: int, rest: int)
    ensures hour == t / HOUR && rest == t % HOUR && t == hour * HOUR + rest && 0 <= rest < HOUR
  {
    hour, rest := t / HOUR, t % HOUR;
  }

  lemma WithinHour(t: int, hour: int)
    requires hour * HOUR <= t < hour * HOUR + HOUR
    ensures t / HOUR == hour
  {
  }

  /** No whole minute lies inside the last minute of an hour. */
  lemma AfterLastMinute(start: int, hour: int, rest: int, ts: int)
    requires start == hour * HOUR + rest && HOUR - MINUTE < rest && start <= ts && ts % MINUTE == 0
    ensures hour * HOUR + HOUR <= ts
  {
    var minute := MinuteParts(ts);
    assert minute > hour * 60 + 59;
  }

  /** A range that starts inside the last minute of an hour has no row in that hour. */
  lemma LastMinuteOfHour(rows: seq<Candle>, start: int, end: int)
    requires MinuteRows(rows, start, end) && start <= end && start % HOUR > HOUR - MINUTE
    ensures |Bars(rows, HOUR)| <= ExpectedForRange(start, end, HOUR)
  {
    BucketSpan(start, end, HOUR);
    DivMonotone(0, end - start, HOUR);
    if rows == [] {
      assert Buckets(rows, HOUR) == [];
    } else {
      var hour, rest := HourParts(start);
      var next := hour * HOUR + HOUR;
      forall c | c in rows
        ensures next <= c.ts
      {
        AfterLastMinute(start, hour, rest, c.ts);
      }
      assert rows[0] in rows;
      FullHourOn(rows, start, next, hour + 1, end);
    }
  }

  lemma FullHourOn(rows: seq<Candle>, start: int, next: int, hour: int, end: int)
    requires Rising(Times(rows)) && start <= next <= end && next == hour * HOUR
    requires forall c :: c in rows ==> next <= c.ts <= end
    ensures |Bars(rows, HOUR)| <= ExpectedForRange(start, end, HOUR)
  {
    MultipleOf(hour, HOUR);
    BarCoverage(rows, next, end, HOUR);
    BucketSpan(next, end, HOUR);
    BucketSpan(start, end, HOUR);
    DivMonotone(end - next, end - start, HOUR);
  }

  /** The first whole minute of a range that starts no later than the last minute of its hour. */
  lemma FirstMinute(start: int) returns (first: int)
    requires start % HOUR <= HOUR - MINUTE
    ensures start <= first && first % MINUTE == 0 && first / HOUR == start / HOUR
  {
    var minute := (start + MINUTE - 1) / MINUTE;
    first := minute * MINUTE;
    var hour, rest := HourParts(start);
    assert start <= first < start + MINUTE;
    WithinHour(first, hour);
    MultipleOf(minute, MINUTE);
  }

  lemma OnePerHourIsMinutes(first: int, n: nat)
    requires first % MINUTE == 0
    ensures forall c :: c in OnePerBucket(first, HOUR, n) ==> c.ts % MINUTE == 0
  {
    forall i | 0 <= i < n
      ensures OnePerBucket(first, HOUR, n)[i].ts % MINUTE == 0
    {
      if i > 0 {
        HoursAreMinutes(first / HOUR + i);
        assert Bucket(first, HOUR) + i * HOUR == (first / HOUR + i) * HOUR;
      }
    }
  }

  lemma HoursAreMinutes(k: int)
    ensures k * HOUR % MINUTE == 0
  {
    MultipleOf(k * 60, MINUTE);
  }

  /** A range that starts later in its hour than it ends in its own ends in a later hour. */
  lemma EndsInLaterHour(start: int, end: int)
    requires start <= end && end % HOUR < start % HOUR
    ensures start / HOUR < end / HOUR
  {
    var a, r := HourParts(start);
    var b, q := HourParts(end);
  }

  lemma EarlierHour(a: int, b: int)
    requires a / HOUR < b / HOUR
    ensures a < b
  {
  }

  /** A table with a candle in every hour the range touches returns one bar more than expected. */
  lemma OneBarMore(start: int, end: int, limit: nat) returns (rows: seq<Candle>)
    requires start <= end && end % HOUR < start % HOUR <= HOUR - MINUTE && ExpectedForRange(start, end, HOUR) < limit
    ensures MinuteRows(rows, start, end) && HourlyReturned(rows, limit) == ExpectedForRange(start, end, HOUR) + 1
  {
    BucketSpan(start, end, HOUR);
    EndsInLaterHour(start, end);
    var first := FirstMinute(start);
    EarlierHour(first, end);
    rows := OneInEachHour(first, start, end);
    HourlyReturnedIs(rows, limit);
  }

  lemma OneInEachHour(first: int, start: int, end: int) returns (rows: seq<Candle>)
    requires start <= first <= end && first % MINUTE == 0
    ensures MinuteRows(rows, start, end) && |Bars(rows, HOUR)| == end / HOUR - first / HOUR + 1
  {
    DivMonotone(first, end, HOUR);
    var n := end / HOUR - first / HOUR + 1;
    rows := OnePerBucket(first, HOUR, n);
    OnePerBucketInRange(first, end, HOUR);
    OnePerBucketBuckets(first, HOUR, n);
    OnePerHourIsMinutes(first, n);
  }

  /** Hourly coverage is not bounded by what is expected. It is, for every table of whole minutes, exactly when the
      range does not start later in its hour than it ends in its own, or starts inside the last minute of an hour, or
      the limit keeps the page that short; otherwise some table returns one bar more. */
  lemma HourlyCoverageIff(start: int, end: int, limit: nat)
    requires start <= end
    ensures
      (forall rows: seq<Candle> | MinuteRows(rows, start, end) ::
         HourlyReturned(rows, limit) <= ExpectedForRange(start, end, HOUR))
      <==> (start % HOUR <= end % HOUR || start % HOUR > HOUR - MINUTE || limit <= ExpectedForRange(start, end, HOUR))
  {
    if start % HOUR <= end % HOUR || start % HOUR > HOUR - MINUTE || limit <= ExpectedForRange(start, end, HOUR) {
      forall rows: seq<Candle> | MinuteRows(rows, start, end)
        ensures HourlyReturned(rows, limit) <= ExpectedForRange(start, end, HOUR)
      {
        HourlyReturnedIs(rows, limit);
        if start % HOUR <= end % HOUR {
          BarCoverage(rows, start, end, HOUR);
        } else if start % HOUR > HOUR - MINUTE {
          LastMinuteOfHour(rows, start, end);
        }
      }
    } else {
      var rows := OneBarMore(start, end, limit);
      assert MinuteRows(rows, start, end);
    }
  }
}
