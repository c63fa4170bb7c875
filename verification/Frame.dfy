/** `prepare_candles`: what a list of candles must satisfy before it can be backtested. */
module Frame {
  import opened Market

  datatype FrameError =
    | NoCandles | BadInterval
    | MixedSymbols(ts: int) | Incoherent(ts: int) | NegativeVolume(ts: int) | NonPositivePrice(ts: int)
    | Duplicates | NotIncreasing | Gaps(count: nat)

  datatype FrameInfo = FrameInfo(
    symbol: string, interval: int, startTs: int, endTs: int, candleCount: nat, gapCount: nat)

  /** The frame's index and close column, the opens by timestamp, and the last close. */
  datatype Prepared = Prepared(
    index: seq<int>, closes: seq<real>, prices: map<int, real>, finalClose: real, info: FrameInfo)

  function MaxOf(a: real, b: real): real {
    if a >= b then a else b
  }

  function MinOf(a: real, b: real): real {
    if a <= b then a else b
  }

  /** The first complaint of the validation loop about one candle. */
  function Fault(c: Candle, symbol: string): Option<FrameError> {
    if c.symbol != symbol then Some(MixedSymbols(c.ts))
    else if c.high < MaxOf(MaxOf(c.open, c.close), c.low) || c.low > MinOf(MinOf(c.open, c.close), c.high) then
      Some(Incoherent(c.ts))
    else if c.volume < 0.0 then Some(NegativeVolume(c.ts))
    else if MinOf(MinOf(c.open, c.high), MinOf(c.low, c.close)) <= 0.0 then Some(NonPositivePrice(c.ts))
    else None
  }

  function FirstFault(candles: seq<Candle>, symbol: string): Option<FrameError> {
    if candles == [] then None
    else if Fault(candles[0], symbol).Some? then Fault(candles[0], symbol)
    else FirstFault(candles[1..], symbol)
  }

  predicate HasDuplicates(index: seq<int>) {
    exists i, j :: 0 <= i < j < |index| && index[i] == index[j]
  }

  predicate NeverFalls(index: seq<int>) {
    forall i, j :: 0 <= i < j < |index| ==> index[i] <= index[j]
  }

  /** Bar `i` does not follow the one before it by one interval. */
  predicate GapAt(index: seq<int>, interval: int, i: int)
    requires 1 <= i < |index|
  {
    index[i] - index[i - 1] != interval
  }

  function CountGaps(index: seq<int>, interval: int): nat {
    if |index| < 2 then 0
    else CountGaps(index[..|index| - 1], interval) + if GapAt(index, interval, |index| - 1) then 1 else 0
  }

  /** `dict(zip(index, opens))`: a later entry would replace an earlier one with the same key. */
  function PriceMap(candles: seq<Candle>): map<int, real> {
    if candles == [] then map[]
    else PriceMap(candles[..|candles| - 1])[candles[|candles| - 1].ts := candles[|candles| - 1].open]
  }

  function Closes(candles: seq<Candle>): seq<real> {
    seq(|candles|, i requires 0 <= i < |candles| => candles[i].close)
  }

  function Prepare(candles: seq<Candle>, interval: int, allowGaps: bool): Result<Prepared, FrameError> {
    if candles == [] then Err(NoCandles)
    else if interval <= 0 then Err(BadInterval)
    else if FirstFault(candles, candles[0].symbol).Some? then Err(FirstFault(candles, candles[0].symbol).value)
    else
      var index := Times(candles);
      if HasDuplicates(index) then Err(Duplicates)
      else if !NeverFalls(index) then Err(NotIncreasing)
      else
        var gaps := CountGaps(index, interval);
        if gaps != 0 && !allowGaps then Err(Gaps(gaps))
        else
          Ok(Prepared(index, Closes(candles), PriceMap(candles), candles[|candles| - 1].close,
            FrameInfo(candles[0].symbol, interval, index[0], index[|index| - 1], |candles|, gaps)))
  }

  method PrepareCandles(candles: seq<Candle>, interval: int, allowGaps: bool) returns (r: Result<Prepared, FrameError>)
    ensures r == Prepare(candles, interval, allowGaps)
  {
    if candles == [] {
      return Err(NoCandles);
    }
    if interval <= 0 {
      return Err(BadInterval);
    }
    var symbol := candles[0].symbol;
    assert candles[0..] == candles;
    for i := 0 to |candles|
      invariant FirstFault(candles[i..], symbol) == FirstFault(candles, symbol)
    {
      assert candles[i..][1..] == candles[i + 1..];
      var c := candles[i];
      if c.symbol != symbol {
        return Err(MixedSymbols(c.ts));
      }
      if c.high < MaxOf(MaxOf(c.open, c.close), c.low) || c.low > MinOf(MinOf(c.open, c.close), c.high) {
        return Err(Incoherent(c.ts));
      }
      if c.volume < 0.0 {
        return Err(NegativeVolume(c.ts));
      }
      if MinOf(MinOf(c.open, c.high), MinOf(c.low, c.close)) <= 0.0 {
        return Err(NonPositivePrice(c.ts));
      }
    }
    var index := Times(candles);
    if HasDuplicates(index) {
      return Err(Duplicates);
    }
    if !NeverFalls(index) {
      return Err(NotIncreasing);
    }
    var gapCount := CountGaps(index, interval);
    if gapCount != 0 && !allowGaps {
      return Err(Gaps(gapCount));
    }
    var prices: map<int, real> := map[];
    for i := 0 to |candles|
      invariant prices == PriceMap(candles[..i])
    {
      assert candles[..i + 1][..i] == candles[..i];
      prices := prices[index[i] := candles[i].open];
    }
    assert candles[..|candles|] == candles;
    return Ok(Prepared(index, Closes(candles), prices, candles[|candles| - 1].close,
      FrameInfo(symbol, interval, index[0], index[|index| - 1], |candles|, gapCount)));
  }

  // ---------- what acceptance means ----------

  /** A candle whose range contains its open and close, with positive prices and no negative volume. */
  predicate Sound(c: Candle) {
    && 0.0 < c.low <= c.open <= c.high && c.low <= c.close <= c.high && 0.0 <= c.volume
  }

  lemma {:induction false} NoFaultIff(candles: seq<Candle>, symbol: string)
    ensures FirstFault(candles, symbol).None? <==> forall c :: c in candles ==> c.symbol == symbol && Sound(c)
  {
    if candles == [] {
    } else {
      NoFaultIff(candles[1..], symbol);
      assert candles == [candles[0]] + candles[1..];
    }
  }

  /** One candle per interval. */
  ghost predicate Regular(index: seq<int>, interval: int) {
    forall i :: 0 <= i < |index| ==> index[i] == index[0] + i * interval
  }

  ghost predicate Rising(index: seq<int>) {
    forall i, j :: 0 <= i < j < |index| ==> index[i] < index[j]
  }

  lemma {:induction false} NoGapsIsRegular(index: seq<int>, interval: int)
    requires CountGaps(index, interval) == 0
    ensures Regular(index, interval)
  {
    if |index| < 2 {
    } else {
      var n := |index| - 1;
      NoGapsIsRegular(index[..n], interval);
      assert index[..n][n - 1] == index[0] + (n - 1) * interval;
      assert n * interval == (n - 1) * interval + interval;
      forall i | 0 <= i < n
        ensures index[i] == index[0] + i * interval
      {
        assert index[..n][i] == index[i];
      }
    }
  }

  lemma {:induction false} RegularHasNoGaps(index: seq<int>, interval: int)
    requires Regular(index, interval)
    ensures CountGaps(index, interval) == 0
  {
    if |index| < 2 {
    } else {
      var n := |index| - 1;
      RegularHasNoGaps(index[..n], interval);
      assert index[n] == index[0] + n * interval && index[n - 1] == index[0] + (n - 1) * interval;
      assert n * interval == (n - 1) * interval + interval;
    }
  }

  /** Exactly these lists are accepted: one symbol, sound candles, strictly increasing timestamps, and, unless gaps are
      allowed, one candle per interval. */
  lemma AcceptedIff(candles: seq<Candle>, interval: int, allowGaps: bool)
    ensures Prepare(candles, interval, allowGaps).Ok? <==>
      && candles != [] && interval > 0
      && (forall c :: c in candles ==> c.symbol == candles[0].symbol && Sound(c))
      && Rising(Times(candles)) && (allowGaps || Regular(Times(candles), interval))
  {
    if candles != [] {
      NoFaultIff(candles, candles[0].symbol);
      var index := Times(candles);
      if CountGaps(index, interval) == 0 {
        NoGapsIsRegular(index, interval);
      } else if Regular(index, interval) {
        RegularHasNoGaps(index, interval);
      }
      if Rising(index) {
        assert !HasDuplicates(index) && NeverFalls(index);
      } else {
        var i, j :| 0 <= i < j < |index| && index[i] >= index[j];
        assert index[i] == index[j] || !NeverFalls(index);
      }
    }
  }

  /** What every user of the frame relies on. */
  ghost predicate Usable(p: Prepared) {
    && |p.index| > 0 && |p.closes| == |p.index| && p.finalClose == p.closes[|p.closes| - 1]
    && Rising(p.index)
    && (forall i :: 0 <= i < |p.index| ==> p.index[i] in p.prices && p.prices[p.index[i]] > 0.0 && p.closes[i] > 0.0)
  }

  lemma {:induction false} PriceMapAt(candles: seq<Candle>, i: nat)
    requires i < |candles| && forall a, b :: 0 <= a < b < |candles| ==> candles[a].ts < candles[b].ts
    ensures candles[i].ts in PriceMap(candles) && PriceMap(candles)[candles[i].ts] == candles[i].open
  {
    if i == |candles| - 1 {
    } else {
      PriceMapAt(candles[..|candles| - 1], i);
    }
  }

  /** An accepted frame holds, bar by bar, the candles' timestamps, opens and closes, and is usable. */
  lemma AcceptedIsUsable(candles: seq<Candle>, interval: int, allowGaps: bool)
    requires Prepare(candles, interval, allowGaps).Ok?
    ensures
      var p := Prepare(candles, interval, allowGaps).value;
      && Usable(p) && |p.index| == |candles|
      && (forall i :: 0 <= i < |candles| ==>
            p.index[i] == candles[i].ts && p.closes[i] == candles[i].close && p.prices[p.index[i]] == candles[i].open)
  {
    AcceptedIff(candles, interval, allowGaps);
    forall a, b | 0 <= a < b < |candles|
      ensures candles[a].ts < candles[b].ts
    {
      assert Times(candles)[a] < Times(candles)[b];
    }
    forall i | 0 <= i < |candles|
      ensures candles[i].ts in PriceMap(candles) && PriceMap(candles)[candles[i].ts] == candles[i].open
      ensures Sound(candles[i])
    {
      assert candles[i] in candles;
      PriceMapAt(candles, i);
    }
  }

  /** The error names the first candle that is at fault. */
  lemma {:induction false} FaultIsFirst(candles: seq<Candle>, symbol: string) returns (i: nat)
    requires FirstFault(candles, symbol).Some?
    ensures i < |candles| && Fault(candles[i], symbol) == FirstFault(candles, symbol)
    ensures forall j :: 0 <= j < i ==> Fault(candles[j], symbol).None?
  {
    if Fault(candles[0], symbol).Some? {
      i := 0;
    } else {
      i := FaultIsFirst(candles[1..], symbol);
      i := i + 1;
    }
  }

  /** The reported count is the number of bars that do not follow the one before them by one interval. */
  lemma {:induction false} GapsAreCounted(index: seq<int>, interval: int)
    ensures CountGaps(index, interval) == |set i | 1 <= i < |index| && GapAt(index, interval, i)|
  {
    var all := set i | 1 <= i < |index| && GapAt(index, interval, i);
    if |index| < 2 {
      assert all == {};
    } else {
      var n := |index| - 1;
      GapsAreCounted(index[..n], interval);
      var front := set i | 1 <= i < |index[..n]| && GapAt(index[..n], interval, i);
      assert forall i :: 1 <= i < n ==> GapAt(index[..n], interval, i) == GapAt(index, interval, i);
      assert n !in front;
      assert all == front + if GapAt(index, interval, n) then {n} else {};
    }
  }

  /** What a frame says about itself. */
  lemma InfoIsOfCandles(candles: seq<Candle>, interval: int, allowGaps: bool)
    requires Prepare(candles, interval, allowGaps).Ok?
    ensures candles != []
    ensures
      var info := Prepare(candles, interval, allowGaps).value.info;
      && info.symbol == candles[0].symbol && info.interval == interval
      && info.startTs == candles[0].ts && info.endTs == candles[|candles| - 1].ts && info.candleCount == |candles|
      && info.gapCount == |set i | 1 <= i < |Times(candles)| && GapAt(Times(candles), interval, i)|
  {
    GapsAreCounted(Times(candles), interval);
  }

  /** The first complaint about a candle: another symbol, a range without its open or close, a negative volume, a price
      that is not positive. */
  predicate FaultOf(c: Candle, symbol: string, e: FrameError) {
    if c.symbol != symbol then e == MixedSymbols(c.ts)
    else if !(c.low <= c.open <= c.high && c.low <= c.close <= c.high) then e == Incoherent(c.ts)
    else if c.volume < 0.0 then e == NegativeVolume(c.ts)
    else c.low <= 0.0 && e == NonPositivePrice(c.ts)
  }

  /** Candle `i` is the first that is of another symbol or not sound. */
  ghost predicate FirstAtFault(candles: seq<Candle>, i: nat, e: FrameError) {
    && i < |candles| && FaultOf(candles[i], candles[0].symbol, e)
    && forall j :: 0 <= j < i ==> candles[j].symbol == candles[0].symbol && Sound(candles[j])
  }

  ghost predicate Faultless(candles: seq<Candle>) {
    forall c :: c in candles ==> c.symbol == candles[0].symbol && Sound(c)
  }

  ghost predicate HasTwice(index: seq<int>) {
    exists i, j :: 0 <= i < j < |index| && index[i] == index[j]
  }

  /** What a list that is not accepted raises: an empty list and a bad interval first, then the first candle at fault,
      then a timestamp that occurs twice, then one out of order, then the number of steps that are not one interval. */
  lemma ErrorIs(candles: seq<Candle>, interval: int, allowGaps: bool)
    requires Prepare(candles, interval, allowGaps).Err?
    ensures
      var e := Prepare(candles, interval, allowGaps).error;
      if candles == [] then e == NoCandles
      else if interval <= 0 then e == BadInterval
      else if !Faultless(candles) then exists i :: FirstAtFault(candles, i, e)
      else if HasTwice(Times(candles)) then e == Duplicates
      else if !Rising(Times(candles)) then e == NotIncreasing
      else
        !allowGaps && e == Gaps(|set i | 1 <= i < |Times(candles)| && GapAt(Times(candles), interval, i)|)
  {
    if candles != [] && interval > 0 {
      NoFaultIff(candles, candles[0].symbol);
      if Faultless(candles) {
        ErrorOfIndex(candles, interval, allowGaps);
      } else {
        var i := FaultIsFirst(candles, candles[0].symbol);
        assert FirstAtFault(candles, i, Prepare(candles, interval, allowGaps).error);
      }
    }
  }

  lemma ErrorOfIndex(candles: seq<Candle>, interval: int, allowGaps: bool)
    requires Prepare(candles, interval, allowGaps).Err? && candles != [] && interval > 0
    requires FirstFault(candles, candles[0].symbol).None?
    ensures
      var e, index := Prepare(candles, interval, allowGaps).error, Times(candles);
      if HasTwice(index) then e == Duplicates
      else if !Rising(index) then e == NotIncreasing
      else !allowGaps && e == Gaps(|set i | 1 <= i < |index| && GapAt(index, interval, i)|)
  {
    var index := Times(candles);
    GapsAreCounted(index, interval);
    assert HasDuplicates(index) <==> HasTwice(index);
    if !HasTwice(index) {
      if Rising(index) {
        assert NeverFalls(index);
      } else {
        var i, j :| 0 <= i < j < |index| && index[i] >= index[j];
        assert index[i] != index[j];
        assert !NeverFalls(index);
      }
    }
  }
}
