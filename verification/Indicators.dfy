/** Moving averages and the relative strength index, over exact reals; NaN is `None`. */
module Indicators {
  import opened Arithmetic
  import opened Market

  type Series = seq<Option<real>>

  datatype IndicatorError = BadWindow | TooShort

  function Sum(xs: seq<real>): real {
    if xs == [] then 0.0 else Sum(xs[..|xs| - 1]) + xs[|xs| - 1]
  }

  function Mean(xs: seq<real>): real
    requires xs != []
  {
    Sum(xs) / |xs| as real
  }

  /** `values.rolling(window, min_periods=window).mean()` */
  function Sma(values: seq<real>, window: int): Result<Series, IndicatorError> {
    if window < 1 then Err(BadWindow)
    else Ok(seq(|values|, i requires 0 <= i < |values| =>
      if i + 1 < window then None else Some(Mean(values[i + 1 - window..i + 1]))))
  }

  lemma {:induction false} SumFront(xs: seq<real>)
    requires xs != []
    ensures Sum(xs) == xs[0] + Sum(xs[1..])
  {
    if |xs| == 1 {
    } else {
      SumFront(xs[..|xs| - 1]);
      assert xs[..|xs| - 1][1..] == xs[1..][..|xs| - 2];
    }
  }

  /** A window's sum moves by the value that enters and the value that leaves. */
  lemma SmaRolls(values: seq<real>, window: int, i: int)
    requires 1 <= window <= i < |values|
    ensures
      var s := Sma(values, window).value;
      s[i - 1].Some? && s[i].Some?
      && s[i].value * window as real == s[i - 1].value * window as real + values[i] - values[i - window]
  {
    var before, now := values[i - window..i], values[i + 1 - window..i + 1];
    SumFront(before);
    assert now[..window - 1] == before[1..];
    TimesQuotient(Sum(now), window as real);
    TimesQuotient(Sum(before), window as real);
  }

  lemma TimesQuotient(x: real, y: real)
    requires y != 0.0
    ensures x / y * y == x
  {
  }

  lemma {:induction false} SumWithin(xs: seq<real>, lo: real, hi: real)
    requires forall i :: 0 <= i < |xs| ==> lo <= xs[i] <= hi
    ensures lo * |xs| as real <= Sum(xs) <= hi * |xs| as real
  {
    if xs == [] {
    } else {
      var n := (|xs| - 1) as real;
      SumWithin(xs[..|xs| - 1], lo, hi);
      assert lo * (n + 1.0) == lo * n + lo;
      assert hi * (n + 1.0) == hi * n + hi;
    }
  }

  /** An average lies within any bounds of its window; so that of a constant is the constant. */
  lemma SmaWithin(values: seq<real>, window: int, i: int, lo: real, hi: real)
    requires 1 <= window <= i + 1 <= |values| && forall k :: i + 1 - window <= k <= i ==> lo <= values[k] <= hi
    ensures var s := Sma(values, window).value; s[i].Some? && lo <= s[i].value <= hi
  {
    var xs := values[i + 1 - window..i + 1];
    SumWithin(xs, lo, hi);
    QuotientWithin(Sum(xs), |xs| as real, lo, hi);
  }

  lemma QuotientWithin(x: real, n: real, lo: real, hi: real)
    requires n > 0.0 && lo * n <= x <= hi * n
    ensures lo <= x / n <= hi
  {
    var m := x / n;
    assert m * n == x;
    CancelLess(m, lo, n);
    CancelLess(hi, m, n);
  }

  // ---------- RSI ----------

  /** `diff`, `clip`: the rise into position `i` (there is none into position 0). */
  function Gain(values: seq<real>, i: int): real
    requires 0 < i < |values|
  {
    if values[i] > values[i - 1] then values[i] - values[i - 1] else 0.0
  }

  function Loss(values: seq<real>, i: int): real
    requires 0 < i < |values|
  {
    if values[i] < values[i - 1] then values[i - 1] - values[i] else 0.0
  }

  function Gains(values: seq<real>): seq<real> {
    seq(|values|, i requires 0 <= i < |values| => if i == 0 then 0.0 else Gain(values, i))
  }

  function Losses(values: seq<real>): seq<real> {
    seq(|values|, i requires 0 <= i < |values| => if i == 0 then 0.0 else Loss(values, i))
  }

  /** One step of `ewm(alpha=1 / window, adjust=False).mean()`. */
  function Smooth(average: real, x: real, window: int): real
    requires window >= 1
  {
    (1.0 - 1.0 / window as real) * average + 1.0 / window as real * x
  }

  /** The Wilder average at `i`: a plain mean of the first `window` changes, smoothed from there on. Position 0, where
      there is no change, never enters. */
  function WilderAt(series: seq<real>, window: int, i: int): real
    requires 1 <= window <= i < |series|
    decreases i
  {
    if i == window then Mean(series[1..window + 1])
    else Smooth(WilderAt(series, window, i - 1), series[i], window)
  }

  method Wilder(series: seq<real>, window: int) returns (smoothed: Series)
    requires 1 <= window < |series|
    ensures |smoothed| == |series|
    ensures forall i :: 0 <= i < |series| ==>
      smoothed[i] == if i < window then None else Some(WilderAt(series, window, i))
  {
    var seed := Mean(series[1..window + 1]);
    var tail := new real[|series| - window](j requires 0 <= j < |series| - window => series[window + j]);
    tail[0] := seed;
    for j := 1 to tail.Length
      invariant forall k :: 0 <= k < j ==> tail[k] == WilderAt(series, window, window + k)
      invariant forall k :: j <= k < tail.Length ==> tail[k] == series[window + k]
    {
      tail[j] := Smooth(tail[j - 1], tail[j], window);
    }
    var values := tail[..];
    smoothed := seq(|series|, i requires 0 <= i < |series| => if i < window then None else Some(values[i - window]));
  }

  function RsiOf(avgGain: real, avgLoss: real): real
    requires avgGain >= 0.0 && avgLoss >= 0.0
  {
    if avgLoss == 0.0 then (if avgGain == 0.0 then 50.0 else 100.0)
    else 100.0 - 100.0 / (1.0 + avgGain / avgLoss)
  }

  /** The RSI series: undefined before `window`. */
  function Rsi(values: seq<real>, window: int): Result<Series, IndicatorError> {
    if window < 1 then Err(BadWindow)
    else if |values| <= window then Err(TooShort)
    else
      AveragesNonNegative(values, window);
      Ok(seq(|values|, i requires 0 <= i < |values| =>
        if i < window then None
        else Some(RsiOf(WilderAt(Gains(values), window, i), WilderAt(Losses(values), window, i)))))
  }

  /** `rsi`: the formula first, then the masked entries are overwritten. */
  method ComputeRsi(values: seq<real>, window: int) returns (r: Result<Series, IndicatorError>)
    ensures r == Rsi(values, window)
  {
    if window < 1 {
      return Err(BadWindow);
    }
    if |values| <= window {
      return Err(TooShort);
    }
    var avgGain := Wilder(Gains(values), window);
    var avgLoss := Wilder(Losses(values), window);
    AveragesNonNegative(values, window);
    var rsi := new Option<real>[|values|](_ => None);
    for i := window to |values|
      invariant forall k :: 0 <= k < window ==> rsi[k] == None
      invariant forall k :: window <= k < i && avgLoss[k].value != 0.0 ==>
        rsi[k] == Some(RsiOf(avgGain[k].value, avgLoss[k].value))
    {
      if avgLoss[i].value != 0.0 {
        rsi[i] := Some(100.0 - 100.0 / (1.0 + avgGain[i].value / avgLoss[i].value));
      }
    }
    for i := window to |values|
      invariant forall k :: 0 <= k < window ==> rsi[k] == None
      invariant forall k :: window <= k < |values| && (k < i || avgLoss[k].value != 0.0) ==>
        rsi[k] == Some(RsiOf(avgGain[k].value, avgLoss[k].value))
    {
      var flat := avgGain[i].value == 0.0 && avgLoss[i].value == 0.0;
      if avgLoss[i].value == 0.0 && !flat {
        rsi[i] := Some(100.0);
      }
      if flat {
        rsi[i] := Some(50.0);
      }
    }
    r := Ok(rsi[..]);
    assert r.value == Rsi(values, window).value;
  }

  lemma {:induction false} SumNonNegative(xs: seq<real>)
    requires forall i :: 0 <= i < |xs| ==> xs[i] >= 0.0
    ensures Sum(xs) >= 0.0
  {
    if xs == [] {
    } else {
      SumNonNegative(xs[..|xs| - 1]);
    }
  }

  lemma MulNonNegative(a: real, b: real)
    requires a >= 0.0 && b >= 0.0
    ensures a * b >= 0.0
  {
  }

  lemma {:induction false} WilderNonNegative(series: seq<real>, window: int, i: int)
    requires 1 <= window <= i < |series| && forall k :: 0 <= k < |series| ==> series[k] >= 0.0
    ensures WilderAt(series, window, i) >= 0.0
    decreases i
  {
    var alpha := 1.0 / window as real;
    assert 0.0 <= alpha <= 1.0;
    if i == window {
      SumNonNegative(series[1..window + 1]);
    } else {
      WilderNonNegative(series, window, i - 1);
      MulNonNegative(1.0 - alpha, WilderAt(series, window, i - 1));
      MulNonNegative(alpha, series[i]);
    }
  }

  lemma AveragesNonNegative(values: seq<real>, window: int)
    requires 1 <= window
    ensures forall i :: window <= i < |values| ==>
      WilderAt(Gains(values), window, i) >= 0.0 && WilderAt(Losses(values), window, i) >= 0.0
  {
    forall i | window <= i < |values|
      ensures WilderAt(Gains(values), window, i) >= 0.0 && WilderAt(Losses(values), window, i) >= 0.0
    {
      WilderNonNegative(Gains(values), window, i);
      WilderNonNegative(Losses(values), window, i);
    }
  }

  lemma RatioForm(g: real, l: real)
    requires g >= 0.0 && l > 0.0
    ensures g / l >= 0.0 && 100.0 - 100.0 / (1.0 + g / l) == 100.0 * g / (g + l)
  {
    var q := g / l;
    var r := 100.0 / (1.0 + q);
    calc {
      r * (g + l);
    ==  { assert q * l == g; assert (1.0 + q) * l == g + l; }
      r * ((1.0 + q) * l);
    ==  { assert r * (1.0 + q) == 100.0; assert r * ((1.0 + q) * l) == (r * (1.0 + q)) * l; }
      100.0 * l;
    }
    var share := 100.0 * g / (g + l);
    assert share * (g + l) == 100.0 * g;
    assert (100.0 - r) * (g + l) == 100.0 * (g + l) - r * (g + l);
    Cancel(100.0 - r, share, g + l);
  }

  /** RSI is a share of gains, with 50 for a flat window; swapping gains and losses mirrors it. */
  lemma RsiOfBounds(g: real, l: real)
    requires g >= 0.0 && l >= 0.0
    ensures 0.0 <= RsiOf(g, l) <= 100.0 && RsiOf(l, g) == 100.0 - RsiOf(g, l)
    ensures RsiOf(g, l) * (g + l) == 100.0 * g && (g + l == 0.0 ==> RsiOf(g, l) == 50.0)
  {
    if l > 0.0 {
      RatioForm(g, l);
      ShareBounds(g, l);
      assert 100.0 * g / (g + l) * (g + l) == 100.0 * g;
    }
    if g > 0.0 {
      RatioForm(l, g);
    }
  }

  lemma ShareBounds(g: real, l: real)
    requires g >= 0.0 && l > 0.0
    ensures 0.0 <= 100.0 * g / (g + l) <= 100.0
    ensures 100.0 * g / (g + l) + 100.0 * l / (g + l) == 100.0
  {
    var s := g / (g + l);
    assert s * (g + l) == g;
    assert 0.0 <= s <= 1.0;
    assert 100.0 * g / (g + l) == 100.0 * s;
  }

  /** Wilder's recurrence, free of division: the new average weighs the old one `window - 1` times. */
  lemma WilderRecurrence(series: seq<real>, window: int, i: int)
    requires 1 <= window < i < |series|
    ensures WilderAt(series, window, i) * window as real ==
      WilderAt(series, window, i - 1) * (window as real - 1.0) + series[i]
  {
    var w, a := window as real, WilderAt(series, window, i - 1);
    var alpha := 1.0 / w;
    assert alpha * w == 1.0;
    assert ((1.0 - alpha) * a + alpha * series[i]) * w == a * w - alpha * w * a + alpha * w * series[i];
  }

  function Negated(values: seq<real>): seq<real> {
    seq(|values|, i requires 0 <= i < |values| => -values[i])
  }

  /** RSI is defined from index `window` on, lies in [0, 100] there, and mirrors around 50 when the series is
      negated. */
  lemma RsiRangeAndSymmetry(values: seq<real>, window: int)
    requires 1 <= window < |values|
    ensures
      var r := Rsi(values, window);
      var n := Rsi(Negated(values), window);
      && r.Ok? && n.Ok?
      && forall i :: 0 <= i < |values| ==>
           if i < window then r.value[i] == None
           else r.value[i].Some? && 0.0 <= r.value[i].value <= 100.0 && n.value[i] == Some(100.0 - r.value[i].value)
  {
    AveragesNonNegative(values, window);
    assert Gains(Negated(values)) == Losses(values);
    assert Losses(Negated(values)) == Gains(values);
    forall i | window <= i < |values|
      ensures
        var x := RsiOf(WilderAt(Gains(values), window, i), WilderAt(Losses(values), window, i));
        0.0 <= x <= 100.0 && RsiOf(WilderAt(Losses(values), window, i), WilderAt(Gains(values), window, i)) == 100.0 - x
    {
      RsiOfBounds(WilderAt(Gains(values), window, i), WilderAt(Losses(values), window, i));
    }
  }

  /** A price change is gain less loss, neither is negative, and one of them is zero: that fixes both. */
  lemma ChangeSplits(values: seq<real>, i: int)
    requires 0 < i < |values|
    ensures |Gains(values)| == |values| == |Losses(values)|
    ensures
      var gain, loss := Gains(values)[i], Losses(values)[i];
      gain - loss == values[i] - values[i - 1] && gain >= 0.0 && loss >= 0.0 && (gain == 0.0 || loss == 0.0)
  {
  }

  /** The average starts as the plain mean of the first `window` changes, free of division. */
  lemma WilderSeed(series: seq<real>, window: int)
    requires 1 <= window < |series|
    ensures WilderAt(series, window, window) * window as real == Sum(series[1..window + 1])
  {
    TimesQuotient(Sum(series[1..window + 1]), window as real);
  }

  lemma RsiAt(values: seq<real>, window: int, i: int)
    requires 1 <= window <= i < |values|
    ensures
      var gain, loss := WilderAt(Gains(values), window, i), WilderAt(Losses(values), window, i);
      && gain >= 0.0 && loss >= 0.0
      && Rsi(values, window).Ok? && Rsi(values, window).value[i] == Some(RsiOf(gain, loss))
  {
    AveragesNonNegative(values, window);
  }

  lemma ShareOf(gain: real, loss: real, rsi: real)
    requires gain >= 0.0 && loss >= 0.0 && rsi == RsiOf(gain, loss)
    ensures rsi * (gain + loss) == 100.0 * gain && (gain + loss == 0.0 ==> rsi == 50.0)
  {
    RsiOfBounds(gain, loss);
  }

  /** RSI is the share, in percent, of the average gain in average gain and loss; 50 when there are neither. */
  lemma RsiIsShare(values: seq<real>, window: int, i: int, gain: real, loss: real) returns (rsi: real)
    requires 1 <= window <= i < |values|
    requires gain == WilderAt(Gains(values), window, i) && loss == WilderAt(Losses(values), window, i)
    ensures Rsi(values, window).Ok? && Rsi(values, window).value[i] == Some(rsi)
    ensures rsi * (gain + loss) == 100.0 * gain && (gain + loss == 0.0 ==> rsi == 50.0)
  {
    RsiAt(values, window, i);
    rsi := Rsi(values, window).value[i].value;
    ShareOf(gain, loss, rsi);
  }

  lemma {:induction false} WilderZero(series: seq<real>, window: int, i: int)
    requires 1 <= window <= i < |series| && forall k :: 1 <= k <= i ==> series[k] == 0.0
    ensures WilderAt(series, window, i) == 0.0
    decreases i
  {
    if i == window {
      SumZero(series[1..window + 1]);
    } else {
      WilderZero(series, window, i - 1);
    }
  }

  lemma {:induction false} SumZero(xs: seq<real>)
    requires forall k :: 0 <= k < |xs| ==> xs[k] == 0.0
    ensures Sum(xs) == 0.0
  {
    if xs == [] {
    } else {
      SumZero(xs[..|xs| - 1]);
    }
  }

  /** A series that has only risen has RSI 100, one that has only fallen 0, one that has not moved 50. */
  lemma RsiExtremes(values: seq<real>, window: int, i: int)
    requires 1 <= window <= i < |values| && Rsi(values, window).Ok?
    ensures
      var r := Rsi(values, window).value[i];
      && ((forall k :: 1 <= k <= i ==> values[k] > values[k - 1]) ==> r == Some(100.0))
      && ((forall k :: 1 <= k <= i ==> values[k] < values[k - 1]) ==> r == Some(0.0))
      && ((forall k :: 1 <= k <= i ==> values[k] == values[k - 1]) ==> r == Some(50.0))
  {
    AveragesNonNegative(values, window);
    if forall k :: 1 <= k <= i ==> values[k] > values[k - 1] {
      WilderZero(Losses(values), window, i);
      WilderPositive(Gains(values), window, i);
    } else if forall k :: 1 <= k <= i ==> values[k] < values[k - 1] {
      WilderZero(Gains(values), window, i);
      WilderPositive(Losses(values), window, i);
      RsiOfBounds(0.0, WilderAt(Losses(values), window, i));
    } else if forall k :: 1 <= k <= i ==> values[k] == values[k - 1] {
      WilderZero(Gains(values), window, i);
      WilderZero(Losses(values), window, i);
    }
  }

  lemma {:induction false} SumPositive(xs: seq<real>)
    requires xs != [] && forall k :: 0 <= k < |xs| ==> xs[k] > 0.0
    ensures Sum(xs) > 0.0
  {
    if |xs| == 1 {
      assert xs[..0] == [];
    } else {
      SumPositive(xs[..|xs| - 1]);
    }
  }

  lemma SmoothPositive(average: real, x: real, window: int)
    requires window >= 1 && average > 0.0 && x > 0.0
    ensures Smooth(average, x, window) > 0.0
  {
    var w := window as real;
    var alpha := 1.0 / w;
    assert alpha * w == 1.0;
    assert 0.0 < alpha <= 1.0;
    MulNonNegative(1.0 - alpha, average);
    assert alpha * x > 0.0;
  }

  lemma {:induction false} WilderPositive(series: seq<real>, window: int, i: int)
    requires 1 <= window <= i < |series| && forall k :: 1 <= k <= i ==> series[k] > 0.0
    ensures WilderAt(series, window, i) > 0.0
    decreases i
  {
    if i == window {
      SumPositive(series[1..window + 1]);
    } else {
      WilderPositive(series, window, i - 1);
      SmoothPositive(WilderAt(series, window, i - 1), series[i], window);
    }
  }
}
