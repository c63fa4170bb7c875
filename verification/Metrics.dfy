/** Statistics of a simulated run. */
module Metrics {
  import opened Arithmetic
  import opened Market
  import opened Frame
  import opened Simulation

  function TotalReturn(initial: real, final: real): real
    requires initial != 0.0
  {
    final / initial - 1.0
  }

  /** `equity.cummax()` */
  function PeakAt(equity: seq<real>, j: nat): real
    requires j < |equity|
  {
    if j == 0 then equity[0] else MaxOf(PeakAt(equity, j - 1), equity[j])
  }

  lemma {:induction false} PeakIsMaximum(equity: seq<real>, j: nat)
    requires j < |equity|
    ensures forall i :: 0 <= i <= j ==> equity[i] <= PeakAt(equity, j)
    ensures exists i :: 0 <= i <= j && equity[i] == PeakAt(equity, j)
  {
    if j > 0 {
      PeakIsMaximum(equity, j - 1);
      if PeakAt(equity, j) == equity[j] {
      } else {
        var i :| 0 <= i <= j - 1 && equity[i] == PeakAt(equity, j - 1);
        assert equity[i] == PeakAt(equity, j);
      }
    } else {
      assert equity[0] == PeakAt(equity, 0);
    }
  }

  /** `(equity - peak) / peak`, which is no number where the peak is zero. */
  function DrawdownAt(equity: seq<real>, j: nat): Option<real>
    requires j < |equity|
  {
    var peak := PeakAt(equity, j);
    if peak == 0.0 then None else Some((equity[j] - peak) / peak)
  }

  function Lesser(a: Option<real>, b: Option<real>): Option<real> {
    if a.None? then b else if b.None? then a else Some(MinOf(a.value, b.value))
  }

  function WorstUpTo(equity: seq<real>, j: nat): Option<real>
    requires j < |equity|
  {
    if j == 0 then DrawdownAt(equity, 0) else Lesser(WorstUpTo(equity, j - 1), DrawdownAt(equity, j))
  }

  function MaxDrawdown(equity: seq<real>): Option<real> {
    if equity == [] then None else WorstUpTo(equity, |equity| - 1)
  }

  /** The loss from bar `i` to bar `j`, as a share of the value at `i`. */
  function Loss(equity: seq<real>, i: nat, j: nat): real
    requires i <= j < |equity| && equity[i] > 0.0
  {
    (equity[j] - equity[i]) / equity[i]
  }

  lemma ShareForm(e: real, x: real, q: real)
    requires x > 0.0 && q * x == e
    ensures (e - x) / x == q - 1.0
  {
    var t := (e - x) / x;
    assert t * x == e - x;
    assert (q - 1.0) * x == q * x - x;
    Cancel(t, q - 1.0, x);
  }

  /** Shares `q` of `x` and `r` of `peak` that are worth the same. */
  lemma SmallerShare(e: real, x: real, peak: real, q: real, r: real)
    requires e >= 0.0 && 0.0 < x <= peak && q * x == e && r * peak == e
    ensures 0.0 <= r <= q && (r == 0.0 <==> e == 0.0) && (e <= peak <==> r <= 1.0) && (e >= peak <==> r >= 1.0)
  {
    var t := peak - x;
    assert r * peak == r * x + r * t;
    assert r >= 0.0 ==> r * t >= 0.0;
    assert (q - r) * x == q * x - r * x;
    assert (r - 1.0) * peak == r * peak - peak;
  }

  lemma SmallerBase(e: real, x: real, peak: real)
    requires e >= 0.0 && 0.0 < x <= peak
    ensures -1.0 <= (e - peak) / peak <= (e - x) / x
    ensures (e - peak) / peak == -1.0 <==> e == 0.0
    ensures e <= peak ==> (e - peak) / peak <= 0.0
    ensures (e - peak) / peak >= 0.0 ==> e >= peak
  {
    var q, r := e / x, e / peak;
    assert q * x == e;
    assert r * peak == e;
    ShareForm(e, x, q);
    ShareForm(e, peak, r);
    SmallerShare(e, x, peak, q, r);
  }

  /** A series that starts positive has a drawdown at every bar. */
  lemma DrawdownDefined(equity: seq<real>, j: nat)
    requires j < |equity| && equity[0] > 0.0
    ensures PeakAt(equity, j) > 0.0
    ensures DrawdownAt(equity, j) == Some((equity[j] - PeakAt(equity, j)) / PeakAt(equity, j))
  {
    PeakIsMaximum(equity, j);
  }

  lemma {:induction false} WorstIsMinimum(equity: seq<real>, j: nat) returns (worst: real)
    requires j < |equity| && equity[0] > 0.0
    ensures WorstUpTo(equity, j) == Some(worst)
    ensures forall k :: 0 <= k <= j ==> DrawdownAt(equity, k).Some? && worst <= DrawdownAt(equity, k).value
    ensures exists k :: 0 <= k <= j && DrawdownAt(equity, k) == Some(worst)
  {
    DrawdownDefined(equity, j);
    var last := DrawdownAt(equity, j);
    if j == 0 {
      worst := last.value;
    } else {
      var before := WorstIsMinimum(equity, j - 1);
      if before <= last.value {
        worst := before;
        var k :| 0 <= k <= j - 1 && DrawdownAt(equity, k) == Some(before);
        assert DrawdownAt(equity, k) == Some(worst);
      } else {
        worst := last.value;
      }
    }
  }

  /** The running-peak form is the worst loss between any two bars: no pair is worse, and some pair is exactly that. */
  lemma DrawdownIsWorstPair(equity: seq<real>)
    requires equity != [] && equity[0] > 0.0 && forall i :: 0 <= i < |equity| ==> equity[i] >= 0.0
    ensures MaxDrawdown(equity).Some?
    ensures
      var d := MaxDrawdown(equity).value;
      && (forall i, j :: 0 <= i <= j < |equity| && equity[i] > 0.0 ==> d <= Loss(equity, i, j))
      && (exists i, j :: 0 <= i <= j < |equity| && equity[i] > 0.0 && d == Loss(equity, i, j))
  {
    var n := |equity| - 1;
    var d := WorstIsMinimum(equity, n);
    forall i, j | 0 <= i <= j < |equity| && equity[i] > 0.0
      ensures d <= Loss(equity, i, j)
    {
      PeakIsMaximum(equity, j);
      DrawdownDefined(equity, j);
      SmallerBase(equity[j], equity[i], PeakAt(equity, j));
      assert d <= DrawdownAt(equity, j).value;
    }
    var k :| 0 <= k <= n && DrawdownAt(equity, k) == Some(d);
    PeakIsMaximum(equity, k);
    DrawdownDefined(equity, k);
    var i :| 0 <= i <= k && equity[i] == PeakAt(equity, k);
    assert d == Loss(equity, i, k);
  }

  lemma DrawdownInRange(equity: seq<real>, k: nat)
    requires k < |equity| && equity[0] > 0.0 && equity[k] >= 0.0
    ensures DrawdownAt(equity, k).Some? && -1.0 <= DrawdownAt(equity, k).value <= 0.0
    ensures DrawdownAt(equity, k).value == -1.0 <==> equity[k] == 0.0
    ensures DrawdownAt(equity, k).value == 0.0 <==> equity[k] >= PeakAt(equity, k)
  {
    PeakIsMaximum(equity, k);
    DrawdownDefined(equity, k);
    SmallerBase(equity[k], PeakAt(equity, k), PeakAt(equity, k));
  }

  /** It lies in [-1, 0]: -1 exactly when the series touches zero, 0 exactly when it never falls. */
  lemma DrawdownRange(equity: seq<real>)
    requires equity != [] && equity[0] > 0.0 && forall i :: 0 <= i < |equity| ==> equity[i] >= 0.0
    ensures MaxDrawdown(equity).Some? && -1.0 <= MaxDrawdown(equity).value <= 0.0
    ensures MaxDrawdown(equity).value == -1.0 <==> exists i :: 0 <= i < |equity| && equity[i] == 0.0
    ensures MaxDrawdown(equity).value == 0.0 <==> forall i, j :: 0 <= i <= j < |equity| ==> equity[i] <= equity[j]
  {
    var n := |equity| - 1;
    var d := WorstIsMinimum(equity, n);
    var k :| 0 <= k <= n && DrawdownAt(equity, k) == Some(d);
    DrawdownInRange(equity, k);
    PeakIsMaximum(equity, k);
    if d == 0.0 {
      forall i, j | 0 <= i <= j < |equity|
        ensures equity[i] <= equity[j]
      {
        PeakIsMaximum(equity, j);
        DrawdownInRange(equity, j);
        assert d <= DrawdownAt(equity, j).value;
      }
    } else {
      var i :| 0 <= i <= k && equity[i] == PeakAt(equity, k);
      assert equity[i] > equity[k];
    }
    if i :| 0 <= i < |equity| && equity[i] == 0.0 {
      DrawdownInRange(equity, i);
      assert d <= DrawdownAt(equity, i).value;
    }
  }

  // ---------- when there is a Sharpe ratio ----------

  /** `equity.pct_change()` at bar `i`. */
  function ReturnAt(equity: seq<real>, i: nat): real
    requires 1 <= i < |equity| && equity[i - 1] > 0.0
  {
    equity[i] / equity[i - 1] - 1.0
  }

  /** The ratio of a positive curve is a number exactly when its returns have a deviation that is not zero: two of them
      differ. */
  ghost predicate HasSharpe(equity: seq<real>) {
    && (forall i :: 0 <= i < |equity| ==> equity[i] > 0.0)
    && exists i, j :: 1 <= i < |equity| && 1 <= j < |equity| && ReturnAt(equity, i) != ReturnAt(equity, j)
  }

  // ---------- trades ----------

  function CountClosed(trades: seq<Trade>): nat {
    if trades == [] then 0 else CountClosed(trades[..|trades| - 1]) + if trades[|trades| - 1].pnl.Some? then 1 else 0
  }

  function CountWins(trades: seq<Trade>): nat {
    if trades == [] then 0
    else
      var t := trades[|trades| - 1];
      CountWins(trades[..|trades| - 1]) + if t.pnl.Some? && t.pnl.value > 0.0 then 1 else 0
  }

  function WinRate(trades: seq<Trade>): Option<real> {
    if CountClosed(trades) == 0 then None else Some(CountWins(trades) as real / CountClosed(trades) as real)
  }

  lemma ShareOfWhole(part: real, whole: real)
    requires 0.0 <= part <= whole && whole > 0.0
    ensures 0.0 <= part / whole <= 1.0 && (part / whole == 1.0 <==> part == whole)
  {
    var q := part / whole;
    assert q * whole == part;
    assert (1.0 - q) * whole == whole - part;
  }

  lemma {:induction false} WinsAmongClosed(trades: seq<Trade>)
    ensures CountWins(trades) <= CountClosed(trades)
    ensures CountClosed(trades) == 0 <==> forall t :: t in trades ==> t.pnl.None?
    ensures CountWins(trades) == CountClosed(trades) <==> forall t :: t in trades && t.pnl.Some? ==> t.pnl.value > 0.0
  {
    if trades == [] {
    } else {
      WinsAmongClosed(trades[..|trades| - 1]);
      assert trades == trades[..|trades| - 1] + [trades[|trades| - 1]];
    }
  }

  /** There is a win rate exactly when a trade was closed; it lies in [0, 1]; and it is 1 exactly when no closed trade
      ended without a profit. Open trades do not count. */
  lemma WinRateRange(trades: seq<Trade>)
    ensures WinRate(trades).None? <==> forall t :: t in trades ==> t.pnl.None?
    ensures WinRate(trades).Some? ==> 0.0 <= WinRate(trades).value <= 1.0
    ensures WinRate(trades).Some? ==>
      (WinRate(trades).value == 1.0 <==> forall t :: t in trades && t.pnl.Some? ==> t.pnl.value > 0.0)
  {
    WinsAmongClosed(trades);
    if WinRate(trades).Some? {
      ShareOfWhole(CountWins(trades) as real, CountClosed(trades) as real);
    }
  }

  predicate ClosedAt(trades: seq<Trade>, i: int)
    requires 0 <= i < |trades|
  {
    trades[i].pnl.Some?
  }

  predicate WonAt(trades: seq<Trade>, i: int)
    requires 0 <= i < |trades|
  {
    trades[i].pnl.Some? && trades[i].pnl.value > 0.0
  }

  function ClosedSet(trades: seq<Trade>): set<int> {
    set i | 0 <= i < |trades| && ClosedAt(trades, i)
  }

  function WonSet(trades: seq<Trade>): set<int> {
    set i | 0 <= i < |trades| && WonAt(trades, i)
  }

  lemma {:induction false} ClosedAreCounted(trades: seq<Trade>)
    ensures CountClosed(trades) == |ClosedSet(trades)|
  {
    if trades == [] {
      assert ClosedSet(trades) == {};
    } else {
      var n := |trades| - 1;
      ClosedAreCounted(trades[..n]);
      assert forall i :: 0 <= i < n ==> ClosedAt(trades[..n], i) == ClosedAt(trades, i);
      assert n !in ClosedSet(trades[..n]);
      assert ClosedSet(trades) == ClosedSet(trades[..n]) + if ClosedAt(trades, n) then {n} else {};
    }
  }

  lemma {:induction false} WinsAreCounted(trades: seq<Trade>)
    ensures CountWins(trades) == |WonSet(trades)|
  {
    if trades == [] {
      assert WonSet(trades) == {};
    } else {
      var n := |trades| - 1;
      WinsAreCounted(trades[..n]);
      assert forall i :: 0 <= i < n ==> WonAt(trades[..n], i) == WonAt(trades, i);
      assert n !in WonSet(trades[..n]);
      assert WonSet(trades) == WonSet(trades[..n]) + if WonAt(trades, n) then {n} else {};
    }
  }

  /** The win rate times the number of closed trades is the number of those with a profit. */
  lemma WinRateIsShare(trades: seq<Trade>)
    ensures WinRate(trades).None? <==> ClosedSet(trades) == {}
    ensures WinRate(trades).Some? ==> WinRate(trades).value * |ClosedSet(trades)| as real == |WonSet(trades)| as real
  {
    ClosedAreCounted(trades);
    WinsAreCounted(trades);
  }

  /** One buy at the first open and one sale at the last close, through the same fills and fees as the strategy. */
  function BuyAndHold(p: Prepared, capital: real, costs: Costs): Trade
    requires Usable(p) && costs.slippage != -1.0
  {
    var (quantity, entryFee) := ExecuteBuy(capital, p.prices[p.index[0]], costs);
    var (cash, fee) := ExecuteSell(quantity, p.finalClose, costs);
    Trade(Some(p.index[0]), Some(p.index[|p.index| - 1]), Some(p.prices[p.index[0]]), Some(p.finalClose),
      entryFee + fee, Some(cash - capital))
  }
}
