/** `run_backtest`: candles to frame to averages to signal to ledger to metrics. */
module Runner {
  import opened Market
  import opened Frame
  import opened Indicators
  import opened Signals
  import opened Simulation
  import Ledgers
  import Metrics

  datatype RunError =
    | BadFrame(frame: FrameError)
    | BadAverage(average: IndicatorError)
    | BadSignal(signal: SignalError)
    | ZeroDivision

  datatype BacktestMetrics = BacktestMetrics(
    initialCapital: real, finalEquity: real, totalReturn: real, maxDrawdown: Option<real>, sharpe: Option<real>,
    winRate: Option<real>, tradeCount: nat, feesPaid: real,
    buyAndHoldFinalEquity: real, buyAndHoldTotalReturn: real, info: FrameInfo)

  datatype BacktestResult = BacktestResult(metrics: BacktestMetrics, simulation: SimulationResult)

  datatype Windows = Windows(fast: int, slow: int)

  /** The Sharpe ratio of an equity curve; its square root is not modelled. */
  type Sharpe = seq<real> -> Option<real>

  /** Frame and signal of a run, or the first error on the way. */
  function Plan(candles: seq<Candle>, interval: int, windows: Windows, allowGaps: bool)
    : Result<(Prepared, seq<int>), RunError>
  {
    match Prepare(candles, interval, allowGaps)
    case Err(e) => Err(BadFrame(e))
    case Ok(p) =>
      match Sma(p.closes, windows.fast)
      case Err(e) => Err(BadAverage(e))
      case Ok(fast) =>
        match Sma(p.closes, windows.slow)
        case Err(e) => Err(BadAverage(e))
        case Ok(slow) =>
          match SmaCrossover(fast, slow)
          case Err(e) => Err(BadSignal(e))
          case Ok(position) => Ok((p, position))
  }

  /** Every callee's precondition is met: the frame is usable and the signal is a 0/1 series that starts flat. */
  lemma PlanIsSound(candles: seq<Candle>, interval: int, windows: Windows, allowGaps: bool)
    requires Plan(candles, interval, windows, allowGaps).Ok?
    ensures
      var (p, position) := Plan(candles, interval, windows, allowGaps).value;
      && Usable(p) && |p.index| == |candles| == |position| && IsSignal(position)
      && (forall i :: 0 <= i < |position| && position[i] == 1 ==> i >= windows.slow)
  {
    AcceptedIsUsable(candles, interval, allowGaps);
    CrossoverIsSignal(Closes(candles), windows.fast, windows.slow);
  }

  /** The report on a simulation, beside what buying and holding made. */
  function MetricsOf(result: SimulationResult, hold: Trade, capital: real, info: FrameInfo, sharpe: Sharpe)
    : BacktestMetrics
    requires capital != 0.0 && hold.pnl.Some?
  {
    var held := capital + hold.pnl.value;
    BacktestMetrics(
      capital, result.finalCash, Metrics.TotalReturn(capital, result.finalCash), Metrics.MaxDrawdown(result.equity),
      sharpe(result.equity), Metrics.WinRate(result.trades), |result.trades|, result.totalFees,
      held, Metrics.TotalReturn(capital, held), info)
  }

  /** No divisor of a run is zero: not the fill price of a buy, of which the benchmark always makes one, and not the
      capital a return is relative to. */
  predicate Divides(capital: real, costs: Costs) {
    costs.slippage != -1.0 && capital != 0.0
  }

  function RunBacktest(candles: seq<Candle>, interval: int, capital: real, windows: Windows, costs: Costs,
                       allowGaps: bool, sharpe: Sharpe): Result<BacktestResult, RunError>
  {
    match Plan(candles, interval, windows, allowGaps)
    case Err(e) => Err(e)
    case Ok((p, position)) =>
      if !Divides(capital, costs) then Err(ZeroDivision)
      else
        PlanIsSound(candles, interval, windows, allowGaps);
        var result := SimulateSpec(position, p, capital, costs);
        var hold := Metrics.BuyAndHold(p, capital, costs);
        Ok(BacktestResult(MetricsOf(result, hold, capital, p.info, sharpe), result))
  }

  /** Exactly these runs are accepted: a frame that prepares, windows with 1 <= fast <= slow <= number of candles, some
      capital, and not a slippage of minus one. */
  lemma RunsIff(candles: seq<Candle>, interval: int, capital: real, windows: Windows, costs: Costs,
                allowGaps: bool, sharpe: Sharpe)
    ensures RunBacktest(candles, interval, capital, windows, costs, allowGaps, sharpe).Ok? <==>
      && Prepare(candles, interval, allowGaps).Ok? && 1 <= windows.fast <= windows.slow <= |candles|
      && Divides(capital, costs)
  {
    if Prepare(candles, interval, allowGaps).Ok? && windows.fast >= 1 && windows.slow >= 1 {
      CrossoverAcceptsIff(Closes(candles), windows.fast, windows.slow);
    }
  }

  /** The metrics of any accepted run at the rates the service accepts: nothing goes below zero, the drawdown lies in
      [-1, 0], and the fees paid are those of the listed trades. */
  lemma MetricsInRange(candles: seq<Candle>, interval: int, capital: real, windows: Windows, costs: Costs,
                       allowGaps: bool, sharpe: Sharpe)
    requires capital > 0.0 && Ledgers.Charges(costs)
    requires RunBacktest(candles, interval, capital, windows, costs, allowGaps, sharpe).Ok?
    ensures
      var r := RunBacktest(candles, interval, capital, windows, costs, allowGaps, sharpe).value;
      && r.metrics.finalEquity >= 0.0 && r.metrics.totalReturn >= -1.0
      && r.metrics.maxDrawdown.Some? && -1.0 <= r.metrics.maxDrawdown.value <= 0.0
      && r.metrics.feesPaid == Ledgers.FeeSum(r.simulation.trades)
      && (windows.slow == |candles| ==> r.metrics.tradeCount == 0)
  {
    PlanIsSound(candles, interval, windows, allowGaps);
    var (p, position) := Plan(candles, interval, windows, allowGaps).value;
    Ledgers.EquityNonNegative(position, p, capital, costs);
    Ledgers.EquityCurveIsLedger(position, p, capital, costs);
    Ledgers.TradesAddUp(position, p, capital, costs);
    var r := SimulateSpec(position, p, capital, costs);
    Metrics.DrawdownRange(r.equity);
    ReturnBound(capital, r.finalCash);
    if windows.slow == |candles| {
      NeverLong(position, p, capital, costs, |position|);
    }
  }

  lemma ReturnBound(initial: real, final: real)
    requires initial > 0.0 && final >= 0.0
    ensures Metrics.TotalReturn(initial, final) >= -1.0
  {
    var q := final / initial;
    assert q * initial == final;
    assert q >= 0.0;
  }

  lemma {:induction false} NeverLong(position: seq<int>, p: Prepared, capital: real, costs: Costs, n: nat)
    requires Fits(position, p, costs) && n <= |position| && forall i :: 0 <= i < |position| ==> position[i] == 0
    ensures LedgerAfter(position, p, capital, costs, n) == Open(capital, p.index[0])
  {
    if n == 0 {
    } else {
      NeverLong(position, p, capital, costs, n - 1);
    }
  }

  /** Bar `i` of the list is where the trade was entered, at its open. */
  predicate EnteredAt(t: Trade, candles: seq<Candle>, i: nat) {
    i < |candles| && t.entryTs == Some(candles[i].ts) && t.entryPrice == Some(candles[i].open)
  }

  /** Every listed trade is entered at the open of a bar that has the whole slow window before it. */
  lemma EntriesAfterWarmUp(candles: seq<Candle>, interval: int, capital: real, windows: Windows, costs: Costs,
                           allowGaps: bool, sharpe: Sharpe, k: nat) returns (bar: nat)
    requires capital > 0.0 && Ledgers.Charges(costs)
    requires RunBacktest(candles, interval, capital, windows, costs, allowGaps, sharpe).Ok?
    requires k < |RunBacktest(candles, interval, capital, windows, costs, allowGaps, sharpe).value.simulation.trades|
    ensures
      var r := RunBacktest(candles, interval, capital, windows, costs, allowGaps, sharpe).value;
      windows.slow <= bar && EnteredAt(r.simulation.trades[k], candles, bar)
  {
    PlanIsSound(candles, interval, windows, allowGaps);
    AcceptedIsUsable(candles, interval, allowGaps);
    RunsIff(candles, interval, capital, windows, costs, allowGaps, sharpe);
    var (p, position) := Plan(candles, interval, windows, allowGaps).value;
    var t := SimulateSpec(position, p, capital, costs).trades[k];
    Ledgers.TradesEnterFrom(position, p, capital, costs, windows.slow);
    Ledgers.TradesPriced(position, p, capital, costs);
    bar :| windows.slow <= bar < |p.index| && p.index[bar] == t.entryTs.value;
  }

  /** The benchmark pays the same costs: dearer trading or less capital never raises what buy-and-hold ends with. */
  lemma BenchmarkMonotone(p: Prepared, capitalA: real, capitalB: real, a: Costs, b: Costs)
    requires Usable(p) && Ledgers.Charges(a) && Ledgers.Charges(b) && Ledgers.Cheaper(a, b)
    requires capitalA >= capitalB >= 0.0
    ensures capitalA + Metrics.BuyAndHold(p, capitalA, a).pnl.value >=
            capitalB + Metrics.BuyAndHold(p, capitalB, b).pnl.value >= 0.0
  {
    var open := p.prices[p.index[0]];
    Ledgers.BuyMonotone(capitalA, capitalB, open, a, b);
    Ledgers.SellMonotone(ExecuteBuy(capitalA, open, a).0, ExecuteBuy(capitalB, open, b).0, p.finalClose, a, b);
  }

  // ---------- no look-ahead ----------

  /** The lists agree on what is known when bar `k` opens: timestamps and opens up to `k`, closes before it. */
  ghost predicate AgreeAtOpen(a: seq<Candle>, b: seq<Candle>, k: nat) {
    && k < |a| && k < |b|
    && (forall i :: 0 <= i <= k ==> a[i].ts == b[i].ts && a[i].open == b[i].open)
    && (forall i :: 0 <= i < k ==> a[i].close == b[i].close)
  }

  lemma FramesAgree(a: seq<Candle>, b: seq<Candle>, intervalA: int, intervalB: int, gapsA: bool, gapsB: bool, k: nat)
    requires AgreeAtOpen(a, b, k)
    requires Prepare(a, intervalA, gapsA).Ok? && Prepare(b, intervalB, gapsB).Ok?
    ensures
      var p, q := Prepare(a, intervalA, gapsA).value, Prepare(b, intervalB, gapsB).value;
      && Usable(p) && Usable(q) && |p.index| == |a| && |q.index| == |b|
      && p.index[..k + 1] == q.index[..k + 1] && p.index[0] == q.index[0] && p.closes[..k] == q.closes[..k]
      && (forall i :: 0 <= i < k + 1 ==> p.prices[p.index[i]] == q.prices[q.index[i]])
  {
    AcceptedIsUsable(a, intervalA, gapsA);
    AcceptedIsUsable(b, intervalB, gapsB);
  }

  /** No look-ahead: two accepted lists that agree at the open of bar `k` give the same positions up to `k` and the same
      ledger after it, fills, trades and all; nothing later, not even the bar's own close, has a say. */
  lemma NoLookAhead(a: seq<Candle>, b: seq<Candle>, intervalA: int, intervalB: int, windows: Windows, gapsA: bool,
                    gapsB: bool, capital: real, costs: Costs, k: nat)
    requires AgreeAtOpen(a, b, k) && costs.slippage != -1.0
    requires Plan(a, intervalA, windows, gapsA).Ok? && Plan(b, intervalB, windows, gapsB).Ok?
    ensures
      var (p, v) := Plan(a, intervalA, windows, gapsA).value;
      var (q, w) := Plan(b, intervalB, windows, gapsB).value;
      && Fits(v, p, costs) && Fits(w, q, costs)
      && v[..k + 1] == w[..k + 1]
      && LedgerAfter(v, p, capital, costs, k + 1) == LedgerAfter(w, q, capital, costs, k + 1)
  {
    PlanIsSound(a, intervalA, windows, gapsA);
    PlanIsSound(b, intervalB, windows, gapsB);
    FramesAgree(a, b, intervalA, intervalB, gapsA, gapsB, k);
    var (p, v) := Plan(a, intervalA, windows, gapsA).value;
    var (q, w) := Plan(b, intervalB, windows, gapsB).value;
    CrossoverAcceptsIff(p.closes, windows.fast, windows.slow);
    CrossoverAcceptsIff(q.closes, windows.fast, windows.slow);
    CrossoverLooksBack(p.closes, q.closes, windows.fast, windows.slow, k);
    forall i | 0 <= i < k + 1
      ensures v[i] == w[i] && p.index[i] == q.index[i]
    {
      assert v[i] == v[..k + 1][i] && w[i] == w[..k + 1][i];
      assert p.index[i] == p.index[..k + 1][i] && q.index[i] == q.index[..k + 1][i];
    }
    Ledgers.LedgerLooksBack(v, w, p, q, capital, costs, k + 1);
  }

  /** The closed trades of a run are the ledger's. */
  function ClosedTrades(v: seq<int>, p: Prepared, capital: real, costs: Costs): seq<Trade>
    requires Fits(v, p, costs)
  {
    LedgerAfter(v, p, capital, costs, |v|).trades
  }

  /** The closed trades of a run over the first candles are a prefix of those of the longer run. */
  lemma PrefixTrades(a: seq<Candle>, more: seq<Candle>, interval: int, windows: Windows, gaps: bool,
                     capital: real, costs: Costs)
    requires a != [] && costs.slippage != -1.0
    requires Plan(a, interval, windows, gaps).Ok? && Plan(a + more, interval, windows, gaps).Ok?
    ensures
      var (p, v) := Plan(a, interval, windows, gaps).value;
      var (q, w) := Plan(a + more, interval, windows, gaps).value;
      && Fits(v, p, costs) && Fits(w, q, costs)
      && ClosedTrades(v, p, capital, costs) <= ClosedTrades(w, q, capital, costs)
  {
    NoLookAhead(a, a + more, interval, interval, windows, gaps, gaps, capital, costs, |a| - 1);
    PlanIsSound(a, interval, windows, gaps);
    PlanIsSound(a + more, interval, windows, gaps);
    var (q, w) := Plan(a + more, interval, windows, gaps).value;
    Ledgers.TradesOnlyGrow(w, q, capital, costs, |a|, |w|);
  }

  /** The last close causes no trade: changing it changes no listed trade and no fee. */
  lemma LastCloseNeverTrades(a: seq<Candle>, b: seq<Candle>, interval: int, windows: Windows, gaps: bool,
                             capital: real, costs: Costs)
    requires |a| == |b| > 0 && AgreeAtOpen(a, b, |a| - 1) && costs.slippage != -1.0
    requires Plan(a, interval, windows, gaps).Ok? && Plan(b, interval, windows, gaps).Ok?
    ensures
      var (p, v) := Plan(a, interval, windows, gaps).value;
      var (q, w) := Plan(b, interval, windows, gaps).value;
      && Fits(v, p, costs) && Fits(w, q, costs)
      && SimulateSpec(v, p, capital, costs).trades == SimulateSpec(w, q, capital, costs).trades
      && SimulateSpec(v, p, capital, costs).totalFees == SimulateSpec(w, q, capital, costs).totalFees
  {
    NoLookAhead(a, b, interval, interval, windows, gaps, gaps, capital, costs, |a| - 1);
    PlanIsSound(a, interval, windows, gaps);
    PlanIsSound(b, interval, windows, gaps);
  }
}
