/** What an accepted run reports, in terms of its candles, its rates and its own trades and equity. */
module Reports {
  import opened Market
  import opened Frame
  import opened Indicators
  import opened Signals
  import opened Simulation
  import opened Runner
  import Ledgers
  import Metrics
  import Trades

  /** Everything a run is called with. */
  datatype Request = Request(
    candles: seq<Candle>, interval: int, capital: real, windows: Windows, costs: Costs, allowGaps: bool)

  function RunOf(q: Request, sharpe: Sharpe): Result<BacktestResult, RunError> {
    RunBacktest(q.candles, q.interval, q.capital, q.windows, q.costs, q.allowGaps, sharpe)
  }

  /** The frame holds the candles. */
  ghost predicate FrameOf(p: Prepared, candles: seq<Candle>) {
    && Usable(p) && |p.index| == |candles|
    && forall i :: 0 <= i < |candles| ==>
         p.index[i] == candles[i].ts && p.closes[i] == candles[i].close && p.prices[p.index[i]] == candles[i].open
  }

  lemma PlanOf(q: Request) returns (p: Prepared, position: seq<int>)
    requires Plan(q.candles, q.interval, q.windows, q.allowGaps).Ok?
    ensures Plan(q.candles, q.interval, q.windows, q.allowGaps) == Ok((p, position))
    ensures FrameOf(p, q.candles) && |position| == |p.index| && IsSignal(position)
    ensures IsCrossover(position, Closes(q.candles), q.windows.fast, q.windows.slow)
  {
    var plan := Plan(q.candles, q.interval, q.windows, q.allowGaps);
    p, position := plan.value.0, plan.value.1;
    AcceptedIsUsable(q.candles, q.interval, q.allowGaps);
    AcceptedIsCrossover(Closes(q.candles), q.windows.fast, q.windows.slow, position);
  }

  /** The simulation of a run is that of the strategy on the prices of its candles: long at a bar exactly when the mean
      of the `fast` closes before it is above the mean of the `slow` ones. */
  lemma RunsTheStrategy(q: Request, sharpe: Sharpe) returns (p: Prepared, position: seq<int>)
    requires RunOf(q, sharpe).Ok?
    ensures Plan(q.candles, q.interval, q.windows, q.allowGaps) == Ok((p, position))
    ensures FrameOf(p, q.candles) && Fits(position, p, q.costs) && IsSignal(position)
    ensures IsCrossover(position, Closes(q.candles), q.windows.fast, q.windows.slow)
    ensures RunOf(q, sharpe).value.simulation == SimulateSpec(position, p, q.capital, q.costs)
  {
    p, position := PlanOf(q);
  }

  lemma RunIs(q: Request, sharpe: Sharpe, p: Prepared, position: seq<int>)
    requires RunOf(q, sharpe).Ok? && Fits(position, p, q.costs)
    requires Plan(q.candles, q.interval, q.windows, q.allowGaps) == Ok((p, position))
    ensures q.capital != 0.0
    ensures
      var r := SimulateSpec(position, p, q.capital, q.costs);
      var hold := Metrics.BuyAndHold(p, q.capital, q.costs);
      RunOf(q, sharpe) == Ok(BacktestResult(MetricsOf(r, hold, q.capital, p.info, sharpe), r))
  {
  }

  /** The parts of an accepted run. */
  lemma PartsOf(q: Request, sharpe: Sharpe)
    returns (m: BacktestMetrics, r: SimulationResult, p: Prepared, position: seq<int>, hold: Trade)
    requires RunOf(q, sharpe).Ok?
    ensures RunOf(q, sharpe) == Ok(BacktestResult(m, r)) && q.capital != 0.0
    ensures Plan(q.candles, q.interval, q.windows, q.allowGaps) == Ok((p, position))
    ensures Fits(position, p, q.costs) && r == SimulateSpec(position, p, q.capital, q.costs)
    ensures hold == Metrics.BuyAndHold(p, q.capital, q.costs) && m == MetricsOf(r, hold, q.capital, p.info, sharpe)
  {
    p, position := RunsTheStrategy(q, sharpe);
    RunIs(q, sharpe, p, position);
    r := SimulateSpec(position, p, q.capital, q.costs);
    hold := Metrics.BuyAndHold(p, q.capital, q.costs);
    m := MetricsOf(r, hold, q.capital, p.info, sharpe);
  }

  /** The numbers of a report are those of the simulation it is made from. */
  ghost predicate ReportsNumbers(m: BacktestMetrics, r: SimulationResult, capital: real, sharpe: Sharpe) {
    && m.initialCapital == capital && m.finalEquity == r.finalCash && m.totalReturn * capital == m.finalEquity - capital
    && m.buyAndHoldTotalReturn * capital == m.buyAndHoldFinalEquity - capital
    && m.tradeCount == |r.trades| && m.feesPaid == r.totalFees && m.sharpe == sharpe(r.equity)
    && (m.winRate.None? <==> Metrics.ClosedSet(r.trades) == {})
    && (m.winRate.Some? ==>
          m.winRate.value * |Metrics.ClosedSet(r.trades)| as real == |Metrics.WonSet(r.trades)| as real)
  }

  lemma ReturnOf(initial: real, final: real)
    requires initial != 0.0
    ensures Metrics.TotalReturn(initial, final) * initial == final - initial
  {
    var x := final / initial;
    assert x * initial == final;
  }

  lemma MetricsReport(r: SimulationResult, hold: Trade, capital: real, info: FrameInfo, sharpe: Sharpe)
    requires capital != 0.0 && hold.pnl.Some?
    ensures
      var m := MetricsOf(r, hold, capital, info, sharpe);
      && ReportsNumbers(m, r, capital, sharpe) && m.info == info
      && m.buyAndHoldFinalEquity == capital + hold.pnl.value
  {
    ReturnOf(capital, r.finalCash);
    ReturnOf(capital, capital + hold.pnl.value);
    Metrics.WinRateIsShare(r.trades);
  }

  /** The reported numbers are those of the run itself; its equity ends with the reported one. */
  lemma ReportsTheRun(q: Request, sharpe: Sharpe) returns (m: BacktestMetrics, r: SimulationResult)
    requires RunOf(q, sharpe).Ok?
    ensures RunOf(q, sharpe) == Ok(BacktestResult(m, r)) && ReportsNumbers(m, r, q.capital, sharpe)
    ensures |r.equity| == |q.candles| > 0 && m.finalEquity == r.equity[|r.equity| - 1]
  {
    var p, position, hold;
    m, r, p, position, hold := PartsOf(q, sharpe);
    MetricsReport(r, hold, q.capital, p.info, sharpe);
    var _, _ := PlanOf(q);
    CurveEnds(position, p, q.capital, q.costs, r);
  }

  lemma CurveEnds(position: seq<int>, p: Prepared, capital: real, costs: Costs, r: SimulationResult)
    requires Fits(position, p, costs) && r == SimulateSpec(position, p, capital, costs)
    ensures |r.equity| == |p.index| > 0 && r.finalCash == r.equity[|r.equity| - 1]
  {
    Ledgers.EquityCurveIsLedger(position, p, capital, costs);
  }

  /** The reported drawdown is the worst loss between two bars of the run's equity. */
  lemma ReportsDrawdown(q: Request, sharpe: Sharpe)
    requires q.capital > 0.0 && Ledgers.Charges(q.costs) && RunOf(q, sharpe).Ok?
    ensures
      var m, equity := RunOf(q, sharpe).value.metrics, RunOf(q, sharpe).value.simulation.equity;
      && m.maxDrawdown.Some?
      && (forall i, j :: 0 <= i <= j < |equity| && equity[i] > 0.0 ==>
            m.maxDrawdown.value <= Metrics.Loss(equity, i, j))
      && (exists i, j :: 0 <= i <= j < |equity| && equity[i] > 0.0 && m.maxDrawdown.value == Metrics.Loss(equity, i, j))
  {
    var p, position := RunsTheStrategy(q, sharpe);
    Ledgers.EquityNonNegative(position, p, q.capital, q.costs);
    Metrics.DrawdownIsWorstPair(RunOf(q, sharpe).value.simulation.equity);
  }

  /** `final` is what the capital becomes when, less the fee, it buys `quantity` at the first open, and all of it, worth
      `worth` there, is sold at the last close, less the fee. */
  ghost predicate IsBenchmark(quantity: real, spend: real, fill: real, worth: real, final: real,
                              first: Candle, last: Candle, capital: real, costs: Costs) {
    && spend == capital - costs.fee * capital && fill == first.open * (1.0 + costs.slippage)
    && Trades.BoughtFor(quantity, spend, fill)
    && worth == quantity * (last.close * (1.0 - costs.slippage)) && final == worth - costs.fee * worth
  }

  lemma SaleAtClose(quantity: real, close: real, costs: Costs, worth: real)
    requires worth == quantity * (close * (1.0 - costs.slippage))
    ensures ExecuteSell(quantity, close, costs).0 == worth - costs.fee * worth
  {
  }

  lemma HeldIs(p: Prepared, capital: real, costs: Costs, open: real, quantity: real)
    requires Usable(p) && costs.slippage != -1.0 && p.prices[p.index[0]] == open
    requires quantity == ExecuteBuy(capital, open, costs).0
    ensures capital + Metrics.BuyAndHold(p, capital, costs).pnl.value == ExecuteSell(quantity, p.finalClose, costs).0
  {
  }

  lemma HeldFrom(p: Prepared, open: real, close: real, capital: real, costs: Costs, held: real, quantity: real)
    returns (worth: real)
    requires Usable(p) && costs.slippage != -1.0 && p.prices[p.index[0]] == open && p.finalClose == close
    requires quantity == ExecuteBuy(capital, open, costs).0
    requires held == capital + Metrics.BuyAndHold(p, capital, costs).pnl.value
    ensures worth == quantity * (close * (1.0 - costs.slippage)) && held == worth - costs.fee * worth
  {
    HeldIs(p, capital, costs, open, quantity);
    worth := quantity * (close * (1.0 - costs.slippage));
    SaleAtClose(quantity, close, costs, worth);
  }

  lemma Holds(p: Prepared, first: Candle, last: Candle, capital: real, costs: Costs, held: real)
    returns (quantity: real, spend: real, fill: real, worth: real)
    requires Usable(p) && capital > 0.0 && Ledgers.Charges(costs)
    requires p.prices[p.index[0]] == first.open && p.finalClose == last.close
    requires held == capital + Metrics.BuyAndHold(p, capital, costs).pnl.value
    ensures IsBenchmark(quantity, spend, fill, worth, held, first, last, capital, costs)
  {
    quantity := ExecuteBuy(capital, first.open, costs).0;
    spend, fill := Trades.BuyIs(capital, first.open, costs, quantity);
    worth := HeldFrom(p, first.open, last.close, capital, costs, held, quantity);
  }

  lemma FrameEnds(q: Request, p: Prepared, position: seq<int>)
    requires Plan(q.candles, q.interval, q.windows, q.allowGaps) == Ok((p, position)) && q.candles != []
    ensures Usable(p) && p.prices[p.index[0]] == q.candles[0].open && p.finalClose == q.candles[|q.candles| - 1].close
  {
    var _, _ := PlanOf(q);
  }

  /** The reported benchmark is one purchase at the first open, sold at the last close, with fees, slippage and rounding
      as in the strategy. */
  lemma ReportsBenchmark(q: Request, sharpe: Sharpe, first: Candle, last: Candle)
    returns (m: BacktestMetrics, quantity: real, spend: real, fill: real, worth: real)
    requires q.capital > 0.0 && Ledgers.Charges(q.costs) && RunOf(q, sharpe).Ok? && q.candles != []
    requires first == q.candles[0] && last == q.candles[|q.candles| - 1]
    ensures m == RunOf(q, sharpe).value.metrics
    ensures
      IsBenchmark(quantity, spend, fill, worth, m.buyAndHoldFinalEquity, first, last, q.capital, q.costs)
  {
    var r, p, position, hold;
    m, r, p, position, hold := PartsOf(q, sharpe);
    FrameEnds(q, p, position);
    quantity, spend, fill, worth := Holds(p, first, last, q.capital, q.costs, m.buyAndHoldFinalEquity);
  }

  lemma FeesOfTwo(rate: real, capital: real, worth: real)
    ensures capital * rate + worth * rate == rate * (capital + worth)
  {
  }

  lemma SaleFee(quantity: real, close: real, costs: Costs, worth: real)
    requires worth == quantity * (close * (1.0 - costs.slippage))
    ensures ExecuteSell(quantity, close, costs).1 == worth * costs.fee
  {
  }

  lemma HoldFees(p: Prepared, capital: real, costs: Costs, open: real, quantity: real)
    requires Usable(p) && costs.slippage != -1.0 && p.prices[p.index[0]] == open
    requires quantity == ExecuteBuy(capital, open, costs).0
    ensures Metrics.BuyAndHold(p, capital, costs).fees ==
      ExecuteBuy(capital, open, costs).1 + ExecuteSell(quantity, p.finalClose, costs).1
  {
  }

  /** The benchmark as a trade: from the first bar to the last, with the fee rate on what changes hands at both. */
  lemma BenchmarkIsTrade(p: Prepared, capital: real, costs: Costs, quantity: real, worth: real) returns (t: Trade)
    requires Usable(p) && costs.slippage != -1.0
    requires quantity == ExecuteBuy(capital, p.prices[p.index[0]], costs).0
    requires worth == quantity * (p.finalClose * (1.0 - costs.slippage))
    ensures t == Metrics.BuyAndHold(p, capital, costs) && t.fees == costs.fee * (capital + worth)
    ensures t.entryTs == Some(p.index[0]) && t.exitTs == Some(p.index[|p.index| - 1])
    ensures t.entryPrice == Some(p.prices[p.index[0]]) && t.exitPrice == Some(p.finalClose)
  {
    t := Metrics.BuyAndHold(p, capital, costs);
    HoldFees(p, capital, costs, p.prices[p.index[0]], quantity);
    SaleFee(quantity, p.finalClose, costs, worth);
    FeesOfTwo(costs.fee, capital, worth);
  }

  lemma PlanError(q: Request)
    requires Plan(q.candles, q.interval, q.windows, q.allowGaps).Err?
    ensures Plan(q.candles, q.interval, q.windows, q.allowGaps).error ==
      var frame := Prepare(q.candles, q.interval, q.allowGaps);
      if frame.Err? then BadFrame(frame.error)
      else if q.windows.fast < 1 || q.windows.slow < 1 then BadAverage(BadWindow)
      else if q.windows.fast > |q.candles| || q.windows.slow > |q.candles| then BadSignal(AllNaN)
      else BadSignal(Swapped)
  {
    if Prepare(q.candles, q.interval, q.allowGaps).Ok? && q.windows.fast >= 1 && q.windows.slow >= 1 {
      CrossoverError(Closes(q.candles), q.windows.fast, q.windows.slow);
    }
  }

  /** What a run that is not accepted raises: the frame's error first, then a window below one, then a window longer
      than the data, then windows the wrong way round, and only then a division by zero. */
  lemma ErrorOfRun(q: Request, sharpe: Sharpe)
    requires RunOf(q, sharpe).Err?
    ensures
      var e := RunOf(q, sharpe).error;
      if Plan(q.candles, q.interval, q.windows, q.allowGaps).Err? then
        e == Plan(q.candles, q.interval, q.windows, q.allowGaps).error
      else e == ZeroDivision && (q.capital == 0.0 || q.costs.slippage == -1.0)
  {
  }
}
