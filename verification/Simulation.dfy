/** `simulate`: a ledger that is flat or long, driven by changes of a position series. Money is exact; the rounding of
    a quantity to eight places is kept. */
module Simulation {
  import opened Market
  import opened Frame

  datatype Costs = Costs(fee: real, slippage: real)

  datatype Trade = Trade(
    entryTs: Option<int>, exitTs: Option<int>, entryPrice: Option<real>, exitPrice: Option<real>,
    fees: real, pnl: Option<real>)

  /** One row of the sparse curve: the ledger as an event left it. */
  datatype Point = Point(ts: int, cash: real, quantity: real)

  datatype Ledger = Ledger(
    cash: real, quantity: real, cashAtEntry: real, totalFees: real,
    entryTs: Option<int>, entryPrice: Option<real>, entryFee: real,
    trades: seq<Trade>, curve: seq<Point>, isOpen: bool)

  datatype SimulationResult = SimulationResult(
    trades: seq<Trade>, finalCash: real, equity: seq<real>, totalFees: real)

  const SCALE := 100_000_000.0

  /** `quantize(Decimal("1e-8"), ROUND_DOWN)`: towards zero. */
  function Quantize(x: real): real {
    if x >= 0.0 then (x * SCALE).Floor as real / SCALE else -((-x * SCALE).Floor as real / SCALE)
  }

  function BuyFill(price: real, costs: Costs): (fill: real)
    ensures price > 0.0 && costs.slippage != -1.0 ==> fill != 0.0
  {
    price * (1.0 + costs.slippage)
  }

  function SellFill(price: real, costs: Costs): real {
    price * (1.0 - costs.slippage)
  }

  function ExecuteBuy(cash: real, price: real, costs: Costs): (real, real)
    requires price > 0.0 && costs.slippage != -1.0
  {
    var fee := cash * costs.fee;
    (Quantize((cash - fee) / BuyFill(price, costs)), fee)
  }

  function ExecuteSell(quantity: real, price: real, costs: Costs): (real, real) {
    var proceeds := quantity * SellFill(price, costs);
    var fee := proceeds * costs.fee;
    (proceeds - fee, fee)
  }

  /** `position.diff()`; the first entry is NaN. */
  function Change(position: seq<int>, i: nat): Option<int>
    requires i < |position|
  {
    if i == 0 then None else Some(position[i] - position[i - 1])
  }

  function Open(capital: real, firstTs: int): Ledger {
    Ledger(capital, 0.0, capital, 0.0, None, None, 0.0, [], [Point(firstTs, capital, 0.0)], false)
  }

  function Buy(l: Ledger, ts: int, price: real, costs: Costs): Ledger
    requires price > 0.0 && costs.slippage != -1.0
  {
    var (quantity, fee) := ExecuteBuy(l.cash, price, costs);
    l.(quantity := quantity, entryFee := fee, entryTs := Some(ts), entryPrice := Some(price), cashAtEntry := l.cash,
       cash := 0.0, isOpen := true, totalFees := l.totalFees + fee, curve := l.curve + [Point(ts, 0.0, quantity)])
  }

  function Sell(l: Ledger, ts: int, price: real, costs: Costs): Ledger {
    var (cash, fee) := ExecuteSell(l.quantity, price, costs);
    var trade := Trade(l.entryTs, Some(ts), l.entryPrice, Some(price), l.entryFee + fee, Some(cash - l.cashAtEntry));
    l.(cash := cash, totalFees := l.totalFees + fee, quantity := 0.0, entryFee := 0.0, isOpen := false,
       trades := l.trades + [trade], curve := l.curve + [Point(ts, cash, 0.0)])
  }

  function StepBar(l: Ledger, change: Option<int>, ts: int, price: real, costs: Costs): Ledger
    requires price > 0.0 && costs.slippage != -1.0
  {
    if change == Some(1) then Buy(l, ts, price, costs)
    else if change == Some(-1) then Sell(l, ts, price, costs)
    else l
  }

  /** What `simulate` is called with. */
  ghost predicate Fits(position: seq<int>, p: Prepared, costs: Costs) {
    Usable(p) && |position| == |p.index| && costs.slippage != -1.0
  }

  /** The ledger after the first `n` bars. */
  function LedgerAfter(position: seq<int>, p: Prepared, capital: real, costs: Costs, n: nat): Ledger
    requires Fits(position, p, costs) && n <= |position|
  {
    if n == 0 then Open(capital, p.index[0])
    else
      StepBar(LedgerAfter(position, p, capital, costs, n - 1), Change(position, n - 1),
        p.index[n - 1], p.prices[p.index[n - 1]], costs)
  }

  /** The trade list of the result: an open position is listed without exit and without pnl. */
  function ListTrades(l: Ledger): seq<Trade> {
    l.trades + if l.isOpen then [Trade(l.entryTs, None, l.entryPrice, None, l.entryFee, None)] else []
  }

  /** The curve's row for a timestamp. */
  function RowAt(curve: seq<Point>, ts: int): Option<Point> {
    if curve == [] then None
    else if curve[|curve| - 1].ts == ts then Some(curve[|curve| - 1])
    else RowAt(curve[..|curve| - 1], ts)
  }

  /** `reindex(index).ffill()` at position `i`. */
  function FilledAt(curve: seq<Point>, index: seq<int>, i: nat): Option<Point>
    requires i < |index|
  {
    if RowAt(curve, index[i]).Some? then RowAt(curve, index[i])
    else if i == 0 then None
    else FilledAt(curve, index, i - 1)
  }

  function EquityAt(curve: seq<Point>, p: Prepared, i: nat): real
    requires i < |p.index| && |p.closes| == |p.index|
  {
    match FilledAt(curve, p.index, i)
    case None => 0.0
    case Some(row) => row.cash + row.quantity * p.closes[i]
  }

  function Result(l: Ledger, p: Prepared): SimulationResult
    requires |p.closes| == |p.index|
  {
    SimulationResult(
      ListTrades(l),
      l.cash + l.quantity * p.finalClose,
      seq(|p.index|, i requires 0 <= i < |p.index| => EquityAt(l.curve, p, i)),
      l.totalFees)
  }

  function SimulateSpec(position: seq<int>, p: Prepared, capital: real, costs: Costs): SimulationResult
    requires Fits(position, p, costs)
  {
    Result(LedgerAfter(position, p, capital, costs, |position|), p)
  }

  method Simulate(position: seq<int>, p: Prepared, capital: real, costs: Costs) returns (r: SimulationResult)
    requires Fits(position, p, costs)
    ensures r == SimulateSpec(position, p, capital, costs)
  {
    var cash := capital;
    var quantity := 0.0;
    var trades := [];
    var cashAtEntry := capital;
    var totalFees := 0.0;
    var entryTs: Option<int> := None;
    var entryPrice: Option<real> := None;
    var entryFee := 0.0;
    var curve := [Point(p.index[0], capital, quantity)];
    var isOpen := false;
    for i := 0 to |position|
      invariant LedgerAfter(position, p, capital, costs, i) ==
        Ledger(cash, quantity, cashAtEntry, totalFees, entryTs, entryPrice, entryFee, trades, curve, isOpen)
    {
      var ts := p.index[i];
      var price := p.prices[ts];
      var change := Change(position, i);
      if change == Some(1) {
        var bought := ExecuteBuy(cash, price, costs);
        quantity, entryFee := bought.0, bought.1;
        entryTs := Some(ts);
        entryPrice := Some(price);
        cashAtEntry := cash;
        cash := 0.0;
        isOpen := true;
        totalFees := totalFees + entryFee;
        curve := curve + [Point(ts, cash, quantity)];
      } else if change == Some(-1) {
        var sold := ExecuteSell(quantity, price, costs);
        cash := sold.0;
        var pnl := cash - cashAtEntry;
        var fees := entryFee + sold.1;
        totalFees := totalFees + sold.1;
        quantity := 0.0;
        entryFee := 0.0;
        isOpen := false;
        trades := trades + [Trade(entryTs, Some(ts), entryPrice, Some(price), fees, Some(pnl))];
        curve := curve + [Point(ts, cash, quantity)];
      }
    }
    var listed := trades;
    if isOpen {
      listed := listed + [Trade(entryTs, None, entryPrice, None, entryFee, None)];
    }
    var finalCash := cash + quantity * p.finalClose;
    var equity := seq(|p.index|, i requires 0 <= i < |p.index| => EquityAt(curve, p, i));
    r := SimulationResult(listed, finalCash, equity, totalFees);
  }
}
