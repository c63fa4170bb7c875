/** Properties of the simulated ledger over whole runs. */
module Ledgers {
  import opened Arithmetic
  import opened Market
  import opened Frame
  import opened Signals
  import opened Simulation

  // ---------- the equity curve ----------

  /** Bar `i` leaves a row in the sparse curve. */
  predicate Recorded(position: seq<int>, i: nat)
    requires i < |position|
  {
    i == 0 || Change(position, i) == Some(1) || Change(position, i) == Some(-1)
  }

  ghost predicate RowsUpTo(curve: seq<Point>, last: int) {
    && (forall i :: 0 <= i < |curve| ==> curve[i].ts <= last)
    && (forall i, j :: 0 <= i < j < |curve| ==> curve[i].ts < curve[j].ts)
  }

  lemma {:induction false} NoRow(curve: seq<Point>, ts: int)
    requires forall i :: 0 <= i < |curve| ==> curve[i].ts != ts
    ensures RowAt(curve, ts) == None
  {
    if curve == [] {
    } else {
      NoRow(curve[..|curve| - 1], ts);
    }
  }

  lemma AppendRow(curve: seq<Point>, row: Point, ts: int)
    ensures RowAt(curve + [row], ts) == if row.ts == ts then Some(row) else RowAt(curve, ts)
  {
    assert (curve + [row])[..|curve|] == curve;
  }

  /** The curve has the row that bar `i` left, if it left one. */
  predicate RowOk(curve: seq<Point>, position: seq<int>, p: Prepared, capital: real, costs: Costs, i: nat)
    requires Fits(position, p, costs) && i < |position|
  {
    var l := LedgerAfter(position, p, capital, costs, i + 1);
    RowAt(curve, p.index[i]) == if Recorded(position, i) then Some(Point(p.index[i], l.cash, l.quantity)) else None
  }

  ghost predicate CurveOk(position: seq<int>, p: Prepared, capital: real, costs: Costs, n: nat)
    requires Fits(position, p, costs) && 1 <= n <= |position|
  {
    var curve := LedgerAfter(position, p, capital, costs, n).curve;
    RowsUpTo(curve, p.index[n - 1]) && forall i :: 0 <= i < n ==> RowOk(curve, position, p, capital, costs, i)
  }

  /** The first bar never trades. */
  lemma FirstBar(position: seq<int>, p: Prepared, capital: real, costs: Costs)
    requires Fits(position, p, costs) && 1 <= |position|
    ensures LedgerAfter(position, p, capital, costs, 1) == Open(capital, p.index[0])
  {
    assert LedgerAfter(position, p, capital, costs, 0) == Open(capital, p.index[0]);
  }

  lemma AppendKeepsRows(curve: seq<Point>, row: Point, last: int)
    requires RowsUpTo(curve, last) && last < row.ts
    ensures RowsUpTo(curve + [row], row.ts)
    ensures forall ts :: ts <= last ==> RowAt(curve + [row], ts) == RowAt(curve, ts)
    ensures RowAt(curve + [row], row.ts) == Some(row)
  {
    forall ts | ts <= last
      ensures RowAt(curve + [row], ts) == RowAt(curve, ts)
    {
      AppendRow(curve, row, ts);
    }
    AppendRow(curve, row, row.ts);
  }

  /** Bar `n` adds its row, if it leaves one, and touches no earlier one. */
  lemma CurveGrows(position: seq<int>, p: Prepared, capital: real, costs: Costs, n: nat)
    requires Fits(position, p, costs) && 1 <= n < |position|
    requires RowsUpTo(LedgerAfter(position, p, capital, costs, n).curve, p.index[n - 1])
    ensures
      var before, curve := LedgerAfter(position, p, capital, costs, n).curve,
        LedgerAfter(position, p, capital, costs, n + 1).curve;
      && RowsUpTo(curve, p.index[n]) && RowOk(curve, position, p, capital, costs, n)
      && forall ts :: ts <= p.index[n - 1] ==> RowAt(curve, ts) == RowAt(before, ts)
  {
    var l := LedgerAfter(position, p, capital, costs, n + 1);
    var before := LedgerAfter(position, p, capital, costs, n).curve;
    assert p.index[n - 1] < p.index[n];
    if Recorded(position, n) {
      var row := Point(p.index[n], l.cash, l.quantity);
      assert l.curve == before + [row];
      AppendKeepsRows(before, row, p.index[n - 1]);
    } else {
      NoRow(before, p.index[n]);
    }
  }

  lemma {:induction false} CurveIsOk(position: seq<int>, p: Prepared, capital: real, costs: Costs, n: nat)
    requires Fits(position, p, costs) && 1 <= n <= |position|
    ensures CurveOk(position, p, capital, costs, n)
  {
    if n == 1 {
      FirstBar(position, p, capital, costs);
    } else {
      CurveIsOk(position, p, capital, costs, n - 1);
      CurveGrows(position, p, capital, costs, n - 1);
      var before := LedgerAfter(position, p, capital, costs, n - 1).curve;
      var curve := LedgerAfter(position, p, capital, costs, n).curve;
      forall i | 0 <= i < n
        ensures RowOk(curve, position, p, capital, costs, i)
      {
        if i < n - 1 {
          assert RowOk(before, position, p, capital, costs, i);
          assert p.index[i] <= p.index[n - 2];
        }
      }
    }
  }

  lemma {:induction false} FilledIsLedger(position: seq<int>, p: Prepared, capital: real, costs: Costs, i: nat)
    requires Fits(position, p, costs) && i < |position| && CurveOk(position, p, capital, costs, |position|)
    ensures
      var curve := LedgerAfter(position, p, capital, costs, |position|).curve;
      var l := LedgerAfter(position, p, capital, costs, i + 1);
      var row := FilledAt(curve, p.index, i);
      row.Some? && row.value.cash == l.cash && row.value.quantity == l.quantity
  {
    var curve := LedgerAfter(position, p, capital, costs, |position|).curve;
    assert RowOk(curve, position, p, capital, costs, i);
    if Recorded(position, i) {
    } else {
      FilledIsLedger(position, p, capital, costs, i - 1);
    }
  }

  /** Cash plus holdings at the bar's close, after bar `i`. */
  function ValueAt(position: seq<int>, p: Prepared, capital: real, costs: Costs, i: nat): real
    requires Fits(position, p, costs) && i < |position|
  {
    var l := LedgerAfter(position, p, capital, costs, i + 1);
    l.cash + l.quantity * p.closes[i]
  }

  lemma EquityAtBar(position: seq<int>, p: Prepared, capital: real, costs: Costs, i: nat)
    requires Fits(position, p, costs) && i < |position|
    ensures SimulateSpec(position, p, capital, costs).equity[i] == ValueAt(position, p, capital, costs, i)
  {
    CurveIsOk(position, p, capital, costs, |position|);
    FilledIsLedger(position, p, capital, costs, i);
  }

  lemma EquityEnds(position: seq<int>, p: Prepared, capital: real, costs: Costs)
    requires Fits(position, p, costs)
    ensures ValueAt(position, p, capital, costs, 0) == capital
    ensures ValueAt(position, p, capital, costs, |position| - 1) == SimulateSpec(position, p, capital, costs).finalCash
  {
    FirstBar(position, p, capital, costs);
  }

  /** The sparse event list, reindexed and forward-filled, is the ledger's value after each bar, starting at the capital
      and ending at `final_cash`. For every position series. */
  lemma EquityCurveIsLedger(position: seq<int>, p: Prepared, capital: real, costs: Costs)
    requires Fits(position, p, costs)
    ensures
      var r := SimulateSpec(position, p, capital, costs);
      && |r.equity| == |position|
      && (forall i :: 0 <= i < |position| ==> r.equity[i] == ValueAt(position, p, capital, costs, i))
      && r.equity[|position| - 1] == r.finalCash
      && r.equity[0] == capital
  {
    forall i | 0 <= i < |position|
      ensures SimulateSpec(position, p, capital, costs).equity[i] == ValueAt(position, p, capital, costs, i)
    {
      EquityAtBar(position, p, capital, costs, i);
    }
    EquityEnds(position, p, capital, costs);
  }

  /** The event list can be reindexed: no timestamp occurs in it twice. */
  lemma CurveTimesDistinct(position: seq<int>, p: Prepared, capital: real, costs: Costs)
    requires Fits(position, p, costs)
    ensures
      var curve := LedgerAfter(position, p, capital, costs, |position|).curve;
      forall i, j :: 0 <= i < j < |curve| ==> curve[i].ts < curve[j].ts
  {
    CurveIsOk(position, p, capital, costs, |position|);
  }

  // ---------- the ledger invariant ----------

  /** Rates between nothing and everything, both included. */
  ghost predicate Charges(costs: Costs) {
    0.0 <= costs.fee <= 1.0 && 0.0 <= costs.slippage <= 1.0
  }

  function PnlSum(trades: seq<Trade>): real {
    if trades == [] then 0.0
    else PnlSum(trades[..|trades| - 1]) + if trades[|trades| - 1].pnl.Some? then trades[|trades| - 1].pnl.value else 0.0
  }

  function FeeSum(trades: seq<Trade>): real {
    if trades == [] then 0.0 else FeeSum(trades[..|trades| - 1]) + trades[|trades| - 1].fees
  }

  lemma SumsAppend(trades: seq<Trade>, t: Trade)
    ensures FeeSum(trades + [t]) == FeeSum(trades) + t.fees
    ensures PnlSum(trades + [t]) == PnlSum(trades) + if t.pnl.Some? then t.pnl.value else 0.0
  {
    assert (trades + [t])[..|trades|] == trades;
  }

  /** A finished round trip. */
  predicate Closed(t: Trade) {
    t.entryTs.Some? && t.exitTs.Some? && t.entryPrice.Some? && t.exitPrice.Some? && t.pnl.Some?
    && t.entryTs.value < t.exitTs.value
  }

  /** Round trips that do not overlap, all finished by `last`. */
  ghost predicate Alternates(trades: seq<Trade>, last: int) {
    && (forall i :: 0 <= i < |trades| ==> Closed(trades[i]) && trades[i].exitTs.value <= last)
    && (forall i :: 1 <= i < |trades| ==> InOrder(trades, i))
  }

  /** Trade `i` starts after the one before it ended. */
  predicate InOrder(trades: seq<Trade>, i: nat)
    requires 1 <= i < |trades|
  {
    Closed(trades[i - 1]) && trades[i].entryTs.Some? && trades[i - 1].exitTs.value < trades[i].entryTs.value
  }

  ghost predicate LedgerOk(l: Ledger, position: int, capital: real, last: int) {
    && l.isOpen == (position == 1) && l.cash >= 0.0 && l.quantity >= 0.0
    && (l.isOpen ==>
          && l.cash == 0.0 && l.entryTs.Some? && l.entryPrice.Some? && l.entryPrice.value > 0.0
          && l.entryTs.value <= last && l.cashAtEntry >= 0.0
          && (l.trades != [] && l.trades[|l.trades| - 1].exitTs.Some? ==>
                l.trades[|l.trades| - 1].exitTs.value < l.entryTs.value))
    && (!l.isOpen ==> l.quantity == 0.0 && l.entryFee == 0.0)
    && Alternates(l.trades, last)
    && capital + PnlSum(l.trades) == (if l.isOpen then l.cashAtEntry else l.cash)
    && l.totalFees == FeeSum(l.trades) + l.entryFee
  }

  /** What one buy leaves behind: cash that does not reach the next 1e-8 of the asset, at its fill price. */
  datatype Remainder = Remainder(dust: real, fill: real)

  function Dust(cash: real, price: real, costs: Costs): real
    requires price > 0.0 && costs.slippage != -1.0
  {
    cash - ExecuteBuy(cash, price, costs).1 - ExecuteBuy(cash, price, costs).0 * BuyFill(price, costs)
  }

  /** Less than 1e-8 of the asset at the fill price. */
  predicate DustBound(r: Remainder) {
    0.0 <= r.dust && r.dust * SCALE < r.fill
  }

  lemma QuantizeBounds(x: real)
    requires x >= 0.0
    ensures 0.0 <= Quantize(x) <= x && (x - Quantize(x)) * SCALE < 1.0
  {
    var y := x * SCALE;
    assert y.Floor as real <= y < y.Floor as real + 1.0;
    assert y.Floor >= 0;
    assert Quantize(x) * SCALE == y.Floor as real;
  }

  lemma SpendBounds(cash: real, fee: real)
    requires cash >= 0.0 && 0.0 <= fee <= 1.0
    ensures 0.0 <= cash * fee <= cash && cash - cash * fee == cash * (1.0 - fee)
  {
    assert cash * (1.0 - fee) >= 0.0;
  }

  /** Rounding a quotient down leaves less than 1e-8 of the divisor. */
  lemma RoundedQuotient(spend: real, fill: real)
    requires spend >= 0.0 && fill > 0.0
    ensures Quantize(spend / fill) >= 0.0
    ensures 0.0 <= spend - Quantize(spend / fill) * fill
    ensures (spend - Quantize(spend / fill) * fill) * SCALE < fill
  {
    var x := spend / fill;
    assert x * fill == spend;
    assert x >= 0.0;
    QuantizeBounds(x);
    var d := x - Quantize(x);
    var rest := spend - Quantize(x) * fill;
    assert rest == d * fill;
    ScaledProduct(d, fill, SCALE, rest);
  }

  lemma ScaledProduct(d: real, fill: real, scale: real, rest: real)
    requires 0.0 <= d && d * scale < 1.0 && fill > 0.0 && rest == d * fill
    ensures 0.0 <= rest && rest * scale < fill
  {
    var e := 1.0 - d * scale;
    assert e * fill > 0.0;
    assert e * fill == fill - (d * scale) * fill;
    assert rest * scale == (d * scale) * fill;
  }

  lemma FillPositive(price: real, costs: Costs)
    requires price > 0.0 && Charges(costs)
    ensures BuyFill(price, costs) > 0.0 && SellFill(price, costs) >= 0.0
  {
  }

  lemma BuyQuantity(cash: real, price: real, costs: Costs) returns (spend: real, fill: real)
    requires cash >= 0.0 && price > 0.0 && Charges(costs)
    ensures spend == cash - ExecuteBuy(cash, price, costs).1 && spend >= 0.0
    ensures fill == BuyFill(price, costs) > 0.0
    ensures ExecuteBuy(cash, price, costs).0 == Quantize(spend / fill)
  {
    spend, fill := cash - cash * costs.fee, BuyFill(price, costs);
    SpendBounds(cash, costs.fee);
  }

  lemma BuyBounds(cash: real, price: real, costs: Costs)
    requires cash >= 0.0 && price > 0.0 && Charges(costs)
    ensures ExecuteBuy(cash, price, costs).0 >= 0.0
    ensures DustBound(Remainder(Dust(cash, price, costs), BuyFill(price, costs)))
  {
    var spend, fill := BuyQuantity(cash, price, costs);
    RoundedQuotient(spend, fill);
  }

  lemma SellBounds(quantity: real, price: real, costs: Costs)
    requires quantity >= 0.0 && price > 0.0 && Charges(costs)
    ensures ExecuteSell(quantity, price, costs).0 >= 0.0 && ExecuteSell(quantity, price, costs).1 >= 0.0
  {
    FillPositive(price, costs);
    var proceeds := quantity * SellFill(price, costs);
    assert proceeds >= 0.0;
    SpendBounds(proceeds, costs.fee);
  }

  /** Time passes. */
  lemma OkLater(l: Ledger, position: int, capital: real, last: int, later: int)
    requires LedgerOk(l, position, capital, last) && last <= later
    ensures LedgerOk(l, position, capital, later)
  {
  }

  lemma BuyKeepsOk(l: Ledger, capital: real, last: int, ts: int, price: real, costs: Costs)
    requires LedgerOk(l, 0, capital, last) && last < ts && price > 0.0 && Charges(costs)
    ensures LedgerOk(Buy(l, ts, price, costs), 1, capital, ts)
  {
    BuyBounds(l.cash, price, costs);
  }

  lemma SellKeepsOk(l: Ledger, capital: real, last: int, ts: int, price: real, costs: Costs)
    requires LedgerOk(l, 1, capital, last) && last < ts && price > 0.0 && Charges(costs)
    ensures LedgerOk(Sell(l, ts, price, costs), 0, capital, ts)
  {
    SellBounds(l.quantity, price, costs);
    var l' := Sell(l, ts, price, costs);
    SumsAppend(l.trades, l'.trades[|l.trades|]);
    assert forall i :: 1 <= i < |l.trades| ==> InOrder(l.trades, i) ==> InOrder(l'.trades, i);
  }

  lemma {:induction false} LedgerIsOk(position: seq<int>, p: Prepared, capital: real, costs: Costs, n: nat)
    requires Fits(position, p, costs) && IsSignal(position) && Charges(costs) && capital >= 0.0 && 1 <= n <= |position|
    ensures LedgerOk(LedgerAfter(position, p, capital, costs, n), position[n - 1], capital, p.index[n - 1])
  {
    if n == 1 {
      FirstBar(position, p, capital, costs);
    } else {
      LedgerIsOk(position, p, capital, costs, n - 1);
      var l := LedgerAfter(position, p, capital, costs, n - 1);
      var ts := p.index[n - 1];
      assert p.index[n - 2] < ts;
      if position[n - 2] == 0 && position[n - 1] == 1 {
        BuyKeepsOk(l, capital, p.index[n - 2], ts, p.prices[ts], costs);
      } else if position[n - 2] == 1 && position[n - 1] == 0 {
        SellKeepsOk(l, capital, p.index[n - 2], ts, p.prices[ts], costs);
      } else {
        OkLater(l, position[n - 1], capital, p.index[n - 2], ts);
      }
    }
  }

  /** The trade list as a whole: pnl telescopes to the money held at the last flat moment, the fees of the listed trades
      are all the fees, and buys and sells alternate. */
  lemma TradesAddUp(position: seq<int>, p: Prepared, capital: real, costs: Costs)
    requires Fits(position, p, costs) && IsSignal(position) && Charges(costs) && capital >= 0.0
    ensures
      var l := LedgerAfter(position, p, capital, costs, |position|);
      var r := SimulateSpec(position, p, capital, costs);
      && l.isOpen == (position[|position| - 1] == 1)
      && capital + PnlSum(r.trades) == (if l.isOpen then l.cashAtEntry else r.finalCash)
      && r.totalFees == FeeSum(r.trades)
      && (forall i :: 1 <= i < |r.trades| ==> InOrder(r.trades, i))
  {
    LedgerIsOk(position, p, capital, costs, |position|);
    var l := LedgerAfter(position, p, capital, costs, |position|);
    if l.isOpen {
      var t := Trade(l.entryTs, None, l.entryPrice, None, l.entryFee, None);
      SumsAppend(l.trades, t);
      assert forall i :: 1 <= i < |l.trades| ==> InOrder(l.trades, i) ==> InOrder(l.trades + [t], i);
    } else {
      assert l.trades + [] == l.trades;
    }
  }

  /** The equity is never negative, and the capital is its first value. */
  lemma EquityNonNegative(position: seq<int>, p: Prepared, capital: real, costs: Costs)
    requires Fits(position, p, costs) && IsSignal(position) && Charges(costs) && capital >= 0.0
    ensures
      var equity := SimulateSpec(position, p, capital, costs).equity;
      |equity| == |position| && equity[0] == capital && forall i :: 0 <= i < |equity| ==> equity[i] >= 0.0
  {
    EquityCurveIsLedger(position, p, capital, costs);
    forall i | 0 <= i < |position|
      ensures SimulateSpec(position, p, capital, costs).equity[i] >= 0.0
    {
      LedgerIsOk(position, p, capital, costs, i + 1);
      EquityAtBar(position, p, capital, costs, i);
      ProductMonotone(LedgerAfter(position, p, capital, costs, i + 1).quantity, 0.0, p.closes[i], 0.0);
    }
  }

  /** The recorded prices are the opens at the recorded times. */
  predicate Priced(t: Trade, prices: map<int, real>) {
    && t.entryTs.Some? && t.entryTs.value in prices && t.entryPrice == Some(prices[t.entryTs.value])
    && (t.exitTs.Some? ==> t.exitTs.value in prices && t.exitPrice == Some(prices[t.exitTs.value]))
  }

  ghost predicate HasPrices(l: Ledger, long: bool, prices: map<int, real>) {
    && (long ==> l.entryTs.Some? && l.entryTs.value in prices && l.entryPrice == Some(prices[l.entryTs.value]))
    && (forall i :: 0 <= i < |l.trades| ==> Priced(l.trades[i], prices))
  }

  lemma SellKeepsPrices(l: Ledger, ts: int, costs: Costs, prices: map<int, real>)
    requires HasPrices(l, true, prices) && ts in prices
    ensures HasPrices(Sell(l, ts, prices[ts], costs), false, prices)
  {
  }

  lemma {:induction false} LedgerPriced(position: seq<int>, p: Prepared, capital: real, costs: Costs, n: nat)
    requires Fits(position, p, costs) && IsSignal(position) && 1 <= n <= |position|
    ensures HasPrices(LedgerAfter(position, p, capital, costs, n), position[n - 1] == 1, p.prices)
  {
    if n == 1 {
      FirstBar(position, p, capital, costs);
    } else {
      LedgerPriced(position, p, capital, costs, n - 1);
      if Change(position, n - 1) == Some(-1) {
        SellKeepsPrices(LedgerAfter(position, p, capital, costs, n - 1), p.index[n - 1], costs, p.prices);
      }
    }
  }

  /** Every listed trade was filled at the opens of its entry and exit bars. */
  lemma TradesPriced(position: seq<int>, p: Prepared, capital: real, costs: Costs)
    requires Fits(position, p, costs) && IsSignal(position) && Charges(costs) && capital >= 0.0
    ensures
      var trades := SimulateSpec(position, p, capital, costs).trades;
      forall i :: 0 <= i < |trades| ==> Priced(trades[i], p.prices)
  {
    LedgerPriced(position, p, capital, costs, |position|);
    OpenIffLong(position, p, capital, costs);
  }

  lemma OpenIffLong(position: seq<int>, p: Prepared, capital: real, costs: Costs)
    requires Fits(position, p, costs) && IsSignal(position) && Charges(costs) && capital >= 0.0
    ensures LedgerAfter(position, p, capital, costs, |position|).isOpen == (position[|position| - 1] == 1)
  {
    LedgerIsOk(position, p, capital, costs, |position|);
  }

  /** `ts` is the time of bar `k` or of a later one. */
  ghost predicate AtBarFrom(ts: Option<int>, p: Prepared, k: nat) {
    ts.Some? && exists i :: k <= i < |p.index| && p.index[i] == ts.value
  }

  ghost predicate EntersFrom(l: Ledger, p: Prepared, k: nat) {
    && (l.isOpen ==> AtBarFrom(l.entryTs, p, k))
    && forall i :: 0 <= i < |l.trades| ==> AtBarFrom(l.trades[i].entryTs, p, k)
  }

  lemma {:induction false} LedgerEnters(position: seq<int>, p: Prepared, capital: real, costs: Costs, k: nat, n: nat)
    requires Fits(position, p, costs) && IsSignal(position) && Charges(costs) && capital >= 0.0 && 1 <= n <= |position|
    requires forall i :: 0 <= i < |position| && position[i] == 1 ==> k <= i
    ensures EntersFrom(LedgerAfter(position, p, capital, costs, n), p, k)
  {
    if n == 1 {
      FirstBar(position, p, capital, costs);
    } else {
      LedgerEnters(position, p, capital, costs, k, n - 1);
      LedgerIsOk(position, p, capital, costs, n - 1);
      if Change(position, n - 1) == Some(1) {
        assert k <= n - 1 && AtBarFrom(Some(p.index[n - 1]), p, k);
      }
    }
  }

  /** No trade is entered before the first bar whose position is long. */
  lemma TradesEnterFrom(position: seq<int>, p: Prepared, capital: real, costs: Costs, k: nat)
    requires Fits(position, p, costs) && IsSignal(position) && Charges(costs) && capital >= 0.0
    requires forall i :: 0 <= i < |position| && position[i] == 1 ==> k <= i
    ensures
      var trades := SimulateSpec(position, p, capital, costs).trades;
      forall i :: 0 <= i < |trades| ==> AtBarFrom(trades[i].entryTs, p, k)
  {
    LedgerEnters(position, p, capital, costs, k, |position|);
  }

  /** A 0/1 series that does not start flat. */
  ghost predicate StartsLong(position: seq<int>) {
    position != [] && position[0] == 1 && forall i :: 0 <= i < |position| ==> position[i] == 0 || position[i] == 1
  }

  ghost predicate StaysLong(position: seq<int>, n: nat)
    requires n <= |position|
  {
    forall i :: 0 <= i < n ==> position[i] == 1
  }

  /** Nothing is bought with no cash. */
  lemma NothingForNothing(price: real, costs: Costs)
    requires price > 0.0 && costs.slippage != -1.0
    ensures ExecuteBuy(0.0, price, costs) == (0.0, 0.0) && ExecuteSell(0.0, price, costs) == (0.0, 0.0)
  {
    var fill := BuyFill(price, costs);
    assert 0.0 / fill == 0.0;
    assert Quantize(0.0) == 0.0;
  }

  lemma {:induction false} LongFromTheStart(position: seq<int>, p: Prepared, capital: real, costs: Costs, n: nat)
    requires Fits(position, p, costs) && StartsLong(position) && 1 <= n <= |position|
    ensures
      var l := LedgerAfter(position, p, capital, costs, n);
      l.cash == (if StaysLong(position, n) then capital else 0.0) && l.quantity == 0.0 && l.totalFees == 0.0
  {
    if n == 1 {
      FirstBar(position, p, capital, costs);
    } else {
      LongFromTheStart(position, p, capital, costs, n - 1);
      NothingForNothing(p.prices[p.index[n - 1]], costs);
    }
  }

  /** Why the signal has to start flat: a 0/1 series that starts long never bought, so its first exit sells nothing and
      wipes out the capital, and nothing is bought or paid afterwards. The capital survives exactly if the series never
      exits. */
  lemma StartingLongLosesAll(position: seq<int>, p: Prepared, capital: real, costs: Costs)
    requires Fits(position, p, costs) && StartsLong(position)
    ensures
      var r := SimulateSpec(position, p, capital, costs);
      && r.finalCash == (if forall i :: 0 <= i < |position| ==> position[i] == 1 then capital else 0.0)
      && r.totalFees == 0.0
  {
    LongFromTheStart(position, p, capital, costs, |position|);
  }

  /** The shortest such series: long, then flat. */
  lemma LongThenFlat(p: Prepared, capital: real, costs: Costs)
    requires Usable(p) && |p.index| == 2 && costs.slippage != -1.0
    ensures Fits([1, 0], p, costs) && SimulateSpec([1, 0], p, capital, costs).finalCash == 0.0
  {
    StartingLongLosesAll([1, 0], p, capital, costs);
    assert [1, 0][1] == 0;
  }

  // ---------- conservation ----------

  datatype Audit = Audit(gain: real, slippage: real, buys: seq<Remainder>)

  function DustSum(buys: seq<Remainder>): real {
    if buys == [] then 0.0 else DustSum(buys[..|buys| - 1]) + buys[|buys| - 1].dust
  }

  /** The books kept beside the ledger: price gains on what was held, slippage paid, and the remainder of each buy. */
  function AuditBar(a: Audit, l: Ledger, change: Option<int>, price: real, costs: Costs): Audit
    requires price > 0.0 && costs.slippage != -1.0
  {
    if change == Some(1) then
      Audit(a.gain, a.slippage + ExecuteBuy(l.cash, price, costs).0 * price * costs.slippage,
        a.buys + [Remainder(Dust(l.cash, price, costs), BuyFill(price, costs))])
    else if change == Some(-1) then
      var entry := if l.entryPrice.Some? then l.entryPrice.value else price;
      Audit(a.gain + l.quantity * (price - entry), a.slippage + l.quantity * price * costs.slippage, a.buys)
    else a
  }

  function AuditAfter(position: seq<int>, p: Prepared, capital: real, costs: Costs, n: nat): Audit
    requires Fits(position, p, costs) && n <= |position|
  {
    if n == 0 then Audit(0.0, 0.0, [])
    else
      AuditBar(AuditAfter(position, p, capital, costs, n - 1), LedgerAfter(position, p, capital, costs, n - 1),
        Change(position, n - 1), p.prices[p.index[n - 1]], costs)
  }

  /** Holdings at their entry price, or else cash. */
  function BookValue(l: Ledger): real {
    if l.isOpen && l.entryPrice.Some? then l.quantity * l.entryPrice.value else l.cash
  }

  function OpenGain(l: Ledger, close: real): real {
    if l.isOpen && l.entryPrice.Some? then l.quantity * (close - l.entryPrice.value) else 0.0
  }

  ghost predicate Balanced(l: Ledger, a: Audit, capital: real) {
    && capital + a.gain ==
       BookValue(l) + l.totalFees + a.slippage + DustSum(a.buys)
    && (forall i :: 0 <= i < |a.buys| ==> DustBound(a.buys[i]))
  }

  /** Where the cash of a buy goes: fee, the asset at its price, slippage on it, and dust. */
  lemma BuyAddsUp(cash: real, price: real, costs: Costs)
    requires price > 0.0 && costs.slippage != -1.0
    ensures
      var q := ExecuteBuy(cash, price, costs).0;
      cash == ExecuteBuy(cash, price, costs).1 + q * price + q * price * costs.slippage + Dust(cash, price, costs)
  {
    FillAddsUp(ExecuteBuy(cash, price, costs).0, price, costs.slippage);
  }

  lemma FillAddsUp(q: real, price: real, slippage: real)
    ensures q * (price * (1.0 + slippage)) == q * price + q * price * slippage
  {
  }

  lemma BuyBalances(l: Ledger, a: Audit, capital: real, ts: int, price: real, costs: Costs)
    requires Balanced(l, a, capital) && !l.isOpen && l.cash >= 0.0 && price > 0.0 && Charges(costs)
    ensures Balanced(Buy(l, ts, price, costs), AuditBar(a, l, Some(1), price, costs), capital)
  {
    BuyBounds(l.cash, price, costs);
    BuyAddsUp(l.cash, price, costs);
    var a' := AuditBar(a, l, Some(1), price, costs);
    assert a'.buys[..|a.buys|] == a.buys;
  }

  lemma SellBalances(l: Ledger, a: Audit, capital: real, ts: int, price: real, costs: Costs)
    requires Balanced(l, a, capital) && l.isOpen && l.entryPrice.Some? && price > 0.0 && costs.slippage != -1.0
    ensures Balanced(Sell(l, ts, price, costs), AuditBar(a, l, Some(-1), price, costs), capital)
  {
    var q, entry := l.quantity, l.entryPrice.value;
    assert q * (price - entry) == q * price - q * entry;
    assert q * SellFill(price, costs) == q * price - q * price * costs.slippage;
  }

  lemma {:induction false} BooksBalance(position: seq<int>, p: Prepared, capital: real, costs: Costs, n: nat)
    requires Fits(position, p, costs) && IsSignal(position) && Charges(costs) && capital >= 0.0 && 1 <= n <= |position|
    ensures Balanced(LedgerAfter(position, p, capital, costs, n), AuditAfter(position, p, capital, costs, n), capital)
  {
    if n == 1 {
      FirstBar(position, p, capital, costs);
      assert AuditAfter(position, p, capital, costs, 0) == Audit(0.0, 0.0, []);
    } else {
      BooksBalance(position, p, capital, costs, n - 1);
      LedgerIsOk(position, p, capital, costs, n - 1);
      var l := LedgerAfter(position, p, capital, costs, n - 1);
      var a := AuditAfter(position, p, capital, costs, n - 1);
      var ts := p.index[n - 1];
      if Change(position, n - 1) == Some(1) {
        BuyBalances(l, a, capital, ts, p.prices[ts], costs);
      } else if Change(position, n - 1) == Some(-1) {
        SellBalances(l, a, capital, ts, p.prices[ts], costs);
      }
    }
  }

  /** Value is conserved over any run: the capital plus the price gains on what was held (an open position valued at the
      final close) is the final cash plus all fees, all slippage and the dust of rounding down, and each buy's dust is
      less than 1e-8 of the asset at its fill price. */
  lemma Conservation(position: seq<int>, p: Prepared, capital: real, costs: Costs)
    requires Fits(position, p, costs) && IsSignal(position) && Charges(costs) && capital >= 0.0
    ensures
      var r := SimulateSpec(position, p, capital, costs);
      var l := LedgerAfter(position, p, capital, costs, |position|);
      var a := AuditAfter(position, p, capital, costs, |position|);
      && capital + a.gain + OpenGain(l, p.finalClose) == r.finalCash + r.totalFees + a.slippage + DustSum(a.buys)
      && (forall i :: 0 <= i < |a.buys| ==> DustBound(a.buys[i]))
  {
    BooksBalance(position, p, capital, costs, |position|);
    EndsSettled(position, p, capital, costs);
    FinalValue(LedgerAfter(position, p, capital, costs, |position|), p);
  }

  /** All in the asset, bought at a known price, or all in cash. */
  predicate Settled(l: Ledger) {
    if l.isOpen then l.cash == 0.0 && l.entryPrice.Some? else l.quantity == 0.0
  }

  lemma OkIsSettled(l: Ledger, position: int, capital: real, last: int)
    requires LedgerOk(l, position, capital, last)
    ensures Settled(l)
  {
  }

  lemma EndsSettled(position: seq<int>, p: Prepared, capital: real, costs: Costs)
    requires Fits(position, p, costs) && IsSignal(position) && Charges(costs) && capital >= 0.0
    ensures Settled(LedgerAfter(position, p, capital, costs, |position|))
  {
    LedgerIsOk(position, p, capital, costs, |position|);
    OkIsSettled(LedgerAfter(position, p, capital, costs, |position|), position[|position| - 1], capital,
      p.index[|position| - 1]);
  }

  lemma GainOf(q: real, close: real, entry: real)
    ensures q * close == q * entry + q * (close - entry)
  {
  }

  lemma FinalValue(l: Ledger, p: Prepared)
    requires Settled(l) && |p.closes| == |p.index|
    ensures Simulation.Result(l, p).finalCash == BookValue(l) + OpenGain(l, p.finalClose)
  {
    if l.isOpen {
      GainOf(l.quantity, p.finalClose, l.entryPrice.value);
    }
  }

  // ---------- cost monotonicity ----------

  /** The better-off ledger. */
  ghost predicate Dominates(a: Ledger, b: Ledger) {
    a.cash >= b.cash >= 0.0 && a.quantity >= b.quantity >= 0.0
  }

  ghost predicate Cheaper(a: Costs, b: Costs) {
    a.fee <= b.fee && a.slippage <= b.slippage
  }

  lemma QuantizeMonotone(x: real, y: real)
    requires 0.0 <= x <= y
    ensures 0.0 <= Quantize(x) <= Quantize(y)
  {
    assert (x * SCALE).Floor <= (y * SCALE).Floor;
  }

  lemma FactorMonotone(x: real, y: real, c: real, d: real)
    requires x * c >= y * d >= 0.0 && 0.0 < c <= d
    ensures x >= y >= 0.0
  {
    CancelLess(y, 0.0, d);
    var t := d - c;
    assert y * t >= 0.0;
    assert y * d == y * c + y * t;
    CancelLess(x, y, c);
  }

  lemma QuotientMonotone(a: real, b: real, c: real, d: real)
    requires a >= b >= 0.0 && 0.0 < c <= d
    ensures a / c >= b / d >= 0.0
  {
    var x, y := a / c, b / d;
    assert x * c == a;
    assert y * d == b;
    FactorMonotone(x, y, c, d);
  }

  lemma ProductMonotone(a: real, b: real, c: real, d: real)
    requires a >= b >= 0.0 && c >= d >= 0.0
    ensures a * c >= b * d >= 0.0
  {
    assert a * c >= b * c;
    assert b * c >= b * d;
  }

  lemma FillMonotone(price: real, a: Costs, b: Costs)
    requires price > 0.0 && Charges(a) && Charges(b) && Cheaper(a, b)
    ensures 0.0 < BuyFill(price, a) <= BuyFill(price, b)
    ensures SellFill(price, a) >= SellFill(price, b) >= 0.0
  {
    ProductMonotone(price, price, 1.0 + b.slippage, 1.0 + a.slippage);
    ProductMonotone(price, price, 1.0 - a.slippage, 1.0 - b.slippage);
    FillPositive(price, a);
  }

  lemma SpendMonotone(cashA: real, cashB: real, a: Costs, b: Costs)
    requires cashA >= cashB >= 0.0 && Charges(a) && Charges(b) && Cheaper(a, b)
    ensures cashA - cashA * a.fee >= cashB - cashB * b.fee >= 0.0
  {
    ProductMonotone(cashA, cashB, 1.0 - a.fee, 1.0 - b.fee);
    SpendBounds(cashA, a.fee);
    SpendBounds(cashB, b.fee);
  }

  lemma BuyMonotone(cashA: real, cashB: real, price: real, a: Costs, b: Costs)
    requires cashA >= cashB >= 0.0 && price > 0.0 && Charges(a) && Charges(b) && Cheaper(a, b)
    ensures ExecuteBuy(cashA, price, a).0 >= ExecuteBuy(cashB, price, b).0 >= 0.0
  {
    var spendA, fillA := BuyQuantity(cashA, price, a);
    var spendB, fillB := BuyQuantity(cashB, price, b);
    FillMonotone(price, a, b);
    SpendMonotone(cashA, cashB, a, b);
    RoundedQuotientMonotone(spendA, spendB, fillA, fillB);
  }

  lemma RoundedQuotientMonotone(a: real, b: real, c: real, d: real)
    requires a >= b >= 0.0 && 0.0 < c <= d
    ensures Quantize(a / c) >= Quantize(b / d) >= 0.0
  {
    QuotientMonotone(a, b, c, d);
    QuantizeMonotone(b / d, a / c);
  }

  lemma SellMonotone(qA: real, qB: real, price: real, a: Costs, b: Costs)
    requires qA >= qB >= 0.0 && price > 0.0 && Charges(a) && Charges(b) && Cheaper(a, b)
    ensures ExecuteSell(qA, price, a).0 >= ExecuteSell(qB, price, b).0 >= 0.0
  {
    FillMonotone(price, a, b);
    var fillA, fillB := SellFill(price, a), SellFill(price, b);
    ProductMonotone(qA, qB, fillA, fillB);
    SpendMonotone(qA * fillA, qB * fillB, a, b);
  }

  lemma {:induction false} LedgersDominate(position: seq<int>, p: Prepared, capitalA: real, capitalB: real,
                                           a: Costs, b: Costs, n: nat)
    requires Fits(position, p, a) && Fits(position, p, b) && Charges(a) && Charges(b) && Cheaper(a, b)
    requires capitalA >= capitalB >= 0.0 && n <= |position|
    ensures Dominates(LedgerAfter(position, p, capitalA, a, n), LedgerAfter(position, p, capitalB, b, n))
  {
    if n == 0 {
    } else {
      LedgersDominate(position, p, capitalA, capitalB, a, b, n - 1);
      var l, m := LedgerAfter(position, p, capitalA, a, n - 1), LedgerAfter(position, p, capitalB, b, n - 1);
      var price := p.prices[p.index[n - 1]];
      BuyMonotone(l.cash, m.cash, price, a, b);
      SellMonotone(l.quantity, m.quantity, price, a, b);
    }
  }

  lemma EquityDominates(position: seq<int>, p: Prepared, capitalA: real, capitalB: real, a: Costs, b: Costs, i: nat)
    requires Fits(position, p, a) && Fits(position, p, b) && Charges(a) && Charges(b) && Cheaper(a, b)
    requires capitalA >= capitalB >= 0.0 && i < |position|
    ensures SimulateSpec(position, p, capitalA, a).equity[i] >= SimulateSpec(position, p, capitalB, b).equity[i]
  {
    EquityAtBar(position, p, capitalA, a, i);
    EquityAtBar(position, p, capitalB, b, i);
    LedgersDominate(position, p, capitalA, capitalB, a, b, i + 1);
    ProductMonotone(LedgerAfter(position, p, capitalA, a, i + 1).quantity,
      LedgerAfter(position, p, capitalB, b, i + 1).quantity, p.closes[i], p.closes[i]);
  }

  /** Cost monotonicity: on the same prices and positions, a higher fee rate, higher slippage or less capital never
      raises the final cash, nor the equity at any bar, although quantities are rounded down on the way. */
  lemma CostMonotonicity(position: seq<int>, p: Prepared, capitalA: real, capitalB: real, a: Costs, b: Costs)
    requires Fits(position, p, a) && Fits(position, p, b) && Charges(a) && Charges(b) && Cheaper(a, b)
    requires capitalA >= capitalB >= 0.0
    ensures
      var ra := SimulateSpec(position, p, capitalA, a);
      var rb := SimulateSpec(position, p, capitalB, b);
      && ra.finalCash >= rb.finalCash && |ra.equity| == |rb.equity|
      && forall i :: 0 <= i < |ra.equity| ==> ra.equity[i] >= rb.equity[i]
  {
    forall i | 0 <= i < |position|
      ensures SimulateSpec(position, p, capitalA, a).equity[i] >= SimulateSpec(position, p, capitalB, b).equity[i]
    {
      EquityDominates(position, p, capitalA, capitalB, a, b, i);
    }
    EquityCurveIsLedger(position, p, capitalA, a);
    EquityCurveIsLedger(position, p, capitalB, b);
  }

  // ---------- looking back only ----------

  /** The first `n` bars have the same positions, timestamps and opens. */
  ghost predicate SameBars(v: seq<int>, w: seq<int>, p: Prepared, q: Prepared, costs: Costs, n: nat)
    requires Fits(v, p, costs) && Fits(w, q, costs) && n <= |v| && n <= |w|
  {
    forall i :: 0 <= i < n ==>
      v[i] == w[i] && p.index[i] == q.index[i] && p.prices[p.index[i]] == q.prices[q.index[i]]
  }

  lemma SameChange(v: seq<int>, w: seq<int>, p: Prepared, q: Prepared, costs: Costs, n: nat)
    requires Fits(v, p, costs) && Fits(w, q, costs) && n < |v| && n < |w| && SameBars(v, w, p, q, costs, n + 1)
    ensures Change(v, n) == Change(w, n) && p.index[n] == q.index[n]
    ensures p.prices[p.index[n]] == q.prices[q.index[n]] && SameBars(v, w, p, q, costs, n)
  {
  }

  /** The ledger after `n` bars is decided by the positions, timestamps and opens of those bars. */
  lemma {:induction false} LedgerLooksBack(v: seq<int>, w: seq<int>, p: Prepared, q: Prepared,
                                           capital: real, costs: Costs, n: nat)
    requires Fits(v, p, costs) && Fits(w, q, costs) && n <= |v| && n <= |w|
    requires SameBars(v, w, p, q, costs, n) && p.index[0] == q.index[0]
    ensures LedgerAfter(v, p, capital, costs, n) == LedgerAfter(w, q, capital, costs, n)
  {
    if n == 0 {
    } else {
      SameChange(v, w, p, q, costs, n - 1);
      LedgerLooksBack(v, w, p, q, capital, costs, n - 1);
    }
  }

  /** Closed trades are never taken back. */
  lemma {:induction false} TradesOnlyGrow(position: seq<int>, p: Prepared, capital: real, costs: Costs, m: nat, n: nat)
    requires Fits(position, p, costs) && m <= n <= |position|
    ensures LedgerAfter(position, p, capital, costs, m).trades <= LedgerAfter(position, p, capital, costs, n).trades
  {
    if m == n {
    } else {
      TradesOnlyGrow(position, p, capital, costs, m, n - 1);
    }
  }
}
