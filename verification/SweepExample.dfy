/** A concrete sweep that chooses windows in-sample and then raises out-of-sample. */
module SweepExample {
  import opened Market
  import opened Frame
  import opened Indicators
  import opened Signals
  import opened Simulation
  import Ledgers
  import Metrics
  import opened Runner
  import opened Sweep
  import opened SweepSafety

  /** Minute candles whose price alternates between 1 and 2. */
  function Zigzag(n: nat): (candles: seq<Candle>)
    ensures |candles| == n
  {
    seq(n, i requires 0 <= i < n =>
      var price := if i % 2 == 0 then 1.0 else 2.0;
      Candle("BTCUSDT", i * MINUTE, price, price, price, price, 1.0))
  }

  lemma ZigzagPrepares(n: nat)
    requires n > 0
    ensures Prepare(Zigzag(n), MINUTE, false).Ok?
  {
    AcceptedIff(Zigzag(n), MINUTE, false);
  }

  lemma ShortMeans(values: seq<real>, i: nat)
    requires 2 <= i <= |values|
    ensures Mean(values[i - 1..i]) == values[i - 1]
    ensures Mean(values[i - 2..i]) == (values[i - 2] + values[i - 1]) / 2.0
  {
    var one, two := values[i - 1..i], values[i - 2..i];
    assert one[..0] == [] && two[..1] == [values[i - 2]] && two[..1][..0] == [];
    assert Sum(one) == values[i - 1];
    assert Sum(two[..1]) == values[i - 2];
  }

  /** With windows 1 and 2 the strategy is long at every even bar from 2 on. */
  ghost predicate LongAtEven(position: seq<int>) {
    forall i :: 0 <= i < |position| ==> (position[i] == 1 <==> i >= 2 && i % 2 == 0)
  }

  lemma AlternatingPosition(values: seq<real>)
    requires forall i :: 0 <= i < |values| ==> values[i] == if i % 2 == 0 then 1.0 else 2.0
    requires SmaCrossover(Sma(values, 1).value, Sma(values, 2).value).Ok?
    ensures LongAtEven(SmaCrossover(Sma(values, 1).value, Sma(values, 2).value).value)
  {
    CrossoverIsSignal(values, 1, 2);
    var position := SmaCrossover(Sma(values, 1).value, Sma(values, 2).value).value;
    forall i | 0 <= i < |position|
      ensures position[i] == 1 <==> i >= 2 && i % 2 == 0
    {
      if i >= 2 {
        ShortMeans(values, i);
      }
    }
  }

  lemma ZigzagPosition(n: nat)
    requires Plan(Zigzag(n), MINUTE, Windows(1, 2), false).Ok?
    ensures LongAtEven(Plan(Zigzag(n), MINUTE, Windows(1, 2), false).value.1)
  {
    AlternatingPosition(Closes(Zigzag(n)));
  }

  lemma {:induction false} ZigzagTrades(position: seq<int>, p: Prepared, capital: real, costs: Costs, n: nat)
    requires Fits(position, p, costs) && IsSignal(position) && 2 <= n <= |position|
    requires LongAtEven(position)
    ensures
      var l := LedgerAfter(position, p, capital, costs, n);
      |l.trades| == (n - 2) / 2 && l.isOpen == (position[n - 1] == 1)
  {
    if n == 2 {
      assert LedgerAfter(position, p, capital, costs, 0) == Open(capital, p.index[0]);
      assert LedgerAfter(position, p, capital, costs, 1) == Open(capital, p.index[0]);
    } else {
      ZigzagTrades(position, p, capital, costs, n - 1);
    }
  }

  const SETUP := Setup(MINUTE, 1000.0, [Windows(1, 2)], 0.95, Costs(0.001, 0.001), false)

  lemma ZigzagRuns(n: nat, sharpe: Sharpe)
    requires n >= 2
    ensures RunOn(Zigzag(n), Windows(1, 2), SETUP, sharpe).Ok?
  {
    ZigzagPrepares(n);
    RunsIff(Zigzag(n), MINUTE, 1000.0, Windows(1, 2), SETUP.costs, false, sharpe);
  }

  /** Twelve alternating candles make five trades. */
  lemma FiveTrades()
    ensures TradesOf(Zigzag(12), Windows(1, 2), SETUP) == 5
  {
    ZigzagRuns(12, equity => None);
    PlanIsSound(Zigzag(12), MINUTE, Windows(1, 2), false);
    var (p, position) := Plan(Zigzag(12), MINUTE, Windows(1, 2), false).value;
    ZigzagPosition(12);
    ZigzagTrades(position, p, 1000.0, SETUP.costs, 12);
  }

  /** Prices of 1 at even bars and 2 at odd ones. */
  ghost predicate Alternating(p: Prepared) {
    Usable(p) && forall i :: 0 <= i < |p.index| ==>
      p.closes[i] == (if i % 2 == 0 then 1.0 else 2.0) && p.prices[p.index[i]] == p.closes[i]
  }

  lemma BuysAtOne(cash: real)
    requires cash >= 1000.0
    ensures 990.0 <= 0.99 * cash <= ExecuteBuy(cash, 1.0, SETUP.costs).0
    ensures ExecuteBuy(cash, 1.0, SETUP.costs).0 < cash
  {
    var spend, fill := Ledgers.BuyQuantity(cash, 1.0, SETUP.costs);
    assert spend == 0.999 * cash && fill == 1.001;
    Ledgers.RoundedQuotient(spend, fill);
  }

  lemma SellsAtTwo(quantity: real)
    requires quantity >= 990.0
    ensures ExecuteSell(quantity, 2.0, SETUP.costs).0 >= 1000.0
  {
    assert SellFill(2.0, SETUP.costs) == 1.998;
  }

  /** Every round trip of the strategy earns more than it costs. */
  lemma {:induction false} ZigzagEarns(position: seq<int>, p: Prepared, n: nat)
    requires Fits(position, p, SETUP.costs) && IsSignal(position) && LongAtEven(position) && Alternating(p)
    requires 1 <= n <= |position|
    ensures
      var l := LedgerAfter(position, p, 1000.0, SETUP.costs, n);
      if position[n - 1] == 1 then l.cash == 0.0 && l.quantity >= 990.0 else l.cash >= 1000.0 && l.quantity == 0.0
  {
    if n == 1 {
      Ledgers.FirstBar(position, p, 1000.0, SETUP.costs);
    } else {
      ZigzagEarns(position, p, n - 1);
      var l := LedgerAfter(position, p, 1000.0, SETUP.costs, n - 1);
      if position[n - 1] == 1 {
        BuysAtOne(l.cash);
      } else if position[n - 2] == 1 {
        SellsAtTwo(l.quantity);
      }
    }
  }

  lemma ZigzagPositive(position: seq<int>, p: Prepared, i: nat)
    requires Fits(position, p, SETUP.costs) && IsSignal(position) && LongAtEven(position) && Alternating(p)
    requires i < |position|
    ensures SimulateSpec(position, p, 1000.0, SETUP.costs).equity[i] > 0.0
  {
    Ledgers.EquityAtBar(position, p, 1000.0, SETUP.costs, i);
    ZigzagEarns(position, p, i + 1);
    var l := LedgerAfter(position, p, 1000.0, SETUP.costs, i + 1);
    Ledgers.ProductMonotone(l.quantity, l.quantity, p.closes[i], 1.0);
  }

  lemma ZigzagStarts(position: seq<int>, p: Prepared)
    requires Fits(position, p, SETUP.costs) && IsSignal(position) && LongAtEven(position) && Alternating(p)
    requires |position| >= 3
    ensures
      var equity := SimulateSpec(position, p, 1000.0, SETUP.costs).equity;
      equity[0] == 1000.0 && equity[1] == 1000.0 && equity[2] < 1000.0
  {
    var l := LedgerAfter(position, p, 1000.0, SETUP.costs, 1);
    Ledgers.FirstBar(position, p, 1000.0, SETUP.costs);
    assert LedgerAfter(position, p, 1000.0, SETUP.costs, 2) == l;
    assert LedgerAfter(position, p, 1000.0, SETUP.costs, 3) == Buy(l, p.index[2], 1.0, SETUP.costs);
    Ledgers.EquityAtBar(position, p, 1000.0, SETUP.costs, 0);
    Ledgers.EquityAtBar(position, p, 1000.0, SETUP.costs, 1);
    Ledgers.EquityAtBar(position, p, 1000.0, SETUP.costs, 2);
    BuysAtOne(1000.0);
  }

  lemma TwoReturns(equity: seq<real>)
    requires |equity| >= 3 && equity[0] == 1000.0 && equity[1] == 1000.0 && equity[2] < 1000.0
    requires forall i :: 0 <= i < |equity| ==> equity[i] > 0.0
    ensures Metrics.HasSharpe(equity)
  {
    assert Metrics.ReturnAt(equity, 1) == 0.0;
    assert Metrics.ReturnAt(equity, 2) < 0.0;
  }

  lemma ZigzagAlternates(n: nat)
    requires Prepare(Zigzag(n), MINUTE, false).Ok?
    ensures Alternating(Prepare(Zigzag(n), MINUTE, false).value)
  {
    AcceptedIsUsable(Zigzag(n), MINUTE, false);
  }

  /** So the code's Sharpe ratio of that run is a number: its first return is zero and its second is a loss. */
  lemma ZigzagHasSharpe()
    ensures Metrics.HasSharpe(CurveOf(Zigzag(12), Windows(1, 2), SETUP))
  {
    ZigzagRuns(12, equity => None);
    PlanIsSound(Zigzag(12), MINUTE, Windows(1, 2), false);
    ZigzagAlternates(12);
    ZigzagPosition(12);
    var (p, position) := Plan(Zigzag(12), MINUTE, Windows(1, 2), false).value;
    ZigzagCurve(position, p);
  }

  lemma ZigzagCurve(position: seq<int>, p: Prepared)
    requires Fits(position, p, SETUP.costs) && IsSignal(position) && LongAtEven(position) && Alternating(p)
    requires |position| >= 3
    ensures Metrics.HasSharpe(SimulateSpec(position, p, 1000.0, SETUP.costs).equity)
  {
    var equity := SimulateSpec(position, p, 1000.0, SETUP.costs).equity;
    forall i | 0 <= i < |equity|
      ensures equity[i] > 0.0
    {
      ZigzagPositive(position, p, i);
    }
    ZigzagStarts(position, p);
    TwoReturns(equity);
  }

  lemma ThirteenSplit()
    ensures |OutOfSample(Zigzag(13), SETUP)| == 1 && InSample(Zigzag(13), SETUP) == Zigzag(12)
  {
    assert 13.0 * 0.95 == 12.35 && (12.35).Floor == 12;
  }

  /** Thirteen candles, twelve of them in-sample: the only grid entry fits, trades five times and, since its curve has a
      Sharpe ratio, is chosen; and then the sweep raises, because its slow window of two does not fit the one candle
      left. */
  lemma SweepRaises(sharpe: Sharpe)
    requires sharpe(CurveOf(Zigzag(12), Windows(1, 2), SETUP)).Some?
    ensures SetupOk(SETUP) && Prepare(Zigzag(13), MINUTE, false).Ok?
    ensures
      var r := Sweep.Sweep(Zigzag(13), SETUP, sharpe);
      r.Err? && r.error.RunFailed?
  {
    ZigzagPrepares(13);
    ThirteenSplit();
    ZigzagRuns(12, sharpe);
    FiveTrades();
    RunOnMetrics(Zigzag(12), Windows(1, 2), SETUP, sharpe);
    RankSucceeds(Zigzag(13), SETUP, sharpe);
    OneEligible(Zigzag(12), Windows(1, 2), SETUP, sharpe);
    ChosenIsTried(Zigzag(12), SETUP, sharpe);
    SweepFailsIffTooShort(Zigzag(13), SETUP, sharpe, Windows(1, 2));
  }
}
