/** What each bar of a simulation does to the money, and what the listed trades record, in terms of prices and rates. */
module Trades {
  import opened Arithmetic
  import opened Market
  import opened Frame
  import opened Signals
  import opened Simulation
  import opened Ledgers

  // ---------- one bar ----------

  predicate HasEightPlaces(q: real) {
    (q * 100_000_000.0).Floor as real == q * 100_000_000.0
  }

  /** The most of the asset that `spend` buys at `fill`, in steps of 1e-8. */
  predicate BoughtFor(q: real, spend: real, fill: real) {
    HasEightPlaces(q) && 0.0 <= q && q * fill <= spend < (q + 0.00000001) * fill
  }

  /** There is only one such quantity. */
  lemma BoughtIsUnique(q: real, r: real, spend: real, fill: real)
    requires BoughtFor(q, spend, fill) && BoughtFor(r, spend, fill) && fill > 0.0
    ensures q == r
  {
    var j, k := (q * 100_000_000.0).Floor, (r * 100_000_000.0).Floor;
    if j < k {
      StepBelow(q, r, j, k);
      NotBoth(q, r, spend, fill);
    } else if k < j {
      StepBelow(r, q, k, j);
      NotBoth(r, q, spend, fill);
    }
  }

  lemma NotBoth(q: real, r: real, spend: real, fill: real)
    requires q + 0.00000001 <= r && fill > 0.0 && spend < (q + 0.00000001) * fill
    ensures !(r * fill <= spend)
  {
    MoreCosts(q + 0.00000001, r, fill);
  }

  lemma StepBelow(q: real, r: real, j: int, k: int)
    requires q * 100_000_000.0 == j as real && r * 100_000_000.0 == k as real && j < k
    ensures q + 0.00000001 <= r
  {
    assert j + 1 <= k;
    assert (j + 1) as real <= k as real;
  }

  lemma MoreCosts(a: real, b: real, fill: real)
    requires a <= b && fill > 0.0
    ensures a * fill <= b * fill
  {
    var d := b - a;
    assert d * fill >= 0.0;
    assert b * fill == a * fill + d * fill;
  }

  lemma QuantizeIsBought(spend: real, fill: real)
    requires spend >= 0.0 && fill > 0.0
    ensures BoughtFor(Quantize(spend / fill), spend, fill)
  {
    RoundedQuotient(spend, fill);
    var q := Quantize(spend / fill);
    assert spend / fill >= 0.0 by { assert (spend / fill) * fill == spend; }
    assert q * 100_000_000.0 == (spend / fill * SCALE).Floor as real;
    assert (q + 0.00000001) * fill == q * fill + 0.00000001 * fill;
  }

  /** A buy puts `spend`, the cash less the fee, into the most the fill price allows; nothing is left, and the fee is
      the rate times the cash. */
  ghost predicate IsBuy(before: Ledger, after: Ledger, spend: real, fill: real, costs: Costs) {
    && BoughtFor(after.quantity, spend, fill) && spend == before.cash - costs.fee * before.cash
    && after.cash == 0.0 && after.totalFees == before.totalFees + costs.fee * before.cash
  }

  /** A sale brings what the quantity is worth at the fill price, less the fee, which is the rate times that. */
  ghost predicate IsSale(before: Ledger, after: Ledger, worth: real, costs: Costs) {
    && after.cash == worth - costs.fee * worth && after.quantity == 0.0
    && after.totalFees == before.totalFees + costs.fee * worth
  }

  /** What a buy buys. */
  lemma BuyIs(cash: real, price: real, costs: Costs, quantity: real) returns (spend: real, fill: real)
    requires cash >= 0.0 && price > 0.0 && Charges(costs) && quantity == ExecuteBuy(cash, price, costs).0
    ensures spend == cash - costs.fee * cash && fill == price * (1.0 + costs.slippage)
    ensures BoughtFor(quantity, spend, fill)
  {
    spend, fill := BuyQuantity(cash, price, costs);
    BuyFee(cash, price, costs);
    QuantizeIsBought(spend, fill);
  }

  lemma BuyFee(cash: real, price: real, costs: Costs)
    requires price > 0.0 && costs.slippage != -1.0
    ensures ExecuteBuy(cash, price, costs).1 == costs.fee * cash
  {
  }

  lemma BuyHas(l: Ledger, ts: int, price: real, costs: Costs)
    requires price > 0.0 && costs.slippage != -1.0
    ensures
      var l' := Buy(l, ts, price, costs);
      && l'.quantity == ExecuteBuy(l.cash, price, costs).0 && l'.cash == 0.0
      && l'.totalFees == l.totalFees + costs.fee * l.cash
  {
  }

  lemma BuyFollowsRule(l: Ledger, ts: int, price: real, costs: Costs, after: Ledger) returns (spend: real, fill: real)
    requires l.cash >= 0.0 && price > 0.0 && Charges(costs) && after == Buy(l, ts, price, costs)
    ensures fill == price * (1.0 + costs.slippage) && IsBuy(l, after, spend, fill, costs)
  {
    BuyHas(l, ts, price, costs);
    spend, fill := BuyIs(l.cash, price, costs, after.quantity);
  }

  lemma SellFollowsRule(l: Ledger, ts: int, price: real, costs: Costs) returns (worth: real)
    ensures worth == l.quantity * (price * (1.0 - costs.slippage))
    ensures IsSale(l, Sell(l, ts, price, costs), worth, costs)
  {
    worth := l.quantity * (price * (1.0 - costs.slippage));
  }

  lemma StartsWithCapital(position: seq<int>, p: Prepared, capital: real, costs: Costs)
    requires Fits(position, p, costs)
    ensures
      var start := LedgerAfter(position, p, capital, costs, 0);
      start.cash == capital && start.quantity == 0.0 && start.totalFees == 0.0
  {
  }

  lemma BuyBar(position: seq<int>, p: Prepared, capital: real, costs: Costs, i: nat) returns (spend: real, fill: real)
    requires Fits(position, p, costs) && IsSignal(position) && Charges(costs) && capital >= 0.0
    requires 1 <= i < |position| && Change(position, i) == Some(1)
    ensures fill == p.prices[p.index[i]] * (1.0 + costs.slippage)
    ensures IsBuy(LedgerAfter(position, p, capital, costs, i), LedgerAfter(position, p, capital, costs, i + 1),
      spend, fill, costs)
  {
    LedgerIsOk(position, p, capital, costs, i);
    NextLedger(position, p, capital, costs, i);
    spend, fill := BuyFollowsRule(LedgerAfter(position, p, capital, costs, i), p.index[i], p.prices[p.index[i]], costs,
      LedgerAfter(position, p, capital, costs, i + 1));
  }

  lemma SellBar(position: seq<int>, p: Prepared, capital: real, costs: Costs, i: nat) returns (worth: real)
    requires Fits(position, p, costs) && i < |position| && Change(position, i) == Some(-1)
    ensures worth ==
      LedgerAfter(position, p, capital, costs, i).quantity * (p.prices[p.index[i]] * (1.0 - costs.slippage))
    ensures IsSale(LedgerAfter(position, p, capital, costs, i), LedgerAfter(position, p, capital, costs, i + 1),
      worth, costs)
  {
    worth := SellFollowsRule(LedgerAfter(position, p, capital, costs, i), p.index[i], p.prices[p.index[i]], costs);
    NextLedger(position, p, capital, costs, i);
  }

  lemma QuietBar(position: seq<int>, p: Prepared, capital: real, costs: Costs, i: nat)
    requires Fits(position, p, costs) && i < |position|
    requires Change(position, i) != Some(1) && Change(position, i) != Some(-1)
    ensures LedgerAfter(position, p, capital, costs, i + 1) == LedgerAfter(position, p, capital, costs, i)
  {
  }

  // ---------- the run as a list of ledgers ----------

  /** The ledger before the first bar and after each bar. */
  function LedgersOf(position: seq<int>, p: Prepared, capital: real, costs: Costs): (ls: seq<Ledger>)
    requires Fits(position, p, costs)
    ensures |ls| == |position| + 1
  {
    seq(|position| + 1, i requires 0 <= i <= |position| => LedgerAfter(position, p, capital, costs, i))
  }

  /** Bar `i` takes the ledger from `ls[i]` to `ls[i + 1]`. */
  ghost predicate BarAt(ls: seq<Ledger>, position: seq<int>, p: Prepared, costs: Costs, i: nat)
    requires Fits(position, p, costs) && i < |position| && |ls| == |position| + 1
  {
    ls[i + 1] == StepBar(ls[i], Change(position, i), p.index[i], p.prices[p.index[i]], costs)
  }

  ghost predicate IsRun(ls: seq<Ledger>, position: seq<int>, p: Prepared, costs: Costs)
    requires Fits(position, p, costs)
  {
    && |ls| == |position| + 1 && ls[0].trades == [] && !ls[0].isOpen && ls[0].totalFees == 0.0
    && forall i :: 0 <= i < |position| ==> BarAt(ls, position, p, costs, i)
  }

  lemma LedgersAreRun(position: seq<int>, p: Prepared, capital: real, costs: Costs)
    requires Fits(position, p, costs)
    ensures IsRun(LedgersOf(position, p, capital, costs), position, p, costs)
  {
    var ls := LedgersOf(position, p, capital, costs);
    assert ls[0] == Open(capital, p.index[0]);
    forall i | 0 <= i < |position|
      ensures BarAt(ls, position, p, costs, i)
    {
      NextLedger(position, p, capital, costs, i);
    }
  }

  lemma NextLedger(position: seq<int>, p: Prepared, capital: real, costs: Costs, i: nat)
    requires Fits(position, p, costs) && i < |position|
    ensures LedgerAfter(position, p, capital, costs, i + 1) ==
      StepBar(LedgerAfter(position, p, capital, costs, i), Change(position, i), p.index[i], p.prices[p.index[i]], costs)
  {
  }

  lemma ResultOfRun(position: seq<int>, p: Prepared, capital: real, costs: Costs)
    requires Fits(position, p, costs)
    ensures
      var last := LedgersOf(position, p, capital, costs)[|position|];
      && SimulateSpec(position, p, capital, costs).totalFees == last.totalFees
      && SimulateSpec(position, p, capital, costs).trades == ListTrades(last)
  {
  }

  // ---------- fees ----------

  /** The money that changes hands at one bar: the cash put into a buy, or what a sale is worth at its fill price. */
  function Moved(l: Ledger, change: Option<int>, price: real, costs: Costs): real {
    if change == Some(1) then l.cash
    else if change == Some(-1) then l.quantity * (price * (1.0 - costs.slippage))
    else 0.0
  }

  function MovedOf(ls: seq<Ledger>, position: seq<int>, p: Prepared, costs: Costs): (moved: seq<real>)
    requires Fits(position, p, costs) && |ls| == |position| + 1
    ensures |moved| == |position|
  {
    seq(|position|, i requires 0 <= i < |position| =>
      Moved(ls[i], Change(position, i), p.prices[p.index[i]], costs))
  }

  ghost predicate MovedAt(moved: seq<real>, ls: seq<Ledger>, position: seq<int>, p: Prepared, costs: Costs, i: nat)
    requires Fits(position, p, costs) && i < |position| == |moved| && |ls| == |position| + 1
  {
    moved[i] == Moved(ls[i], Change(position, i), p.prices[p.index[i]], costs)
  }

  /** `moved` is what changes hands in the run `ls`. */
  ghost predicate IsMoved(moved: seq<real>, ls: seq<Ledger>, position: seq<int>, p: Prepared, costs: Costs)
    requires Fits(position, p, costs) && |ls| == |position| + 1
  {
    |moved| == |position| && forall i :: 0 <= i < |position| ==> MovedAt(moved, ls, position, p, costs, i)
  }

  lemma MovedOfIsMoved(ls: seq<Ledger>, position: seq<int>, p: Prepared, costs: Costs)
    requires Fits(position, p, costs) && |ls| == |position| + 1
    ensures IsMoved(MovedOf(ls, position, p, costs), ls, position, p, costs)
  {
    forall i | 0 <= i < |position|
      ensures MovedAt(MovedOf(ls, position, p, costs), ls, position, p, costs, i)
    {
    }
  }

  function Total(xs: seq<real>, n: nat): real
    requires n <= |xs|
  {
    if n == 0 then 0.0 else Total(xs, n - 1) + xs[n - 1]
  }

  predicate FeesMatch(fees: real, turnover: real, costs: Costs) {
    fees == costs.fee * turnover
  }

  lemma FeeOfSum(rate: real, a: real, b: real)
    ensures rate * (a + b) == rate * a + rate * b
  {
  }

  lemma BarKeepsFees(l: Ledger, turnover: real, change: Option<int>, ts: int, price: real, costs: Costs, moved: real)
    requires FeesMatch(l.totalFees, turnover, costs) && price > 0.0 && costs.slippage != -1.0
    requires moved == Moved(l, change, price, costs)
    ensures FeesMatch(StepBar(l, change, ts, price, costs).totalFees, turnover + moved, costs)
  {
    FeeOfSum(costs.fee, turnover, moved);
  }

  lemma {:induction false} FeesSoFar(ls: seq<Ledger>, moved: seq<real>, position: seq<int>, p: Prepared, costs: Costs,
                                     n: nat)
    requires Fits(position, p, costs) && IsRun(ls, position, p, costs) && IsMoved(moved, ls, position, p, costs)
    requires n <= |position|
    ensures FeesMatch(ls[n].totalFees, Total(moved, n), costs)
  {
    if n == 0 {
    } else {
      FeesSoFar(ls, moved, position, p, costs, n - 1);
      assert BarAt(ls, position, p, costs, n - 1) && MovedAt(moved, ls, position, p, costs, n - 1);
      BarKeepsFees(ls[n - 1], Total(moved, n - 1), Change(position, n - 1), p.index[n - 1],
        p.prices[p.index[n - 1]], costs, moved[n - 1]);
    }
  }

  lemma RunFees(ls: seq<Ledger>, moved: seq<real>, position: seq<int>, p: Prepared, costs: Costs, turnover: real)
    requires Fits(position, p, costs) && IsRun(ls, position, p, costs) && IsMoved(moved, ls, position, p, costs)
    requires turnover == Total(moved, |position|)
    ensures FeesMatch(ls[|position|].totalFees, turnover, costs)
  {
    FeesSoFar(ls, moved, position, p, costs, |position|);
  }

  /** The fees of a run are the fee rate times everything that changed hands. */
  lemma FeesAreRateOfTurnover(position: seq<int>, p: Prepared, capital: real, costs: Costs, fees: real, turnover: real)
    requires Fits(position, p, costs) && fees == SimulateSpec(position, p, capital, costs).totalFees
    requires
      turnover == Total(MovedOf(LedgersOf(position, p, capital, costs), position, p, costs), |position|)
    ensures fees == costs.fee * turnover
  {
    var ls := LedgersOf(position, p, capital, costs);
    var moved := MovedOf(ls, position, p, costs);
    LedgersAreRun(position, p, capital, costs);
    MovedOfIsMoved(ls, position, p, costs);
    RunFees(ls, moved, position, p, costs, turnover);
    ResultOfRun(position, p, capital, costs);
  }

  // ---------- trades ----------

  /** The bars among the first `n` at which the position changes by `change`. */
  function BarsOf(position: seq<int>, change: int, n: nat): (bars: seq<nat>)
    requires n <= |position|
    ensures forall k :: 0 <= k < |bars| ==> bars[k] < n && Change(position, bars[k]) == Some(change)
  {
    if n == 0 then []
    else BarsOf(position, change, n - 1) + if Change(position, n - 1) == Some(change) then [n - 1] else []
  }

  /** What the trade from bar `entry` to bar `exit` records: times and opens of both bars, the fee rate times what
      changed hands at the two, and the cash after it less the cash before it; what is sold is what was bought. */
  ghost predicate IsRoundTrip(t: Trade, ls: seq<Ledger>, moved: seq<real>, p: Prepared, costs: Costs,
                              entry: nat, exit: nat)
    requires Usable(p)
  {
    && entry < exit < |p.index| && exit + 1 < |ls| && exit < |moved|
    && t.entryTs == Some(p.index[entry]) && t.exitTs == Some(p.index[exit])
    && t.entryPrice == Some(p.prices[p.index[entry]]) && t.exitPrice == Some(p.prices[p.index[exit]])
    && ls[exit].quantity == ls[entry + 1].quantity
    && t.fees == costs.fee * (moved[entry] + moved[exit])
    && t.pnl == Some(ls[exit + 1].cash - ls[entry].cash)
  }

  /** What the ledger after `n` bars remembers of the open position, bought at bar `entry`. */
  ghost predicate IsOpenSince(ls: seq<Ledger>, moved: seq<real>, p: Prepared, costs: Costs, entry: nat, n: nat)
    requires Usable(p)
  {
    && entry < n < |ls| && entry < |p.index| && entry < |moved| && ls[n].quantity == ls[entry + 1].quantity
    && ls[n].entryTs == Some(p.index[entry]) && ls[n].entryPrice == Some(p.prices[p.index[entry]])
    && ls[n].cashAtEntry == ls[entry].cash == moved[entry] && ls[n].entryFee == costs.fee * moved[entry]
  }

  ghost predicate TradesMatch(ls: seq<Ledger>, moved: seq<real>, position: seq<int>, p: Prepared, costs: Costs, n: nat)
    requires Fits(position, p, costs) && 1 <= n <= |position| && |ls| == |position| + 1
  {
    var entries, exits := BarsOf(position, 1, n), BarsOf(position, -1, n);
    && |ls[n].trades| == |exits| && |entries| == |exits| + (if ls[n].isOpen then 1 else 0)
    && ls[n].isOpen == (position[n - 1] == 1)
    && (forall k :: 0 <= k < |exits| ==> IsRoundTrip(ls[n].trades[k], ls, moved, p, costs, entries[k], exits[k]))
    && (ls[n].isOpen ==> IsOpenSince(ls, moved, p, costs, entries[|exits|], n))
  }

  lemma BuyRecords(l: Ledger, ts: int, price: real, costs: Costs, spent: real)
    requires price > 0.0 && costs.slippage != -1.0 && l.cash == spent
    ensures
      var l' := StepBar(l, Some(1), ts, price, costs);
      && l'.trades == l.trades && l'.isOpen && l'.entryTs == Some(ts) && l'.entryPrice == Some(price)
      && l'.cashAtEntry == spent && l'.entryFee == costs.fee * spent
  {
  }

  lemma SaleRecords(l: Ledger, ts: int, price: real, costs: Costs, spent: real, moved: real) returns (t: Trade)
    requires price > 0.0 && costs.slippage != -1.0 && l.cashAtEntry == spent && l.entryFee == costs.fee * spent
    requires moved == Moved(l, Some(-1), price, costs)
    ensures
      var l' := StepBar(l, Some(-1), ts, price, costs);
      && l'.trades == l.trades + [t] && !l'.isOpen && t.entryTs == l.entryTs && t.exitTs == Some(ts)
      && t.entryPrice == l.entryPrice && t.exitPrice == Some(price) && t.pnl == Some(l'.cash - spent)
    ensures t.fees == costs.fee * (spent + moved)
  {
    var l' := StepBar(l, Some(-1), ts, price, costs);
    t := l'.trades[|l.trades|];
    FeeOfSum(costs.fee, spent, moved);
  }

  lemma StayMatches(ls: seq<Ledger>, moved: seq<real>, position: seq<int>, p: Prepared, costs: Costs, n: nat)
    requires Fits(position, p, costs) && IsSignal(position) && 1 <= n < |position| && |ls| == |position| + 1
    requires TradesMatch(ls, moved, position, p, costs, n) && position[n] == position[n - 1] && ls[n + 1] == ls[n]
    ensures TradesMatch(ls, moved, position, p, costs, n + 1)
  {
  }

  lemma EntryMatches(ls: seq<Ledger>, moved: seq<real>, position: seq<int>, p: Prepared, costs: Costs, n: nat)
    requires Fits(position, p, costs) && IsSignal(position) && 1 <= n < |position| && |ls| == |position| + 1
    requires TradesMatch(ls, moved, position, p, costs, n) && Change(position, n) == Some(1)
    requires ls[n + 1].trades == ls[n].trades && ls[n + 1].isOpen && IsOpenSince(ls, moved, p, costs, n, n + 1)
    ensures TradesMatch(ls, moved, position, p, costs, n + 1)
  {
  }

  lemma ExitMatches(ls: seq<Ledger>, moved: seq<real>, position: seq<int>, p: Prepared, costs: Costs, n: nat, t: Trade)
    requires Fits(position, p, costs) && IsSignal(position) && 1 <= n < |position| && |ls| == |position| + 1
    requires TradesMatch(ls, moved, position, p, costs, n) && Change(position, n) == Some(-1) && !ls[n + 1].isOpen
    requires ls[n + 1].trades == ls[n].trades + [t]
    requires IsRoundTrip(t, ls, moved, p, costs, BarsOf(position, 1, n)[|BarsOf(position, -1, n)|], n)
    ensures TradesMatch(ls, moved, position, p, costs, n + 1)
  {
  }

  lemma EntryOpens(ls: seq<Ledger>, moved: seq<real>, position: seq<int>, p: Prepared, costs: Costs, n: nat)
    requires Fits(position, p, costs) && n < |position| == |moved| && |ls| == |position| + 1
    requires Change(position, n) == Some(1) && BarAt(ls, position, p, costs, n)
    requires MovedAt(moved, ls, position, p, costs, n)
    ensures ls[n + 1].trades == ls[n].trades && ls[n + 1].isOpen && IsOpenSince(ls, moved, p, costs, n, n + 1)
  {
    BuyRecords(ls[n], p.index[n], p.prices[p.index[n]], costs, moved[n]);
  }

  lemma ExitIsRoundTrip(ls: seq<Ledger>, moved: seq<real>, position: seq<int>, p: Prepared, costs: Costs,
                        entry: nat, n: nat) returns (t: Trade)
    requires Fits(position, p, costs) && n < |position| == |moved| && |ls| == |position| + 1
    requires Change(position, n) == Some(-1) && BarAt(ls, position, p, costs, n)
    requires MovedAt(moved, ls, position, p, costs, n) && IsOpenSince(ls, moved, p, costs, entry, n)
    ensures ls[n + 1].trades == ls[n].trades + [t] && !ls[n + 1].isOpen
    ensures IsRoundTrip(t, ls, moved, p, costs, entry, n)
  {
    t := SaleRecords(ls[n], p.index[n], p.prices[p.index[n]], costs, moved[entry], moved[n]);
  }

  lemma {:induction false} LedgerTrades(ls: seq<Ledger>, moved: seq<real>, position: seq<int>, p: Prepared,
                                        costs: Costs, n: nat)
    requires Fits(position, p, costs) && IsSignal(position) && IsRun(ls, position, p, costs)
    requires IsMoved(moved, ls, position, p, costs) && 1 <= n <= |position|
    ensures TradesMatch(ls, moved, position, p, costs, n)
  {
    assert BarAt(ls, position, p, costs, n - 1) && MovedAt(moved, ls, position, p, costs, n - 1);
    if n == 1 {
      assert BarsOf(position, 1, 0) == [] && BarsOf(position, -1, 0) == [];
    } else {
      LedgerTrades(ls, moved, position, p, costs, n - 1);
      if Change(position, n - 1) == Some(1) {
        EntryOpens(ls, moved, position, p, costs, n - 1);
        EntryMatches(ls, moved, position, p, costs, n - 1);
      } else if Change(position, n - 1) == Some(-1) {
        var entry := BarsOf(position, 1, n - 1)[|BarsOf(position, -1, n - 1)|];
        var t := ExitIsRoundTrip(ls, moved, position, p, costs, entry, n - 1);
        ExitMatches(ls, moved, position, p, costs, n - 1, t);
      } else {
        StayMatches(ls, moved, position, p, costs, n - 1);
      }
    }
  }

  /** The list of a position still open at the end: without exit and pnl, with the fee of its buy. */
  predicate IsOpenTrade(t: Trade, ts: int, price: real, fee: real) {
    t == Trade(Some(ts), None, Some(price), None, fee, None)
  }

  ghost predicate ListsRoundTrips(trades: seq<Trade>, ls: seq<Ledger>, moved: seq<real>, position: seq<int>,
                                  p: Prepared, costs: Costs)
    requires Fits(position, p, costs) && |moved| == |position|
  {
    var entries, exits := BarsOf(position, 1, |position|), BarsOf(position, -1, |position|);
    && |trades| == |entries| && |entries| == |exits| + (if position[|position| - 1] == 1 then 1 else 0)
    && (forall k :: 0 <= k < |exits| ==> IsRoundTrip(trades[k], ls, moved, p, costs, entries[k], exits[k]))
    && (|exits| < |entries| ==>
          var e := entries[|exits|];
          IsOpenTrade(trades[|exits|], p.index[e], p.prices[p.index[e]], costs.fee * moved[e]))
  }

  lemma ListMatches(ls: seq<Ledger>, moved: seq<real>, position: seq<int>, p: Prepared, costs: Costs)
    requires Fits(position, p, costs) && |moved| == |position| && |ls| == |position| + 1
    requires TradesMatch(ls, moved, position, p, costs, |position|)
    ensures ListsRoundTrips(ListTrades(ls[|position|]), ls, moved, position, p, costs)
  {
  }

  /** The trade list, trade by trade: the k-th closed trade is the k-th round trip of the position series, and a
      position still open at the end is listed last. */
  lemma TradesAreRoundTrips(position: seq<int>, p: Prepared, capital: real, costs: Costs)
    returns (ls: seq<Ledger>, moved: seq<real>)
    requires Fits(position, p, costs) && IsSignal(position)
    ensures ls == LedgersOf(position, p, capital, costs) && moved == MovedOf(ls, position, p, costs)
    ensures ListsRoundTrips(SimulateSpec(position, p, capital, costs).trades, ls, moved, position, p, costs)
  {
    ls := LedgersOf(position, p, capital, costs);
    moved := MovedOf(ls, position, p, costs);
    LedgersAreRun(position, p, capital, costs);
    MovedOfIsMoved(ls, position, p, costs);
    LedgerTrades(ls, moved, position, p, costs, |position|);
    ListMatches(ls, moved, position, p, costs);
    ResultOfRun(position, p, capital, costs);
  }
}
