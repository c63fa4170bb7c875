/** What a sweep that returns was made from: the split of its candles, the runs it ranked, and the run it evaluated. */
module SweepResults {
  import opened Market
  import opened Frame
  import opened Runner
  import opened Sweep
  import opened SweepSafety

  // ---------- the split ----------

  /** The two parts are the candles, cut once. */
  lemma PartsAreTheCandles(candles: seq<Candle>, s: Setup)
    ensures InSample(candles, s) + OutOfSample(candles, s) == candles
  {
  }

  lemma ShareWithin(n: real, ratio: real)
    requires n >= 0.0
    ensures 0.0 <= ratio <= 1.0 ==> 0.0 <= n * ratio <= n
    ensures ratio > 1.0 ==> n * ratio >= n
  {
    if 0.0 <= ratio <= 1.0 {
      var rest := 1.0 - ratio;
      assert n * ratio >= 0.0;
      assert n * rest >= 0.0;
      assert n * ratio == n - n * rest;
    } else if ratio > 1.0 {
      var more := ratio - 1.0;
      assert n * more >= 0.0;
      assert n * ratio == n + n * more;
    }
  }

  lemma CutAt(n: nat, ratio: real, share: real)
    requires share == n as real * ratio && share >= 0.0
    ensures SplitIndex(n, ratio) == if share.Floor > n then n else share.Floor
  {
  }

  lemma WholePart(n: nat, share: real) returns (k: nat)
    requires share >= 0.0
    ensures k == (if share.Floor > n then n else share.Floor) && k <= n
    ensures share <= n as real ==> k as real <= share < k as real + 1.0
    ensures share >= n as real ==> k == n
  {
    k := if share.Floor > n then n else share.Floor;
  }

  /** The cut is at the whole part of the share; a ratio above one keeps everything in-sample. */
  lemma CutIsAtShare(n: nat, ratio: real)
    ensures
      var k := SplitIndex(n, ratio);
      && k <= n
      && (0.0 <= ratio <= 1.0 ==> k as real <= n as real * ratio < k as real + 1.0)
      && (ratio > 1.0 ==> k == n)
  {
    var share := n as real * ratio;
    ShareWithin(n as real, ratio);
    if ratio >= 0.0 {
      CutAt(n, ratio, share);
      var k := WholePart(n, share);
    }
  }

  /** A negative ratio drops candles from the end, the whole part of its share, and keeps nothing if that is none. */
  lemma CutFromTheEnd(n: nat, ratio: real, dropped: nat)
    requires ratio < 0.0 && dropped as real <= n as real * -ratio < dropped as real + 1.0
    ensures SplitIndex(n, ratio) == if dropped == 0 || dropped > n then 0 else n - dropped
  {
    var x := n as real * ratio;
    assert -x == n as real * -ratio;
    if x >= 0.0 {
      assert dropped == 0;
      assert x == 0.0;
    } else {
      assert (-x).Floor == dropped;
    }
  }

  // ---------- the result ----------

  /** The metrics of one run over `part`. */
  ghost predicate AreMetricsOf(m: BacktestMetrics, part: seq<Candle>, w: Windows, s: Setup, sharpe: Sharpe) {
    var r := RunBacktest(part, s.interval, s.capital, w, s.costs, s.allowGaps, sharpe);
    r.Ok? && r.value.metrics == m
  }

  /** A sweep runs a part with its own interval, capital, costs and gap setting. */
  lemma RunOnIs(part: seq<Candle>, w: Windows, s: Setup, sharpe: Sharpe, m: BacktestMetrics)
    ensures RunOn(part, w, s, sharpe) == Ok(m) <==> AreMetricsOf(m, part, w, s, sharpe)
  {
  }

  lemma SweepHas(candles: seq<Candle>, s: Setup, sharpe: Sharpe) returns (r: SweepResult, entries: seq<Entry>)
    requires Sweep.Sweep(candles, s, sharpe).Ok?
    ensures Sweep.Sweep(candles, s, sharpe) == Ok(r) && Rank(InSample(candles, s), s.grid, s, sharpe) == Ok(entries)
    ensures Filter(entries, Eligible) != [] && FirstMax(Filter(entries, Eligible)) == Entry(r.windows, r.inSample)
    ensures r.ranked == SortDown(entries) && RunOn(OutOfSample(candles, s), r.windows, s, sharpe) == Ok(r.outOfSample)
  {
    r := Sweep.Sweep(candles, s, sharpe).value;
    entries := Rank(InSample(candles, s), s.grid, s, sharpe).value;
  }

  lemma RanDivides(part: seq<Candle>, w: Windows, s: Setup, sharpe: Sharpe)
    requires RunOn(part, w, s, sharpe).Ok?
    ensures SetupOk(s)
  {
  }

  lemma ChosenRan(candles: seq<Candle>, s: Setup, sharpe: Sharpe, r: SweepResult)
    requires Sweep.Sweep(candles, s, sharpe) == Ok(r)
    ensures r.windows in s.grid && r.windows.fast < r.windows.slow <= |InSample(candles, s)|
    ensures RunOn(InSample(candles, s), r.windows, s, sharpe) == Ok(r.inSample)
    ensures RunOn(OutOfSample(candles, s), r.windows, s, sharpe) == Ok(r.outOfSample)
  {
    var _, entries := SweepHas(candles, s, sharpe);
    RanDivides(OutOfSample(candles, s), r.windows, s, sharpe);
    ChosenIsTried(InSample(candles, s), s, sharpe);
  }

  /** Where the candles are cut. */
  lemma CutOf(candles: seq<Candle>, s: Setup) returns (k: nat)
    requires 0.0 <= s.ratio <= 1.0
    ensures k <= |candles| && k as real <= |candles| as real * s.ratio < k as real + 1.0
    ensures InSample(candles, s) == candles[..k] && OutOfSample(candles, s) == candles[k..]
  {
    k := SplitIndex(|candles|, s.ratio);
    CutIsAtShare(|candles|, s.ratio);
  }

  /** With a ratio from 0 to 1, the windows are run on the candles up to the whole part of the share, and evaluated on
      the candles from there on. */
  lemma EvaluatesTheRest(candles: seq<Candle>, s: Setup, sharpe: Sharpe, r: SweepResult) returns (k: nat)
    requires Sweep.Sweep(candles, s, sharpe) == Ok(r) && 0.0 <= s.ratio <= 1.0
    ensures k <= |candles| && k as real <= |candles| as real * s.ratio < k as real + 1.0
    ensures r.windows in s.grid && r.windows.fast < r.windows.slow <= k
    ensures RunOn(candles[..k], r.windows, s, sharpe) == Ok(r.inSample)
    ensures RunOn(candles[k..], r.windows, s, sharpe) == Ok(r.outOfSample)
  {
    k := CutOf(candles, s);
    ChosenRan(candles, s, sharpe, r);
  }

  /** An entry that was run on the in-sample part: a grid entry whose windows are in order and fit, with its metrics. */
  ghost predicate WasRun(e: Entry, candles: seq<Candle>, s: Setup, sharpe: Sharpe) {
    && e.windows in s.grid && e.windows.fast < e.windows.slow <= |InSample(candles, s)|
    && AreMetricsOf(e.metrics, InSample(candles, s), e.windows, s, sharpe)
  }

  /** What a run with a Sharpe ratio and at least five trades is for the choice. */
  predicate MayBeChosen(m: BacktestMetrics) {
    m.sharpe.Some? && m.tradeCount >= 5
  }

  /** Entries with a ratio come first, highest ratio first. */
  ghost predicate BestFirst(ranked: seq<Entry>) {
    forall i, j :: 0 <= i < j < |ranked| && ranked[j].metrics.sharpe.Some? ==>
      ranked[i].metrics.sharpe.Some? && ranked[i].metrics.sharpe.value >= ranked[j].metrics.sharpe.value
  }

  lemma RankedWereRun(candles: seq<Candle>, s: Setup, sharpe: Sharpe, entries: seq<Entry>, e: Entry)
    requires Rank(InSample(candles, s), s.grid, s, sharpe) == Ok(entries)
    ensures e in entries <==> WasRun(e, candles, s, sharpe)
  {
    RankedIff(InSample(candles, s), s.grid, s, sharpe, e);
    RunOnIs(InSample(candles, s), e.windows, s, sharpe, e.metrics);
  }

  lemma DescendingIsBestFirst(es: seq<Entry>)
    requires Descending(es)
    ensures BestFirst(es)
  {
    forall i, j | 0 <= i < j < |es| && es[j].metrics.sharpe.Some?
      ensures es[i].metrics.sharpe.Some? && es[i].metrics.sharpe.value >= es[j].metrics.sharpe.value
    {
      assert AtLeast(es[i], es[j]);
    }
  }

  lemma InSorted(entries: seq<Entry>, e: Entry)
    ensures e in SortDown(entries) <==> e in entries
  {
    SortIsDescending(entries);
    assert e in SortDown(entries) <==> e in multiset(SortDown(entries));
    assert e in entries <==> e in multiset(entries);
  }

  /** The report of a sweep: the ranking holds exactly the entries that were run, best first; the choice may be chosen,
      and no entry that may be chosen has a higher ratio. */
  lemma ReportsTheRanking(candles: seq<Candle>, s: Setup, sharpe: Sharpe, e: Entry) returns (r: SweepResult)
    requires Sweep.Sweep(candles, s, sharpe).Ok?
    ensures Sweep.Sweep(candles, s, sharpe) == Ok(r) && BestFirst(r.ranked) && MayBeChosen(r.inSample)
    ensures e in r.ranked <==> WasRun(e, candles, s, sharpe)
    ensures e in r.ranked && MayBeChosen(e.metrics) ==> e.metrics.sharpe.value <= r.inSample.sharpe.value
  {
    var entries;
    r, entries := SweepHas(candles, s, sharpe);
    SelectionIsFirstEligible(candles, s, sharpe);
    DescendingIsBestFirst(r.ranked);
    FilterKept(r.ranked, Eligible);
    assert Eligible(Entry(r.windows, r.inSample));
    InSorted(entries, e);
    RankedWereRun(candles, s, sharpe, entries, e);
  }

  /** A sweep that does not choose says why: no grid entry was run, or none that was run may be chosen. */
  lemma WhyNoChoice(candles: seq<Candle>, s: Setup, sharpe: Sharpe)
    requires Rank(InSample(candles, s), s.grid, s, sharpe).Ok?
    requires Sweep.Sweep(candles, s, sharpe).Err? && !Sweep.Sweep(candles, s, sharpe).error.RunFailed?
    ensures
      if exists e :: WasRun(e, candles, s, sharpe) then
        && Sweep.Sweep(candles, s, sharpe).error == NotEligible
        && forall e :: WasRun(e, candles, s, sharpe) ==> !MayBeChosen(e.metrics)
      else Sweep.Sweep(candles, s, sharpe).error == NoCombination
  {
    var entries := Rank(InSample(candles, s), s.grid, s, sharpe).value;
    forall e
      ensures e in entries <==> WasRun(e, candles, s, sharpe)
    {
      RankedWereRun(candles, s, sharpe, entries, e);
    }
    if entries != [] {
      assert entries[0] in entries;
      FilterHead(entries, Eligible);
    }
  }
}
