/** `run_sweep`: windows are chosen on the first part of the data and evaluated once on the rest. */
module Sweep {
  import opened Market
  import opened Frame
  import opened Simulation
  import opened Runner

  const MIN_TRADES := 5

  datatype Entry = Entry(windows: Windows, metrics: BacktestMetrics)

  datatype SweepError = NoCombination | NotEligible | RunFailed(error: RunError)

  datatype SweepResult = SweepResult(
    windows: Windows, inSample: BacktestMetrics, outOfSample: BacktestMetrics, ranked: seq<Entry>)

  /** Everything of a sweep but its candles. */
  datatype Setup = Setup(interval: int, capital: real, grid: seq<Windows>, ratio: real, costs: Costs, allowGaps: bool)

  predicate SetupOk(s: Setup) {
    Divides(s.capital, s.costs)
  }

  // ---------- the split ----------

  /** `int(len * ratio)` as a slice bound of a list of length `n`. */
  function SplitIndex(n: nat, ratio: real): nat {
    var x := n as real * ratio;
    var k := if x >= 0.0 then x.Floor else -((-x).Floor);
    if k < 0 then Max(n + k, 0) else if k > n then n else k
  }

  function InSample(candles: seq<Candle>, s: Setup): seq<Candle> {
    candles[..SplitIndex(|candles|, s.ratio)]
  }

  function OutOfSample(candles: seq<Candle>, s: Setup): seq<Candle> {
    candles[SplitIndex(|candles|, s.ratio)..]
  }

  // ---------- ranking ----------

  function RunOn(segment: seq<Candle>, w: Windows, s: Setup, sharpe: Sharpe): Result<BacktestMetrics, RunError>
  {
    match RunBacktest(segment, s.interval, s.capital, w, s.costs, s.allowGaps, sharpe)
    case Err(e) => Err(e)
    case Ok(r) => Ok(r.metrics)
  }

  predicate Skipped(w: Windows, n: nat) {
    w.fast >= w.slow || w.slow > n
  }

  /** The grid entries that fit, in grid order, with their metrics; or the first run that raises. */
  function Rank(segment: seq<Candle>, grid: seq<Windows>, s: Setup, sharpe: Sharpe): Result<seq<Entry>, RunError>
  {
    if grid == [] then Ok([])
    else
      match Rank(segment, grid[..|grid| - 1], s, sharpe)
      case Err(e) => Err(e)
      case Ok(done) =>
        var w := grid[|grid| - 1];
        if Skipped(w, |segment|) then Ok(done)
        else
          match RunOn(segment, w, s, sharpe)
          case Err(e) => Err(e)
          case Ok(m) => Ok(done + [Entry(w, m)])
  }

  predicate Eligible(e: Entry) {
    e.metrics.sharpe.Some? && e.metrics.tradeCount >= MIN_TRADES
  }

  function Filter(es: seq<Entry>, keep: Entry -> bool): seq<Entry> {
    if es == [] then []
    else if keep(es[0]) then [es[0]] + Filter(es[1..], keep)
    else Filter(es[1..], keep)
  }

  /** The sort key `(sharpe is not None, sharpe or 0.0)`: `a` ranks at least as high as `b`. */
  predicate AtLeast(a: Entry, b: Entry) {
    match (a.metrics.sharpe, b.metrics.sharpe)
    case (Some(x), Some(y)) => x >= y
    case (None, Some(_)) => false
    case (_, None) => true
  }

  /** `x` came before everything in `es`, so it goes before its equals. */
  function Insert(x: Entry, es: seq<Entry>): seq<Entry> {
    if es == [] || AtLeast(x, es[0]) then [x] + es else [es[0]] + Insert(x, es[1..])
  }

  /** `ranked.sort(key=..., reverse=True)`, which keeps equals in order. */
  function SortDown(es: seq<Entry>): seq<Entry> {
    if es == [] then [] else Insert(es[0], SortDown(es[1..]))
  }

  /** `max(es, key=sharpe)`: the first of the greatest. */
  function FirstMax(es: seq<Entry>): Entry
    requires es != []
  {
    if |es| == 1 then es[0]
    else
      var best := FirstMax(es[..|es| - 1]);
      if AtLeast(best, es[|es| - 1]) then best else es[|es| - 1]
  }

  function Sweep(candles: seq<Candle>, s: Setup, sharpe: Sharpe): Result<SweepResult, SweepError>
  {
    match Rank(InSample(candles, s), s.grid, s, sharpe)
    case Err(e) => Err(RunFailed(e))
    case Ok(ranked) =>
      var eligible := Filter(ranked, Eligible);
      if ranked == [] then Err(NoCombination)
      else if eligible == [] then Err(NotEligible)
      else
        var best := FirstMax(eligible);
        match RunOn(OutOfSample(candles, s), best.windows, s, sharpe)
        case Err(e) => Err(RunFailed(e))
        case Ok(oos) => Ok(SweepResult(best.windows, best.metrics, oos, SortDown(ranked)))
  }

  method RunSweep(candles: seq<Candle>, s: Setup, sharpe: Sharpe) returns (r: Result<SweepResult, SweepError>)
    ensures r == Sweep(candles, s, sharpe)
  {
    var segment := InSample(candles, s);
    var ranked: seq<Entry> := [];
    for i := 0 to |s.grid|
      invariant Rank(segment, s.grid[..i], s, sharpe) == Ok(ranked)
    {
      assert s.grid[..i + 1][..i] == s.grid[..i];
      var w := s.grid[i];
      if Skipped(w, |segment|) {
        continue;
      }
      var run := RunOn(segment, w, s, sharpe);
      if run.Err? {
        RankFails(segment, s.grid, s, sharpe, i + 1);
        return Err(RunFailed(run.error));
      }
      ranked := ranked + [Entry(w, run.value)];
    }
    assert s.grid[..|s.grid|] == s.grid;
    if ranked == [] {
      return Err(NoCombination);
    }
    var eligible := Filter(ranked, Eligible);
    if eligible == [] {
      return Err(NotEligible);
    }
    var best := eligible[0];
    for i := 1 to |eligible|
      invariant best == FirstMax(eligible[..i])
    {
      assert eligible[..i + 1][..i] == eligible[..i];
      if !AtLeast(best, eligible[i]) {
        best := eligible[i];
      }
    }
    assert eligible[..|eligible|] == eligible;
    var oos := RunOn(OutOfSample(candles, s), best.windows, s, sharpe);
    if oos.Err? {
      return Err(RunFailed(oos.error));
    }
    return Ok(SweepResult(best.windows, best.metrics, oos.value, SortDown(ranked)));
  }

  /** A run that raises ends the ranking, whatever the rest of the grid is. */
  lemma {:induction false} RankFails(segment: seq<Candle>, grid: seq<Windows>, s: Setup, sharpe: Sharpe, i: nat)
    requires i <= |grid| && Rank(segment, grid[..i], s, sharpe).Err?
    ensures Rank(segment, grid, s, sharpe) == Rank(segment, grid[..i], s, sharpe)
    decreases |grid| - i
  {
    if i == |grid| {
      assert grid[..i] == grid;
    } else {
      assert grid[..i + 1][..i] == grid[..i];
      RankFails(segment, grid, s, sharpe, i + 1);
    }
  }

  // ---------- selection ----------

  lemma {:induction false} InsertHead(x: Entry, es: seq<Entry>)
    ensures Insert(x, es) != []
    ensures Insert(x, es)[0] == if es == [] || AtLeast(x, es[0]) then x else es[0]
  {
  }

  ghost predicate Descending(es: seq<Entry>) {
    forall i, j :: 0 <= i < j < |es| ==> AtLeast(es[i], es[j])
  }

  lemma {:induction false} InsertKeepsEntries(x: Entry, es: seq<Entry>)
    ensures multiset(Insert(x, es)) == multiset{x} + multiset(es)
  {
    if es == [] || AtLeast(x, es[0]) {
    } else {
      InsertKeepsEntries(x, es[1..]);
      assert es == [es[0]] + es[1..];
    }
  }

  lemma AtLeastAll(first: Entry, es: seq<Entry>)
    requires forall e :: e in multiset(es) ==> AtLeast(first, e)
    ensures Descending(es) ==> Descending([first] + es)
  {
    forall j | 0 <= j < |es|
      ensures AtLeast(first, es[j])
    {
      assert es[j] in multiset(es);
    }
  }

  lemma {:induction false} InsertDescending(x: Entry, es: seq<Entry>)
    requires Descending(es)
    ensures Descending(Insert(x, es))
  {
    if es == [] || AtLeast(x, es[0]) {
    } else {
      InsertDescending(x, es[1..]);
      InsertKeepsEntries(x, es[1..]);
      forall e | e in multiset(es[1..])
        ensures AtLeast(es[0], e)
      {
        var j :| 0 <= j < |es[1..]| && es[1..][j] == e;
        assert AtLeast(es[0], es[j + 1]);
      }
      AtLeastAll(es[0], Insert(x, es[1..]));
    }
  }

  /** The ranking is the same entries, best first. */
  lemma {:induction false} SortIsDescending(es: seq<Entry>)
    ensures Descending(SortDown(es)) && multiset(SortDown(es)) == multiset(es)
  {
    if es == [] {
    } else {
      SortIsDescending(es[1..]);
      InsertDescending(es[0], SortDown(es[1..]));
      InsertKeepsEntries(es[0], SortDown(es[1..]));
      assert es == [es[0]] + es[1..];
    }
  }

  lemma {:induction false} FilterInsert(x: Entry, es: seq<Entry>, keep: Entry -> bool)
    requires Descending(es)
    ensures Filter(Insert(x, es), keep) == if keep(x) then Insert(x, Filter(es, keep)) else Filter(es, keep)
  {
    if es == [] || AtLeast(x, es[0]) {
      assert ([x] + es)[1..] == es;
      FilterHead(es, keep);
      if keep(x) && Filter(es, keep) != [] {
        assert AtLeast(x, Filter(es, keep)[0]);
      }
    } else {
      assert ([es[0]] + Insert(x, es[1..]))[1..] == Insert(x, es[1..]);
      FilterInsert(x, es[1..], keep);
      FilterHead(es, keep);
      FilterHead(es[1..], keep);
      if keep(x) && keep(es[0]) {
        assert Filter(es, keep)[1..] == Filter(es[1..], keep);
      } else if keep(x) && Filter(es[1..], keep) != [] {
        assert Filter(es, keep) == Filter(es[1..], keep);
      }
    }
  }

  lemma {:induction false} FilterHead(es: seq<Entry>, keep: Entry -> bool)
    ensures Filter(es, keep) != [] ==> Filter(es, keep)[0] in es && keep(Filter(es, keep)[0])
    ensures Filter(es, keep) == [] ==> forall e :: e in es ==> !keep(e)
  {
    if es == [] {
    } else {
      FilterHead(es[1..], keep);
      assert es == [es[0]] + es[1..];
    }
  }

  /** Sorting and filtering commute. With the entries of one rank as the filter, this is stability: equals keep their
      grid order. */
  lemma {:induction false} SortIsStable(es: seq<Entry>, keep: Entry -> bool)
    ensures Filter(SortDown(es), keep) == SortDown(Filter(es, keep))
  {
    if es == [] {
    } else {
      SortIsStable(es[1..], keep);
      SortIsDescending(es[1..]);
      FilterInsert(es[0], SortDown(es[1..]), keep);
      if keep(es[0]) {
        assert ([es[0]] + Filter(es[1..], keep))[1..] == Filter(es[1..], keep);
      }
    }
  }

  /** The first of the greatest, seen from the front. */
  lemma {:induction false} FirstMaxFromFront(es: seq<Entry>)
    requires |es| >= 2
    ensures FirstMax(es) == if AtLeast(es[0], FirstMax(es[1..])) then es[0] else FirstMax(es[1..])
  {
    var front, last := es[..|es| - 1], es[|es| - 1];
    if |es| == 2 {
      assert es[1..] == [last];
      assert front == [es[0]];
    } else {
      FirstMaxFromFront(front);
      assert front[1..] == es[1..][..|es[1..]| - 1];
    }
  }

  lemma {:induction false} SortHeadIsMax(es: seq<Entry>)
    requires es != []
    ensures SortDown(es) != [] && SortDown(es)[0] == FirstMax(es)
  {
    if |es| == 1 {
      assert SortDown(es[1..]) == [];
    } else {
      SortHeadIsMax(es[1..]);
      FirstMaxFromFront(es);
      InsertHead(es[0], SortDown(es[1..]));
    }
  }

  /** Sweep selection: the chosen pair is the first eligible entry of the ranking that is reported, ties going to the
      earlier grid entry in both; the ranking holds the in-sample entries, best first. */
  lemma SelectionIsFirstEligible(candles: seq<Candle>, s: Setup, sharpe: Sharpe)
    requires Sweep(candles, s, sharpe).Ok?
    ensures
      var r := Sweep(candles, s, sharpe).value;
      var entries := Rank(InSample(candles, s), s.grid, s, sharpe).value;
      && Descending(r.ranked) && multiset(r.ranked) == multiset(entries)
      && Filter(r.ranked, Eligible) != []
      && Filter(r.ranked, Eligible)[0] == Entry(r.windows, r.inSample)
      && (forall e :: e in entries && Eligible(e) ==> AtLeast(Entry(r.windows, r.inSample), e))
  {
    var entries := Rank(InSample(candles, s), s.grid, s, sharpe).value;
    var eligible := Filter(entries, Eligible);
    SortIsDescending(entries);
    SortIsStable(entries, Eligible);
    SortHeadIsMax(eligible);
    SortIsDescending(eligible);
    forall e | e in entries && Eligible(e)
      ensures AtLeast(FirstMax(eligible), e)
    {
      FilterKeeps(entries, Eligible, e);
      assert e in multiset(SortDown(eligible));
      var j :| 0 <= j < |SortDown(eligible)| && SortDown(eligible)[j] == e;
      assert j > 0 ==> AtLeast(SortDown(eligible)[0], SortDown(eligible)[j]);
    }
  }

  lemma {:induction false} FilterKeeps(es: seq<Entry>, keep: Entry -> bool, e: Entry)
    requires e in es && keep(e)
    ensures e in Filter(es, keep)
  {
    if es[0] == e {
    } else {
      assert es == [es[0]] + es[1..];
      FilterKeeps(es[1..], keep, e);
    }
  }

  /** The choice depends on in-sample candles only: with the same in-sample part, one sweep fails to choose exactly when
      the other does, with the same error; and if one chooses windows, the other reports the same windows, metrics and
      ranking, or raises in evaluating those windows on its own out-of-sample part. */
  lemma SelectionIgnoresOutOfSample(a: seq<Candle>, b: seq<Candle>, s: Setup, sharpe: Sharpe)
    requires InSample(a, s) == InSample(b, s)
    ensures Sweep(a, s, sharpe).Err? && !Sweep(a, s, sharpe).error.RunFailed? ==>
      Sweep(b, s, sharpe) == Sweep(a, s, sharpe)
    ensures Sweep(a, s, sharpe).Ok? ==>
      var r := Sweep(a, s, sharpe).value;
      Sweep(b, s, sharpe) ==
        match RunOn(OutOfSample(b, s), r.windows, s, sharpe)
        case Err(e) => Err(RunFailed(e))
        case Ok(m) => Ok(r.(outOfSample := m))
  {
  }

  // ---------- when a sweep goes through ----------

  lemma SliceRises(index: seq<int>, lo: nat, hi: nat)
    requires Rising(index) && lo <= hi <= |index|
    ensures Rising(index[lo..hi])
  {
  }

  lemma SliceRegular(index: seq<int>, interval: int, lo: nat, hi: nat)
    requires Regular(index, interval) && lo < hi <= |index|
    ensures Regular(index[lo..hi], interval)
  {
    forall i | 0 <= i < hi - lo
      ensures index[lo..hi][i] == index[lo..hi][0] + i * interval
    {
      assert index[lo + i] == index[0] + (lo + i) * interval;
      assert index[lo] == index[0] + lo * interval;
    }
  }

  lemma SliceSound(candles: seq<Candle>, lo: nat, hi: nat)
    requires lo < hi <= |candles|
    requires forall c :: c in candles ==> c.symbol == candles[0].symbol && Sound(c)
    ensures forall c :: c in candles[lo..hi] ==> c.symbol == candles[lo..hi][0].symbol && Sound(c)
  {
    var part := candles[lo..hi];
    assert forall c :: c in part ==> c in candles;
    assert part[0] in part;
  }

  /** Any part of an accepted list is accepted. */
  lemma SegmentPrepares(candles: seq<Candle>, interval: int, allowGaps: bool, lo: nat, hi: nat)
    requires Prepare(candles, interval, allowGaps).Ok? && lo < hi <= |candles|
    ensures Prepare(candles[lo..hi], interval, allowGaps).Ok?
  {
    AcceptedIff(candles, interval, allowGaps);
    SliceSound(candles, lo, hi);
    SliceRises(Times(candles), lo, hi);
    if !allowGaps {
      SliceRegular(Times(candles), interval, lo, hi);
    }
    assert Times(candles[lo..hi]) == Times(candles)[lo..hi];
    AcceptedIff(candles[lo..hi], interval, allowGaps);
  }

  /** No in-sample run raises: every grid entry that is run passes the checks. */
  lemma {:induction false} InSampleRuns(segment: seq<Candle>, grid: seq<Windows>, s: Setup, sharpe: Sharpe)
    requires SetupOk(s) && (forall w :: w in grid ==> w.fast >= 1)
    requires segment == [] || Prepare(segment, s.interval, s.allowGaps).Ok?
    ensures
      var r := Rank(segment, grid, s, sharpe);
      r.Ok? && forall e :: e in r.value ==> 1 <= e.windows.fast < e.windows.slow <= |segment|
  {
    if grid == [] {
    } else {
      InSampleRuns(segment, grid[..|grid| - 1], s, sharpe);
      var w := grid[|grid| - 1];
      assert w in grid;
      if !Skipped(w, |segment|) {
        RunsIff(segment, s.interval, s.capital, w, s.costs, s.allowGaps, sharpe);
      }
    }
  }

  /** On candles that prepare, a sweep that could choose windows still fails exactly when the chosen slow window is
      longer than the out-of-sample part: the in-sample check says nothing about it. */
  lemma SweepFailsIffTooShort(candles: seq<Candle>, s: Setup, sharpe: Sharpe, best: Windows)
    requires SetupOk(s) && (forall w :: w in s.grid ==> w.fast >= 1)
    requires Prepare(candles, s.interval, s.allowGaps).Ok?
    requires Rank(InSample(candles, s), s.grid, s, sharpe).Ok?
    requires Filter(Rank(InSample(candles, s), s.grid, s, sharpe).value, Eligible) != []
    requires best == FirstMax(Filter(Rank(InSample(candles, s), s.grid, s, sharpe).value, Eligible)).windows
    ensures Sweep(candles, s, sharpe).Ok? <==> best.slow <= |OutOfSample(candles, s)|
  {
    var k := SplitIndex(|candles|, s.ratio);
    var segment, rest := InSample(candles, s), OutOfSample(candles, s);
    var eligible := Filter(Rank(segment, s.grid, s, sharpe).value, Eligible);
    if k > 0 {
      SegmentPrepares(candles, s.interval, s.allowGaps, 0, k);
    }
    InSampleRuns(segment, s.grid, s, sharpe);
    SortHeadIsMax(eligible);
    SortIsDescending(eligible);
    assert FirstMax(eligible) in multiset(SortDown(eligible));
    FilterSubset(Rank(segment, s.grid, s, sharpe).value, Eligible);
    RunsIff(rest, s.interval, s.capital, best, s.costs, s.allowGaps, sharpe);
    if rest != [] {
      assert candles[k..|candles|] == rest;
      SegmentPrepares(candles, s.interval, s.allowGaps, k, |candles|);
    }
  }

  lemma {:induction false} FilterSubset(es: seq<Entry>, keep: Entry -> bool)
    ensures forall e :: e in Filter(es, keep) ==> e in es
  {
    if es == [] {
    } else {
      FilterSubset(es[1..], keep);
      assert es == [es[0]] + es[1..];
    }
  }
}
