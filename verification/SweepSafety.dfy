/** When a sweep that has chosen windows raises in evaluating them: the choice is checked against the in-sample part
    only. */
module SweepSafety {
  import opened Market
  import opened Frame
  import opened Simulation
  import opened Runner
  import opened Sweep

  // ---------- what a sweep ranks ----------

  /** What the last grid entry adds to the ranking. */
  lemma RankLast(segment: seq<Candle>, grid: seq<Windows>, s: Setup, sharpe: Sharpe) returns (added: seq<Entry>)
    requires grid != [] && Rank(segment, grid, s, sharpe).Ok?
    ensures Rank(segment, grid[..|grid| - 1], s, sharpe).Ok?
    ensures Rank(segment, grid, s, sharpe).value == Rank(segment, grid[..|grid| - 1], s, sharpe).value + added
    ensures |added| <= 1
    ensures forall e :: e in added <==>
      && e.windows == grid[|grid| - 1] && !Skipped(e.windows, |segment|)
      && RunOn(segment, e.windows, s, sharpe) == Ok(e.metrics)
  {
    var w := grid[|grid| - 1];
    if Skipped(w, |segment|) {
      added := [];
    } else {
      added := [Entry(w, RunOn(segment, w, s, sharpe).value)];
    }
  }

  /** Exactly these entries are ranked. */
  lemma {:induction false} RankedIff(segment: seq<Candle>, grid: seq<Windows>, s: Setup, sharpe: Sharpe, e: Entry)
    requires Rank(segment, grid, s, sharpe).Ok?
    ensures e in Rank(segment, grid, s, sharpe).value <==>
      e.windows in grid && !Skipped(e.windows, |segment|) && RunOn(segment, e.windows, s, sharpe) == Ok(e.metrics)
  {
    if grid == [] {
    } else {
      var added := RankLast(segment, grid, s, sharpe);
      RankedIff(segment, grid[..|grid| - 1], s, sharpe, e);
      assert grid == grid[..|grid| - 1] + [grid[|grid| - 1]];
    }
  }

  /** The entry a sweep chooses, if any is eligible, is one of those it tried. */
  lemma ChosenIsTried(segment: seq<Candle>, s: Setup, sharpe: Sharpe)
    requires SetupOk(s) && Rank(segment, s.grid, s, sharpe).Ok?
    requires Filter(Rank(segment, s.grid, s, sharpe).value, Eligible) != []
    ensures
      var best := FirstMax(Filter(Rank(segment, s.grid, s, sharpe).value, Eligible));
      && best in Filter(Rank(segment, s.grid, s, sharpe).value, Eligible) && Eligible(best)
      && best.windows in s.grid && !Skipped(best.windows, |segment|)
      && RunOn(segment, best.windows, s, sharpe) == Ok(best.metrics)
  {
    var ranked := Rank(segment, s.grid, s, sharpe).value;
    var eligible := Filter(ranked, Eligible);
    SortHeadIsMax(eligible);
    SortIsDescending(eligible);
    assert FirstMax(eligible) in multiset(SortDown(eligible));
    FilterSubset(ranked, Eligible);
    FilterKept(ranked, Eligible);
    RankedIff(segment, s.grid, s, sharpe, FirstMax(eligible));
  }

  lemma {:induction false} FilterKept(es: seq<Entry>, keep: Entry -> bool)
    ensures forall e :: e in Filter(es, keep) ==> keep(e)
  {
    if es == [] {
    } else {
      FilterKept(es[1..], keep);
    }
  }

  /** On candles that prepare, no in-sample run raises. */
  lemma RankSucceeds(candles: seq<Candle>, s: Setup, sharpe: Sharpe)
    requires SetupOk(s) && (forall w :: w in s.grid ==> w.fast >= 1)
    requires Prepare(candles, s.interval, s.allowGaps).Ok?
    ensures Rank(InSample(candles, s), s.grid, s, sharpe).Ok?
  {
    var k := SplitIndex(|candles|, s.ratio);
    if k > 0 {
      SegmentPrepares(candles, s.interval, s.allowGaps, 0, k);
    }
    InSampleRuns(InSample(candles, s), s.grid, s, sharpe);
  }

  /** The equity curve of one run. */
  function CurveOf(segment: seq<Candle>, w: Windows, s: Setup): seq<real>
    requires SetupOk(s)
  {
    match Plan(segment, s.interval, w, s.allowGaps)
    case Err(_) => []
    case Ok((p, position)) =>
      PlanIsSound(segment, s.interval, w, s.allowGaps);
      SimulateSpec(position, p, s.capital, s.costs).equity
  }

  /** The trades one run lists. */
  function TradesOf(segment: seq<Candle>, w: Windows, s: Setup): nat
    requires SetupOk(s)
  {
    match Plan(segment, s.interval, w, s.allowGaps)
    case Err(_) => 0
    case Ok((p, position)) =>
      PlanIsSound(segment, s.interval, w, s.allowGaps);
      |SimulateSpec(position, p, s.capital, s.costs).trades|
  }

  lemma RunOnMetrics(segment: seq<Candle>, w: Windows, s: Setup, sharpe: Sharpe)
    requires SetupOk(s) && RunOn(segment, w, s, sharpe).Ok?
    ensures RunOn(segment, w, s, sharpe).value.sharpe == sharpe(CurveOf(segment, w, s))
    ensures RunOn(segment, w, s, sharpe).value.tradeCount == TradesOf(segment, w, s)
  {
  }

  lemma OneEligible(segment: seq<Candle>, w: Windows, s: Setup, sharpe: Sharpe)
    requires SetupOk(s) && Rank(segment, s.grid, s, sharpe).Ok? && w in s.grid && !Skipped(w, |segment|)
    requires RunOn(segment, w, s, sharpe).Ok? && Eligible(Entry(w, RunOn(segment, w, s, sharpe).value))
    ensures Filter(Rank(segment, s.grid, s, sharpe).value, Eligible) != []
  {
    var e := Entry(w, RunOn(segment, w, s, sharpe).value);
    RankedIff(segment, s.grid, s, sharpe, e);
    FilterKeeps(Rank(segment, s.grid, s, sharpe).value, Eligible, e);
  }

  // ---------- what a sweep chooses ----------

  /** What became of each grid entry: skipped, or run in-sample. */
  type Runs = seq<Option<Entry>>

  function Compact(runs: Runs): seq<Entry> {
    if runs == [] then []
    else Compact(runs[..|runs| - 1]) + if runs[|runs| - 1].Some? then [runs[|runs| - 1].value] else []
  }

  /** The ratio of each entry that can be chosen. */
  function ScoresOfRuns(runs: Runs): seq<Option<real>> {
    seq(|runs|, i requires 0 <= i < |runs| =>
      if runs[i].Some? && Eligible(runs[i].value) then runs[i].value.metrics.sharpe else None)
  }

  /** Entry `i` scores highest, and higher than every entry before it. */
  ghost predicate FirstBest(scores: seq<Option<real>>, i: nat) {
    && i < |scores| && scores[i].Some?
    && forall j :: 0 <= j < |scores| && scores[j].Some? ==>
         scores[j].value <= scores[i].value && (j < i ==> scores[j].value < scores[i].value)
  }

  lemma FirstBestIsUnique(scores: seq<Option<real>>, i: nat, j: nat)
    requires FirstBest(scores, i) && FirstBest(scores, j)
    ensures i == j
  {
  }

  lemma {:induction false} FilterConcat(a: seq<Entry>, b: seq<Entry>, keep: Entry -> bool)
    ensures Filter(a + b, keep) == Filter(a, keep) + Filter(b, keep)
  {
    if a == [] {
      assert a + b == b;
    } else {
      assert (a + b)[1..] == a[1..] + b;
      FilterConcat(a[1..], b, keep);
    }
  }

  /** What the last entry adds to those that can be chosen. */
  lemma EligibleLast(runs: Runs) returns (added: seq<Entry>)
    requires runs != []
    ensures Filter(Compact(runs), Eligible) == Filter(Compact(runs[..|runs| - 1]), Eligible) + added
    ensures added == if ScoresOfRuns(runs)[|runs| - 1].Some? then [runs[|runs| - 1].value] else []
  {
    var last := runs[|runs| - 1];
    var tail := if last.Some? then [last.value] else [];
    FilterConcat(Compact(runs[..|runs| - 1]), tail, Eligible);
    added := Filter(tail, Eligible);
    if last.Some? {
      assert tail[1..] == [];
    }
  }

  lemma {:induction false} NoneEligible(runs: Runs)
    ensures Filter(Compact(runs), Eligible) == [] <==> forall i :: 0 <= i < |runs| ==> ScoresOfRuns(runs)[i].None?
  {
    if runs == [] {
    } else {
      var n := |runs| - 1;
      var added := EligibleLast(runs);
      NoneEligible(runs[..n]);
      assert forall i :: 0 <= i < n ==> ScoresOfRuns(runs)[i] == ScoresOfRuns(runs[..n])[i];
      assert added == [] <==> ScoresOfRuns(runs)[n].None?;
    }
  }

  /** The choice is the entry with the highest ratio; among equals, the first in the grid. */
  lemma {:induction false} ChoiceIsFirstBest(runs: Runs) returns (i: nat)
    requires Filter(Compact(runs), Eligible) != []
    ensures FirstBest(ScoresOfRuns(runs), i) && runs[i] == Some(FirstMax(Filter(Compact(runs), Eligible)))
  {
    var n := |runs| - 1;
    var added := EligibleLast(runs);
    var all, before := Filter(Compact(runs), Eligible), Filter(Compact(runs[..n]), Eligible);
    var scores := ScoresOfRuns(runs);
    assert forall j :: 0 <= j < n ==> scores[j] == ScoresOfRuns(runs[..n])[j];
    if before == [] {
      NoneEligible(runs[..n]);
      i := n;
    } else {
      i := ChoiceIsFirstBest(runs[..n]);
      if added == [] {
        assert all == before;
      } else {
        assert all[..|all| - 1] == before;
        if scores[n].value > scores[i].value {
          i := n;
        }
      }
    }
  }

  // ---------- curves ----------

  /** The in-sample equity curve of an entry that is tried and trades often enough to be chosen. */
  function CandidateCurve(segment: seq<Candle>, w: Windows, s: Setup): Option<seq<real>>
    requires SetupOk(s)
  {
    if !Skipped(w, |segment|) && TradesOf(segment, w, s) >= MIN_TRADES then Some(CurveOf(segment, w, s)) else None
  }

  type Curves = seq<Option<seq<real>>>

  function CurvesOf(segment: seq<Candle>, grid: seq<Windows>, s: Setup): (curves: Curves)
    requires SetupOk(s)
    ensures |curves| == |grid|
  {
    seq(|grid|, i requires 0 <= i < |grid| => CandidateCurve(segment, grid[i], s))
  }

  function ScoreOf(curve: Option<seq<real>>, sharpe: Sharpe): Option<real> {
    if curve.Some? then sharpe(curve.value) else None
  }

  function ScoresOf(curves: Curves, sharpe: Sharpe): seq<Option<real>> {
    seq(|curves|, i requires 0 <= i < |curves| => ScoreOf(curves[i], sharpe))
  }

  lemma RunScore(segment: seq<Candle>, e: Entry, s: Setup, sharpe: Sharpe)
    requires SetupOk(s) && !Skipped(e.windows, |segment|) && RunOn(segment, e.windows, s, sharpe) == Ok(e.metrics)
    ensures (if Eligible(e) then e.metrics.sharpe else None) == ScoreOf(CandidateCurve(segment, e.windows, s), sharpe)
  {
    RunOnMetrics(segment, e.windows, s, sharpe);
  }

  lemma SkippedScore(segment: seq<Candle>, w: Windows, s: Setup, sharpe: Sharpe)
    requires SetupOk(s) && Skipped(w, |segment|)
    ensures ScoreOf(CandidateCurve(segment, w, s), sharpe) == None
  {
  }

  /** The run of one grid entry, or nothing if it is skipped. */
  lemma RunLast(segment: seq<Candle>, grid: seq<Windows>, s: Setup, sharpe: Sharpe) returns (run: Option<Entry>)
    requires SetupOk(s) && grid != [] && Rank(segment, grid, s, sharpe).Ok?
    ensures Rank(segment, grid[..|grid| - 1], s, sharpe).Ok?
    ensures Rank(segment, grid, s, sharpe).value ==
      Rank(segment, grid[..|grid| - 1], s, sharpe).value + if run.Some? then [run.value] else []
    ensures run.Some? ==> run.value.windows == grid[|grid| - 1]
    ensures (if run.Some? && Eligible(run.value) then run.value.metrics.sharpe else None) ==
      ScoreOf(CandidateCurve(segment, grid[|grid| - 1], s), sharpe)
  {
    var w := grid[|grid| - 1];
    if Skipped(w, |segment|) {
      run := None;
      SkippedScore(segment, w, s, sharpe);
    } else {
      var m := RunOn(segment, w, s, sharpe).value;
      run := Some(Entry(w, m));
      RunScore(segment, Entry(w, m), s, sharpe);
    }
  }

  ghost predicate RunsMatch(runs: Runs, grid: seq<Windows>) {
    |runs| == |grid| && forall i :: 0 <= i < |runs| && runs[i].Some? ==> runs[i].value.windows == grid[i]
  }

  lemma CurvesFront(segment: seq<Candle>, grid: seq<Windows>, s: Setup, n: nat)
    requires SetupOk(s) && n <= |grid|
    ensures CurvesOf(segment, grid[..n], s) == CurvesOf(segment, grid, s)[..n]
  {
  }

  lemma OneMoreScore(runs: Runs, run: Option<Entry>, curves: Curves, sharpe: Sharpe)
    requires |curves| == |runs| + 1 && ScoresOfRuns(runs) == ScoresOf(curves[..|runs|], sharpe)
    requires (if run.Some? && Eligible(run.value) then run.value.metrics.sharpe else None) ==
      ScoreOf(curves[|runs|], sharpe)
    ensures ScoresOfRuns(runs + [run]) == ScoresOf(curves, sharpe)
  {
    forall i | 0 <= i < |runs|
      ensures ScoresOfRuns(runs + [run])[i] == ScoresOf(curves, sharpe)[i]
    {
      assert ScoresOfRuns(runs)[i] == ScoresOf(curves[..|runs|], sharpe)[i];
    }
  }

  /** The ranking, entry by entry, with the ratios the curves give. */
  lemma {:induction false} RankRuns(segment: seq<Candle>, grid: seq<Windows>, s: Setup, sharpe: Sharpe)
    returns (runs: Runs)
    requires SetupOk(s) && Rank(segment, grid, s, sharpe).Ok?
    ensures RunsMatch(runs, grid) && Compact(runs) == Rank(segment, grid, s, sharpe).value
    ensures ScoresOfRuns(runs) == ScoresOf(CurvesOf(segment, grid, s), sharpe)
  {
    if grid == [] {
      runs := [];
    } else {
      var n := |grid| - 1;
      var run := RunLast(segment, grid, s, sharpe);
      var front := RankRuns(segment, grid[..n], s, sharpe);
      CurvesFront(segment, grid, s, n);
      runs := front + [run];
      assert runs[..n] == front;
      OneMoreScore(front, run, CurvesOf(segment, grid, s), sharpe);
    }
  }

  // ---------- when a sweep raises ----------

  /** The evaluation of chosen windows raises. */
  predicate Raises(candles: seq<Candle>, s: Setup, sharpe: Sharpe) {
    Sweep.Sweep(candles, s, sharpe).Err? && Sweep.Sweep(candles, s, sharpe).error.RunFailed?
  }

  /** The entry these ratios choose, if any, has a slow window of at most `n`. */
  ghost predicate ChoiceFits(grid: seq<Windows>, curves: Curves, sharpe: Sharpe, n: nat)
    requires |curves| == |grid|
  {
    forall i: nat :: FirstBest(ScoresOf(curves, sharpe), i) ==> grid[i].slow <= n
  }

  /** A sweep raises exactly when its choice does not fit the out-of-sample part. */
  lemma RaisesIffChoiceTooLong(candles: seq<Candle>, s: Setup, sharpe: Sharpe)
    requires SetupOk(s) && (forall w :: w in s.grid ==> w.fast >= 1)
    requires Prepare(candles, s.interval, s.allowGaps).Ok?
    ensures Raises(candles, s, sharpe) <==>
      !ChoiceFits(s.grid, CurvesOf(InSample(candles, s), s.grid, s), sharpe, |OutOfSample(candles, s)|)
  {
    var segment := InSample(candles, s);
    RankSucceeds(candles, s, sharpe);
    var runs := RankRuns(segment, s.grid, s, sharpe);
    OutcomeOfRuns(candles, s, sharpe, runs, ScoresOfRuns(runs));
  }

  lemma OutcomeOfRuns(candles: seq<Candle>, s: Setup, sharpe: Sharpe, runs: Runs, scores: seq<Option<real>>)
    requires SetupOk(s) && (forall w :: w in s.grid ==> w.fast >= 1)
    requires Prepare(candles, s.interval, s.allowGaps).Ok?
    requires Rank(InSample(candles, s), s.grid, s, sharpe) == Ok(Compact(runs)) && RunsMatch(runs, s.grid)
    requires scores == ScoresOfRuns(runs)
    ensures Raises(candles, s, sharpe) <==>
      !forall i: nat :: FirstBest(scores, i) ==> s.grid[i].slow <= |OutOfSample(candles, s)|
  {
    NoneEligible(runs);
    if Filter(Compact(runs), Eligible) == [] {
      NothingChosen(candles, s, sharpe);
    } else {
      var i := ChoiceIsFirstBest(runs);
      SweepFailsIffTooShort(candles, s, sharpe, s.grid[i]);
      SomethingChosen(candles, s, sharpe);
      forall j: nat | FirstBest(scores, j)
        ensures j == i
      {
        FirstBestIsUnique(scores, i, j);
      }
    }
  }

  lemma NothingChosen(candles: seq<Candle>, s: Setup, sharpe: Sharpe)
    requires Rank(InSample(candles, s), s.grid, s, sharpe).Ok?
    requires Filter(Rank(InSample(candles, s), s.grid, s, sharpe).value, Eligible) == []
    ensures !Raises(candles, s, sharpe)
  {
  }

  lemma SomethingChosen(candles: seq<Candle>, s: Setup, sharpe: Sharpe)
    requires Rank(InSample(candles, s), s.grid, s, sharpe).Ok?
    requires Filter(Rank(InSample(candles, s), s.grid, s, sharpe).value, Eligible) != []
    ensures Raises(candles, s, sharpe) <==> Sweep.Sweep(candles, s, sharpe).Err?
  {
  }

  /** Entry `i` can be chosen, and no entry before it has the same curve. */
  ghost predicate FirstOfCurve(curves: Curves, i: nat) {
    i < |curves| && curves[i].Some? && forall j :: 0 <= j < i ==> curves[j] != curves[i]
  }

  ghost predicate FirstsFit(grid: seq<Windows>, curves: Curves, n: nat)
    requires |curves| == |grid|
  {
    forall i: nat :: FirstOfCurve(curves, i) ==> grid[i].slow <= n
  }

  /** A Sharpe ratio that is a number on one curve only. */
  function OnlyOn(curve: seq<real>): Sharpe {
    (equity: seq<real>) => if equity == curve then Some(0.0) else None
  }

  lemma SomeRatioChooses(curves: Curves, i: nat)
    requires FirstOfCurve(curves, i)
    ensures FirstBest(ScoresOf(curves, OnlyOn(curves[i].value)), i)
  {
  }

  lemma ChosenIsFirstOfCurve(curves: Curves, sharpe: Sharpe, i: nat)
    requires FirstBest(ScoresOf(curves, sharpe), i)
    ensures FirstOfCurve(curves, i)
  {
    var scores := ScoresOf(curves, sharpe);
    forall j | 0 <= j < i
      ensures curves[j] != curves[i]
    {
      assert scores[j] == ScoreOf(curves[j], sharpe) && scores[i] == ScoreOf(curves[i], sharpe);
    }
  }

  lemma EveryChoiceFitsIff(grid: seq<Windows>, curves: Curves, n: nat)
    requires |curves| == |grid|
    ensures (forall sharpe: Sharpe :: ChoiceFits(grid, curves, sharpe, n)) <==> FirstsFit(grid, curves, n)
  {
    if i: nat :| FirstOfCurve(curves, i) && grid[i].slow > n {
      SomeRatioChooses(curves, i);
      assert !ChoiceFits(grid, curves, OnlyOn(curves[i].value), n);
    } else {
      forall sharpe: Sharpe
        ensures ChoiceFits(grid, curves, sharpe, n)
      {
        forall i: nat | FirstBest(ScoresOf(curves, sharpe), i)
          ensures grid[i].slow <= n
        {
          ChosenIsFirstOfCurve(curves, sharpe, i);
        }
      }
    }
  }

  /** When a sweep that has chosen windows cannot raise, exactly: over candles that prepare, no Sharpe ratios make it
      raise if and only if every grid entry that is tried in-sample, trades often enough there, and comes first among
      those with its equity curve, fits the out-of-sample part. */
  lemma NeverRaisesIff(candles: seq<Candle>, s: Setup)
    requires SetupOk(s) && (forall w :: w in s.grid ==> w.fast >= 1)
    requires Prepare(candles, s.interval, s.allowGaps).Ok?
    ensures (forall sharpe: Sharpe :: !Raises(candles, s, sharpe)) <==>
      FirstsFit(s.grid, CurvesOf(InSample(candles, s), s.grid, s), |OutOfSample(candles, s)|)
  {
    var curves, n := CurvesOf(InSample(candles, s), s.grid, s), |OutOfSample(candles, s)|;
    forall sharpe: Sharpe
      ensures Raises(candles, s, sharpe) <==> !ChoiceFits(s.grid, curves, sharpe, n)
    {
      RaisesIffChoiceTooLong(candles, s, sharpe);
    }
    EveryChoiceFitsIff(s.grid, curves, n);
  }

  /** The first entry with the curve of entry `k`. */
  lemma {:induction false} FirstWithCurve(curves: Curves, k: nat) returns (i: nat)
    requires k < |curves| && curves[k].Some?
    ensures i <= k && FirstOfCurve(curves, i) && curves[i] == curves[k]
    decreases k
  {
    if FirstOfCurve(curves, k) {
      i := k;
    } else {
      var j: nat :| j < k && curves[j] == curves[k];
      i := FirstWithCurve(curves, j);
    }
  }

  lemma FirstsFitIffAllFit(grid: seq<Windows>, curves: Curves, n: nat)
    requires |curves| == |grid|
    requires forall i, j ::
      (0 <= i < |grid| && 0 <= j < |grid| && grid[i].slow <= n < grid[j].slow && curves[i].Some?) ==>
        curves[i] != curves[j]
    ensures FirstsFit(grid, curves, n) <==> forall i :: 0 <= i < |grid| && curves[i].Some? ==> grid[i].slow <= n
  {
    if k: nat :| k < |grid| && curves[k].Some? && grid[k].slow > n {
      var i := FirstWithCurve(curves, k);
    }
  }

  /** Where no entry that fits shares its in-sample curve with one that does not, the order of the grid does not matter:
      no Sharpe ratios make the sweep raise if and only if every entry that is tried and trades often enough fits. */
  lemma NeverRaisesIffCandidatesFit(candles: seq<Candle>, s: Setup)
    requires SetupOk(s) && (forall w :: w in s.grid ==> w.fast >= 1)
    requires Prepare(candles, s.interval, s.allowGaps).Ok?
    requires forall v, w :: v in s.grid && w in s.grid && v.slow <= |OutOfSample(candles, s)| < w.slow ==>
      CurveOf(InSample(candles, s), v, s) != CurveOf(InSample(candles, s), w, s)
    ensures (forall sharpe: Sharpe :: !Raises(candles, s, sharpe)) <==>
      forall w :: w in s.grid && CandidateCurve(InSample(candles, s), w, s).Some? ==>
        w.slow <= |OutOfSample(candles, s)|
  {
    var curves := CurvesOf(InSample(candles, s), s.grid, s);
    NeverRaisesIff(candles, s);
    FirstsFitIffAllFit(s.grid, curves, |OutOfSample(candles, s)|);
    forall w | w in s.grid
      ensures exists i :: 0 <= i < |s.grid| && s.grid[i] == w && curves[i] == CandidateCurve(InSample(candles, s), w, s)
    {
      var i :| 0 <= i < |s.grid| && s.grid[i] == w;
      assert curves[i] == CandidateCurve(InSample(candles, s), w, s);
    }
  }

  /** Every grid entry that would be tried in-sample also fits the out-of-sample part. */
  predicate GridFits(grid: seq<Windows>, inSample: nat, outOfSample: nat) {
    forall w :: w in grid && !Skipped(w, inSample) ==> w.slow <= outOfSample
  }

  /** What a caller can check beforehand: if every grid entry that fits the in-sample part fits the out-of-sample part
      as well, no sweep over candles that prepare raises once it has chosen windows. If none of them does, no sweep
      returns a result. */
  lemma GridDecides(candles: seq<Candle>, s: Setup, sharpe: Sharpe)
    requires SetupOk(s) && (forall w :: w in s.grid ==> w.fast >= 1)
    requires Prepare(candles, s.interval, s.allowGaps).Ok?
    ensures GridFits(s.grid, |InSample(candles, s)|, |OutOfSample(candles, s)|) ==> !Raises(candles, s, sharpe)
    ensures (forall w :: w in s.grid && !Skipped(w, |InSample(candles, s)|) ==> w.slow > |OutOfSample(candles, s)|) ==>
      Sweep.Sweep(candles, s, sharpe).Err?
  {
    var segment := InSample(candles, s);
    RankSucceeds(candles, s, sharpe);
    var eligible := Filter(Rank(segment, s.grid, s, sharpe).value, Eligible);
    if eligible != [] {
      ChosenIsTried(segment, s, sharpe);
      SweepFailsIffTooShort(candles, s, sharpe, FirstMax(eligible).windows);
    }
  }

  // ---------- the shipped grid ----------

  const DEFAULT_GRID := [
    Windows(60, 480), Windows(60, 1440), Windows(240, 1440), Windows(240, 2880),
    Windows(500, 2000), Windows(500, 7200), Windows(1440, 7200), Windows(1440, 20160)]

  const DEFAULT_RATIO := 0.7

  lemma DefaultSplit(n: nat)
    ensures 10 * SplitIndex(n, DEFAULT_RATIO) <= 7 * n < 10 * SplitIndex(n, DEFAULT_RATIO) + 10
  {
  }

  /** The shipped grid and ratio: once its longest window fits in-sample, which takes 28800 candles, the grid fits from
      67197 candles on and not before. */
  lemma DefaultGridFitsIff(n: nat)
    requires n >= 28800
    ensures
      var k := SplitIndex(n, DEFAULT_RATIO);
      k <= n && (GridFits(DEFAULT_GRID, k, n - k) <==> n >= 67197)
  {
    DefaultSplit(n);
    assert DEFAULT_GRID[7] == Windows(1440, 20160);
    assert DEFAULT_GRID[7] in DEFAULT_GRID;
  }
}
