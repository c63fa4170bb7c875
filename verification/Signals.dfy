/** `sma_crossover`: long while the fast average is above the slow one, one bar later. */
module Signals {
  import opened Market
  import opened Indicators

  datatype SignalError = IndexMismatch | EmptySeries | AllNaN | Swapped

  function CountNaN(s: Series): nat {
    if s == [] then 0 else CountNaN(s[..|s| - 1]) + if s[|s| - 1].None? then 1 else 0
  }

  /** `fast > slow`, with NaN never greater. */
  function Above(fast: Option<real>, slow: Option<real>): int {
    if fast.Some? && slow.Some? && fast.value > slow.value then 1 else 0
  }

  function SmaCrossover(fast: Series, slow: Series): Result<seq<int>, SignalError> {
    if |fast| != |slow| then Err(IndexMismatch)
    else if fast == [] then Err(EmptySeries)
    else if CountNaN(fast) == |fast| || CountNaN(slow) == |slow| then Err(AllNaN)
    else if CountNaN(fast) > CountNaN(slow) then Err(Swapped)
    else Ok(seq(|fast|, i requires 0 <= i < |fast| => if i == 0 then 0 else Above(fast[i - 1], slow[i - 1])))
  }

  /** A 0/1 position series that starts flat: what the simulation is written for. */
  predicate IsSignal(position: seq<int>) {
    position != [] && position[0] == 0 && forall i :: 0 <= i < |position| ==> position[i] == 0 || position[i] == 1
  }

  lemma {:induction false} CountSmaNaN(values: seq<real>, window: int, s: Series)
    requires window >= 1 && |s| <= |values| && s == Sma(values, window).value[..|s|]
    ensures CountNaN(s) == if |s| < window then |s| else window - 1
  {
    if s == [] {
    } else {
      CountSmaNaN(values, window, s[..|s| - 1]);
    }
  }

  /** The guards, on two averages of one price series: exactly the window pairs 1 <= fast <= slow <= length pass. */
  lemma CrossoverAcceptsIff(values: seq<real>, fast: int, slow: int)
    requires fast >= 1 && slow >= 1
    ensures SmaCrossover(Sma(values, fast).value, Sma(values, slow).value).Ok? <==> fast <= slow <= |values|
  {
    var f, s := Sma(values, fast).value, Sma(values, slow).value;
    assert f[..|f|] == f && s[..|s|] == s;
    CountSmaNaN(values, fast, f);
    CountSmaNaN(values, slow, s);
  }

  /** What the guards complain about, on two averages of one price series: nothing to average, a window longer than the
      series, or the windows the wrong way round. */
  lemma CrossoverError(values: seq<real>, fast: int, slow: int)
    requires fast >= 1 && slow >= 1 && SmaCrossover(Sma(values, fast).value, Sma(values, slow).value).Err?
    ensures SmaCrossover(Sma(values, fast).value, Sma(values, slow).value).error ==
      if values == [] then EmptySeries
      else if fast > |values| || slow > |values| then AllNaN
      else Swapped
  {
    var f, s := Sma(values, fast).value, Sma(values, slow).value;
    assert f[..|f|] == f && s[..|s|] == s;
    CountSmaNaN(values, fast, f);
    CountSmaNaN(values, slow, s);
  }

  /** The strategy: long at bar `i` exactly when the mean of the last `fast` closes before it is above the mean of the
      last `slow` ones, once there are that many. So the result is a 0/1 signal that stays flat for the whole slow
      window, and the first buy is at bar `slow` or later. */
  lemma CrossoverIsSignal(values: seq<real>, fast: int, slow: int)
    requires fast >= 1 && slow >= 1 && SmaCrossover(Sma(values, fast).value, Sma(values, slow).value).Ok?
    ensures
      var position := SmaCrossover(Sma(values, fast).value, Sma(values, slow).value).value;
      && |position| == |values| && IsSignal(position)
      && forall i :: 0 <= i < |position| ==>
           (position[i] == 1 <==> i >= slow && i >= fast && Mean(values[i - fast..i]) > Mean(values[i - slow..i]))
  {
    var position := SmaCrossover(Sma(values, fast).value, Sma(values, slow).value).value;
    forall i | 0 <= i < |position|
      ensures position[i] == 1 <==> i >= slow && i >= fast && Mean(values[i - fast..i]) > Mean(values[i - slow..i])
    {
      if i > 0 {
        assert position[i] == Above(Sma(values, fast).value[i - 1], Sma(values, slow).value[i - 1]);
      }
    }
  }

  /** Long at bar `i` exactly when the mean of the `fast` values before it is above the mean of the `slow` ones. */
  ghost predicate IsCrossover(position: seq<int>, values: seq<real>, fast: int, slow: int) {
    && 1 <= fast <= slow && |position| == |values|
    && forall i :: 0 <= i < |position| ==>
         (position[i] == 1 <==> slow <= i && Mean(values[i - fast..i]) > Mean(values[i - slow..i]))
  }

  lemma AcceptedIsCrossover(values: seq<real>, fast: int, slow: int, position: seq<int>)
    requires fast >= 1 && slow >= 1 && SmaCrossover(Sma(values, fast).value, Sma(values, slow).value) == Ok(position)
    ensures IsSignal(position) && IsCrossover(position, values, fast, slow)
  {
    CrossoverAcceptsIff(values, fast, slow);
    CrossoverIsSignal(values, fast, slow);
  }

  lemma SmaLooksBack(a: seq<real>, b: seq<real>, window: int, k: nat, i: nat)
    requires window >= 1 && i < k <= |a| && k <= |b| && a[..k] == b[..k]
    ensures Sma(a, window).value[i] == Sma(b, window).value[i]
  {
    if i + 1 >= window {
      assert a[i + 1 - window..i + 1] == a[..k][i + 1 - window..i + 1];
      assert b[i + 1 - window..i + 1] == b[..k][i + 1 - window..i + 1];
    }
  }

  lemma AveragesLookBack(a: seq<real>, b: seq<real>, fast: int, slow: int, k: nat, i: nat)
    requires 1 <= fast <= slow && i < k <= |a| && k <= |b| && a[..k] == b[..k]
    ensures Above(Sma(a, fast).value[i], Sma(a, slow).value[i]) == Above(Sma(b, fast).value[i], Sma(b, slow).value[i])
  {
    SmaLooksBack(a, b, fast, k, i);
    SmaLooksBack(a, b, slow, k, i);
  }

  lemma PositionAt(values: seq<real>, fast: int, slow: int, i: nat)
    requires 1 <= fast <= slow <= |values| && i < |values|
    ensures
      var p := SmaCrossover(Sma(values, fast).value, Sma(values, slow).value);
      && p.Ok? && |p.value| == |values|
      && p.value[i] == if i == 0 then 0 else Above(Sma(values, fast).value[i - 1], Sma(values, slow).value[i - 1])
  {
    CrossoverAcceptsIff(values, fast, slow);
  }

  /** The position at bar `k` is decided by the closes before it. */
  lemma CrossoverLooksBack(a: seq<real>, b: seq<real>, fast: int, slow: int, k: nat)
    requires 1 <= fast <= slow <= |a| && slow <= |b| && k < |a| && k < |b| && a[..k] == b[..k]
    ensures
      var p := SmaCrossover(Sma(a, fast).value, Sma(a, slow).value);
      var q := SmaCrossover(Sma(b, fast).value, Sma(b, slow).value);
      p.Ok? && q.Ok? && p.value[..k + 1] == q.value[..k + 1]
  {
    PositionAt(a, fast, slow, 0);
    PositionAt(b, fast, slow, 0);
    var p := SmaCrossover(Sma(a, fast).value, Sma(a, slow).value).value;
    var q := SmaCrossover(Sma(b, fast).value, Sma(b, slow).value).value;
    forall i | 0 <= i <= k
      ensures p[i] == q[i]
    {
      PositionAt(a, fast, slow, i);
      PositionAt(b, fast, slow, i);
      if i > 0 {
        AveragesLookBack(a, b, fast, slow, k, i - 1);
      }
    }
  }
}
