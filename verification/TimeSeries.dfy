/** Differencing, mean, variance and sample autocorrelation: the helpers of pkg/models/arima.go. */
module TimeSeries {
  import opened RealSums

  function Entry(s: seq<real>): int -> real {
    i => At(s, i)
  }

  function Mean(s: seq<real>): real {
    if |s| == 0 then 0.0 else Sum(0, |s|, Entry(s)) / (|s| as real)
  }

  /** The series minus its mean. */
  function Deviations(s: seq<real>): (y: seq<real>)
    ensures |y| == |s|
    ensures forall i | 0 <= i < |s| :: y[i] == s[i] - Mean(s)
  {
    seq(|s|, i requires 0 <= i < |s| => s[i] - Mean(s))
  }

  function LagTerm(y: seq<real>, k: int): int -> real {
    i => Mul(At(y, i), At(y, i + k))
  }

  /** The sum of lagged products y[i] * y[i+k] over the indices where both exist. */
  function Cov(y: seq<real>, k: int): real {
    Sum(0, |y| - k, LagTerm(y, k))
  }

  function Variance(s: seq<real>): real {
    if |s| == 0 then 0.0 else Cov(Deviations(s), 0) / (|s| as real)
  }

  function Autocorr(s: seq<real>, lag: int): real {
    if lag < 0 || lag >= |s| then 0.0
    else if Cov(Deviations(s), 0) == 0.0 then 0.0
    else Cov(Deviations(s), lag) / Cov(Deviations(s), 0)
  }

  predicate Constant(s: seq<real>) {
    forall i | 0 <= i < |s| :: s[i] == s[0]
  }

  function Diff1(s: seq<real>): seq<real>
    requires |s| >= 1
  {
    seq(|s| - 1, i requires 0 <= i < |s| - 1 => s[i + 1] - s[i])
  }

  function Diff(s: seq<real>, d: nat): seq<real>
    decreases d
  {
    if d == 0 || |s| == 0 then s else Diff(Diff1(s), d - 1)
  }

  lemma {:induction false} DiffLength(s: seq<real>, d: nat)
    ensures |Diff(s, d)| == if d <= |s| then |s| - d else 0
    decreases d
  {
    if d > 0 && |s| > 0 {
      DiffLength(Diff1(s), d - 1);
    }
  }

  /** Differences add up to what the series gained. */
  lemma {:induction false} DiffTelescopes(s: seq<real>, i: nat, j: nat)
    requires i <= j < |s|
    ensures Sum(i, j, Entry(Diff1(s))) == s[j] - s[i]
    decreases j - i
  {
    if i < j {
      DiffTelescopes(s, i, j - 1);
      assert Entry(Diff1(s))(j - 1) == Diff1(s)[j - 1] == s[j] - s[j - 1];
    }
  }

  /** Differencing in two goes is differencing once, as often as both together. */
  lemma {:induction false} DiffCompose(s: seq<real>, a: nat, b: nat)
    ensures Diff(Diff(s, a), b) == Diff(s, a + b)
    decreases a
  {
    if a > 0 && |s| > 0 {
      DiffCompose(Diff1(s), a - 1, b);
    }
  }

  // ----- the loops

  method Difference(series: seq<real>, d: nat) returns (result: seq<real>)
    ensures result == Diff(series, d)
    decreases d
  {
    if d == 0 || |series| == 0 {
      return series;
    }
    result := [];
    for i := 0 to |series| - 1
      invariant |result| == i
      invariant forall k | 0 <= k < i :: result[k] == series[k + 1] - series[k]
    {
      result := result + [series[i + 1] - series[i]];
    }
    assert result == Diff1(series);
    if d > 1 {
      result := Difference(result, d - 1);
    } else {
      assert Diff(result, 0) == result;
    }
  }

  method ComputeMean(series: seq<real>) returns (mean: real)
    ensures mean == Mean(series)
  {
    if |series| == 0 {
      return 0.0;
    }
    var sum := 0.0;
    for i := 0 to |series|
      invariant sum == Sum(0, i, Entry(series))
    {
      sum := sum + series[i];
    }
    mean := sum / (|series| as real);
  }

  lemma LagTermAt(y: seq<real>, lag: nat, i: nat)
    requires i + lag < |y|
    ensures LagTerm(y, lag)(i) == Mul(y[i], y[i + lag])
  {
    hide Mul;
  }

  lemma DeviationTerm(s: seq<real>, lag: nat, i: nat)
    requires i + lag < |s|
    ensures LagTerm(Deviations(s), lag)(i) == Mul(s[i] - Mean(s), s[i + lag] - Mean(s))
  {
    hide *;
    var y := Deviations(s);
    LagTermAt(y, lag, i);
  }

  /** The loop both computeVariance and autocorr run: squared deviations (lag 0) or lagged products. */
  method LaggedProducts(series: seq<real>, mean: real, lag: nat) returns (c: real)
    requires mean == Mean(series) && lag <= |series|
    ensures c == Cov(Deviations(series), lag)
  {
    hide Mul, Mean, At, Deviations, LagTerm;
    c := 0.0;
    for i := 0 to |series| - lag
      invariant c == Sum(0, i, LagTerm(Deviations(series), lag))
    {
      DeviationTerm(series, lag, i);
      c := c + Mul(series[i] - mean, series[i + lag] - mean);
    }
  }

  method ComputeVariance(series: seq<real>) returns (variance: real)
    ensures variance == Variance(series)
  {
    if |series| == 0 {
      return 0.0;
    }
    var mean := ComputeMean(series);
    var sumSq := LaggedProducts(series, mean, 0);
    variance := sumSq / (|series| as real);
  }

  method ComputeAutocorr(series: seq<real>, lag: int) returns (r: real)
    ensures r == Autocorr(series, lag)
  {
    if lag < 0 || lag >= |series| {
      return 0.0;
    }
    var mean := ComputeMean(series);
    var c0 := LaggedProducts(series, mean, 0);
    var ck := LaggedProducts(series, mean, lag);
    if c0 == 0.0 {
      return 0.0;
    }
    r := ck / c0;
  }

  // ----- what the autocorrelation means

  lemma CovZeroNonNegative(y: seq<real>)
    ensures Cov(y, 0) >= 0.0
    ensures Cov(y, 0) == 0.0 ==> forall i | 0 <= i < |y| :: y[i] == 0.0
  {
    forall i ensures LagTerm(y, 0)(i) >= 0.0 {
      Square(At(y, i));
    }
    SumNonNegative(0, |y|, LagTerm(y, 0));
    if Cov(y, 0) == 0.0 {
      SumZeroTerms(0, |y|, LagTerm(y, 0));
      forall i | 0 <= i < |y| ensures y[i] == 0.0 {
        assert LagTerm(y, 0)(i) == Mul(At(y, i), At(y, i));
        Square(At(y, i));
      }
    }
  }

  lemma {:induction false} ConstantTotal(s: seq<real>, n: nat)
    requires Constant(s) && n <= |s| && |s| > 0
    ensures Sum(0, n, Entry(s)) == Mul(n as real, s[0])
  {
    if n > 0 {
      ConstantTotal(s, n - 1);
      assert s[n - 1] == s[0];
    }
  }

  /** The squared deviations sum to zero exactly on constant series. */
  lemma DegenerateIffConstant(s: seq<real>)
    ensures Cov(Deviations(s), 0) == 0.0 <==> Constant(s)
  {
    var y := Deviations(s);
    CovZeroNonNegative(y);
    if Cov(y, 0) == 0.0 {
      forall i | 0 <= i < |s| ensures s[i] == s[0] {
        assert y[i] == 0.0 && y[0] == 0.0;
      }
    }
    if Constant(s) {
      if |s| > 0 {
        ConstantTotal(s, |s|);
        CancelProduct(|s| as real, s[0]);
        assert Mean(s) == s[0];
      }
      forall i | 0 <= i < |y| ensures LagTerm(y, 0)(i) == 0.0 {
        assert y[i] == 0.0;
      }
      SumZero(0, |y|, LagTerm(y, 0));
    }
  }

  /** Squared entries. */
  function SquareEntry(s: seq<real>): int -> real {
    i => Mul(At(s, i), At(s, i))
  }

  lemma {:induction false} DeviationSquares(s: seq<real>, n: nat, m: real)
    requires n <= |s| && forall i | 0 <= i < |s| :: Deviations(s)[i] == s[i] - m
    ensures Sum(0, n, LagTerm(Deviations(s), 0))
         == Sum(0, n, SquareEntry(s)) - 2.0 * Mul(m, Sum(0, n, Entry(s))) + Mul(n as real, Mul(m, m))
  {
    if n == 0 {
      TimesZero(m);
      TimesZero(Mul(m, m));
    } else {
      DeviationSquares(s, n - 1, m);
      var x := s[n - 1];
      assert LagTerm(Deviations(s), 0)(n - 1) == Mul(x - m, x - m) by { hide Mul; }
      assert SquareEntry(s)(n - 1) == Mul(x, x) by { hide Mul; }
      SquareOfDifference(x, m);
      Distribute(m, Sum(0, n - 1, Entry(s)), x);
      OneMore(n as real, Mul(m, m));
      hide Mul;
    }
  }

  lemma SquareOfDifference(x: real, m: real)
    ensures Mul(x - m, x - m) == Mul(x, x) - 2.0 * Mul(m, x) + Mul(m, m)
  {
  }

  lemma OneMore(n: real, c: real)
    ensures Mul(n, c) == Mul(n - 1.0, c) + c
  {
  }

  /** The variance is the mean square minus the squared mean. */
  lemma VarianceMeaning(s: seq<real>)
    requires |s| > 0
    ensures Variance(s) == Sum(0, |s|, SquareEntry(s)) / (|s| as real) - Mul(Mean(s), Mean(s))
  {
    var n, m := |s| as real, Mean(s);
    assert m == Sum(0, |s|, Entry(s)) / n;
    assert Variance(s) == Sum(0, |s|, LagTerm(Deviations(s), 0)) / n;
    hide *;
    DeviationSquares(s, |s|, m);
    Cancel(n, Sum(0, |s|, Entry(s)));
    MeanOfSquares(n, m, Sum(0, |s|, Entry(s)), Sum(0, |s|, SquareEntry(s)));
  }

  lemma MeanOfSquares(n: real, m: real, total: real, squares: real)
    requires n > 0.0 && Mul(n, m) == total
    ensures (squares - 2.0 * Mul(m, total) + Mul(n, Mul(m, m))) / n == squares / n - Mul(m, m)
  {
    Swap3(m, n, m);
    assert squares - 2.0 * Mul(m, total) + Mul(n, Mul(m, m)) == squares - Mul(n, Mul(m, m));
    Separate(n, squares, Mul(m, m));
  }

  lemma Separate(n: real, a: real, b: real)
    requires n > 0.0
    ensures (a - Mul(n, b)) / n == a / n - b
  {
    Cancel(n, a);
    Cancel(n, a - Mul(n, b));
    assert n * ((a - Mul(n, b)) / n - (a / n - b)) == 0.0;
  }
}
