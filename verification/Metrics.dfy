/** pkg/backtest/metrics.go: accuracy and capacity metrics. */
module Metrics {
  import opened RealSums
  import opened Quantiles
  import opened PredictionError

  function ErrorAt(predicted: seq<real>, actual: seq<real>): int -> real {
    i => Abs(At(predicted, i) - At(actual, i))
  }

  /** The mean of f over 0..n, zero when n is zero. */
  function MeanOf(n: nat, f: int -> real): real {
    if n == 0 then 0.0 else Sum(0, n, f) / (n as real)
  }

  function MeanAbsoluteError(predicted: seq<real>, actual: seq<real>): real {
    MeanOf(|predicted|, ErrorAt(predicted, actual))
  }

  function MeanSquaredError(predicted: seq<real>, actual: seq<real>): real {
    MeanOf(|predicted|, Product(ErrorAt(predicted, actual), ErrorAt(predicted, actual)))
  }

  method MAE(predicted: seq<real>, actual: seq<real>) returns (mae: real)
    requires |predicted| == |actual|
    ensures mae == MeanAbsoluteError(predicted, actual)
  {
    if |predicted| == 0 {
      return 0.0;
    }
    var sum := 0.0;
    for i := 0 to |predicted|
      invariant sum == Sum(0, i, ErrorAt(predicted, actual))
    {
      sum := sum + Abs(predicted[i] - actual[i]);
    }
    mae := sum / (|predicted| as real);
  }

  lemma SquareOfAbs(d: real)
    ensures Mul(d, d) == Mul(Abs(d), Abs(d))
  {
  }

  method RMSE(predicted: seq<real>, actual: seq<real>, sqrt: real -> real) returns (rmse: real)
    requires |predicted| == |actual| && IsSqrt(sqrt)
    ensures rmse >= 0.0 && Mul(rmse, rmse) == MeanSquaredError(predicted, actual)
  {
    hide Mul;
    if |predicted| == 0 {
      assert Mul(0.0, 0.0) == 0.0 by { TimesZero(0.0); }
      return 0.0;
    }
    var sum := 0.0;
    ghost var e := ErrorAt(predicted, actual);
    for i := 0 to |predicted|
      invariant sum == Sum(0, i, Product(e, e))
    {
      var diff := predicted[i] - actual[i];
      sum := sum + Mul(diff, diff);
      SquareOfAbs(diff);
    }
    EnergyNonNegative(|predicted|, e);
    NonNegativeMean(sum, |predicted|);
    rmse := sqrt(sum / (|predicted| as real));
  }

  lemma NonNegativeMean(sum: real, n: nat)
    requires sum >= 0.0 && n > 0
    ensures sum / (n as real) >= 0.0
  {
  }

  /** The squared mean is at most the mean square. */
  lemma MeanSquareDominates(n: nat, f: int -> real)
    ensures Mul(MeanOf(n, f), MeanOf(n, f)) <= MeanOf(n, Product(f, f))
  {
    if n > 0 {
      var m := MeanOf(n, f);
      var centre := (t: int) => m;
      var spread := t => f(t) - m;
      Polarise(n, centre, f, spread);
      EnergyNonNegative(n, spread);
      SumScale(0, n, m, f, Product(centre, f));
      SumConstant(n, Mul(m, m), Product(centre, centre));
      Cancel(n as real, Sum(0, n, f));
      hide Sum;
      DivideOut(n as real, Sum(0, n, f), m, Sum(0, n, Product(f, f)));
    } else {
      TimesZero(0.0);
    }
  }

  lemma DivideOut(n: real, total: real, m: real, squares: real)
    requires n > 0.0 && m == total / n
    requires squares + Mul(n, Mul(m, m)) >= Mul(m, total) + Mul(m, total)
    ensures Mul(m, m) <= squares / n
  {
    assert total == n * m;
    assert Mul(m, total) == n * (m * m);
    assert squares >= n * (m * m);
    assert squares / n >= m * m by {
      var q := squares / n;
      assert q * n == squares;
      if q < m * m {
        Product0(n, m * m - q);
      }
    }
  }

  lemma DifferenceOfSquares(a: real, b: real)
    ensures Mul(a - b, a + b) == Mul(a, a) - Mul(b, b)
  {
  }

  /** MAE is never above RMSE. */
  lemma MaeAtMostRmse(predicted: seq<real>, actual: seq<real>, rmse: real)
    requires rmse >= 0.0 && Mul(rmse, rmse) == MeanSquaredError(predicted, actual)
    ensures MeanAbsoluteError(predicted, actual) <= rmse
  {
    MeanSquareDominates(|predicted|, ErrorAt(predicted, actual));
    var mae := MeanAbsoluteError(predicted, actual);
    hide MeanOf, Product, ErrorAt;
    DifferenceOfSquares(mae, rmse);
    if mae > rmse {
      Product0(mae - rmse, mae + rmse);
    }
  }

  // ----- under-provisioning

  function UnderCount(planned: seq<int>, needed: seq<int>): nat
    requires |planned| == |needed|
  {
    if planned == [] then 0
    else
      var n := |planned| - 1;
      UnderCount(planned[..n], needed[..n]) + if planned[n] < needed[n] then 1 else 0
  }

  /** The fraction of steps planned below need. */
  function Rate(planned: seq<int>, needed: seq<int>): real
    requires |planned| == |needed|
  {
    if |planned| == 0 then 0.0 else (UnderCount(planned, needed) as real) / (|planned| as real)
  }

  method UnderProvisionedRate(planned: seq<int>, needed: seq<int>) returns (rate: real)
    requires |planned| == |needed|
    ensures rate == Rate(planned, needed)
  {
    if |planned| == 0 {
      return 0.0;
    }
    var under := 0;
    for i := 0 to |planned|
      invariant under == UnderCount(planned[..i], needed[..i])
    {
      assert planned[..i + 1][..i] == planned[..i] && needed[..i + 1][..i] == needed[..i];
      if planned[i] < needed[i] {
        under := under + 1;
      }
    }
    assert planned[..|planned|] == planned && needed[..|planned|] == needed;
    rate := (under as real) / (|planned| as real);
  }

  /** The rate counts a fraction of the steps and vanishes exactly when no step falls short. */
  lemma {:induction false} UnderCountMeaning(planned: seq<int>, needed: seq<int>)
    requires |planned| == |needed|
    ensures UnderCount(planned, needed) <= |planned|
    ensures UnderCount(planned, needed) == 0 <==> forall i | 0 <= i < |planned| :: planned[i] >= needed[i]
  {
    if planned != [] {
      var n := |planned| - 1;
      UnderCountMeaning(planned[..n], needed[..n]);
      assert forall i | 0 <= i < n :: planned[..n][i] == planned[i] && needed[..n][i] == needed[i];
    }
  }

  /** The set of steps planned below need. */
  ghost function ShortSteps(planned: seq<int>, needed: seq<int>): set<nat>
    requires |planned| == |needed|
  {
    set i: nat | i < |planned| && planned[i] < needed[i]
  }

  /** Every short step counts once. */
  lemma {:induction false} UnderCountIsSize(planned: seq<int>, needed: seq<int>)
    requires |planned| == |needed|
    ensures UnderCount(planned, needed) == |ShortSteps(planned, needed)|
  {
    if planned != [] {
      var n := |planned| - 1;
      UnderCountIsSize(planned[..n], needed[..n]);
      var all, front := ShortSteps(planned, needed), ShortSteps(planned[..n], needed[..n]);
      assert all == if planned[n] < needed[n] then front + {n} else front;
    }
  }

  /** MAE is zero exactly when every prediction was right. */
  lemma MaeZeroIff(predicted: seq<real>, actual: seq<real>)
    requires |predicted| == |actual|
    ensures MeanAbsoluteError(predicted, actual) == 0.0 <==> predicted == actual
  {
    var n, e := |predicted|, ErrorAt(predicted, actual);
    if n > 0 {
      Cancel(n as real, Sum(0, n, e));
      TimesZero(n as real);
      if predicted == actual {
        SumZero(0, n, e);
      }
      if MeanAbsoluteError(predicted, actual) == 0.0 {
        SumZeroTerms(0, n, e);
        forall i | 0 <= i < n ensures predicted[i] == actual[i] {
          assert e(i) == 0.0 && e(i) == Abs(predicted[i] - actual[i]);
        }
      }
    }
  }

  /** Errors of one size c give MAE c and mean squared error c * c. */
  lemma UniformErrors(predicted: seq<real>, actual: seq<real>, c: real)
    requires |predicted| == |actual| > 0
    requires forall i | 0 <= i < |predicted| :: Abs(predicted[i] - actual[i]) == c
    ensures MeanAbsoluteError(predicted, actual) == c && MeanSquaredError(predicted, actual) == Mul(c, c)
  {
    var n, e := |predicted|, ErrorAt(predicted, actual);
    assert forall i | 0 <= i < n :: e(i) == c;
    SumConstant(n, c, e);
    forall i | 0 <= i < n ensures Product(e, e)(i) == Mul(c, c) {
      hide Mul;
    }
    SumConstant(n, Mul(c, c), Product(e, e));
    CancelProduct(n as real, c);
    CancelProduct(n as real, Mul(c, c));
    hide Sum, Mul;
  }

  /** The rate is a fraction; it is one exactly when every step falls short. */
  lemma RateOneIff(planned: seq<int>, needed: seq<int>)
    requires |planned| == |needed| > 0
    ensures 0.0 <= Rate(planned, needed) <= 1.0
    ensures Rate(planned, needed) == 1.0 <==> forall i | 0 <= i < |planned| :: planned[i] < needed[i]
  {
    AllShortIff(planned, needed);
    UnderCountMeaning(planned, needed);
    hide UnderCount;
    Fractions(UnderCount(planned, needed), |planned|);
  }

  lemma {:induction false} AllShortIff(planned: seq<int>, needed: seq<int>)
    requires |planned| == |needed|
    ensures UnderCount(planned, needed) == |planned| <==> forall i | 0 <= i < |planned| :: planned[i] < needed[i]
  {
    if planned != [] {
      var n := |planned| - 1;
      AllShortIff(planned[..n], needed[..n]);
      UnderCountMeaning(planned[..n], needed[..n]);
      assert forall i | 0 <= i < n :: planned[..n][i] == planned[i] && needed[..n][i] == needed[i];
    }
  }

  lemma Fractions(k: nat, n: nat)
    requires k <= n && n > 0
    ensures 0.0 <= (k as real) / (n as real) <= 1.0
    ensures (k as real) / (n as real) == 1.0 <==> k == n
  {
    QuotientIff(n as real, k as real);
  }

  lemma QuotientIff(m: real, x: real)
    requires m > 0.0
    ensures x / m >= 0.0 <==> x >= 0.0
    ensures x / m <= 1.0 <==> x <= m
    ensures x / m == 1.0 <==> x == m
  {
    var q := x / m;
    Cancel(m, x);
    TimesOne(m);
    Distribute(m, q, 1.0 - q);
    Sign(m, q);
    Sign(m, 1.0 - q);
    hide Mul;
  }

  lemma Sign(m: real, q: real)
    requires m > 0.0
    ensures q > 0.0 ==> Mul(m, q) > 0.0
    ensures q == 0.0 ==> Mul(m, q) == 0.0
    ensures q < 0.0 ==> Mul(m, q) < 0.0
  {
  }
}
