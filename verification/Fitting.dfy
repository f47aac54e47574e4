/** Coefficient fitting of pkg/models/arima.go and pkg/models/sarima.go: fitAR, fitSeasonalAR,
    fitMA, fitSeasonalMA and the residual loops. */
module Fitting {
  import opened RealSums
  import opened TimeSeries
  import opened Levinson
  import opened PredictionError
  import opened AutoRegression

  /** The zero-padded squared error of predicting y[t] from coeffs[0]*y[t-s] + coeffs[1]*y[t-2s] + ... */
  ghost function Loss(y: seq<real>, s: nat, coeffs: seq<real>): real {
    Energy(Span(y, s, |coeffs|), ErrorFilter([0.0] + coeffs), Delays(y, s))
  }

  /** No other coefficients of the same order do as well. */
  ghost predicate LeastSquares(y: seq<real>, s: nat, coeffs: seq<real>) {
    forall other: seq<real> | |other| == |coeffs| && other != coeffs :: Loss(y, s, coeffs) < Loss(y, s, other)
  }

  /** What both fits use when Levinson-Durbin reports an error. */
  function Fallback(p: nat, first: real): (coeffs: seq<real>)
    requires p > 0
    ensures |coeffs| == p && coeffs[0] == first && forall i | 1 <= i < p :: coeffs[i] == 0.0
  {
    [first] + Zeros(p - 1)
  }

  function Zeros(n: nat): (z: seq<real>)
    ensures |z| == n
    ensures forall i | 0 <= i < n :: z[i] == 0.0
  {
    seq(n, _ => 0.0)
  }

  /** The autocorrelations the fits hand to Levinson-Durbin. */
  function SampleAcf(x: seq<real>, s: nat, p: nat): (r: seq<real>)
    ensures |r| == p + 1
    ensures forall k | 0 <= k <= p :: r[k] == Autocorr(x, Lag(k, s))
  {
    seq(p + 1, k requires 0 <= k <= p => Autocorr(x, Lag(k, s)))
  }

  lemma SampleAcfEntry(x: seq<real>, lag: nat)
    requires Cov(Deviations(x), 0) != 0.0
    ensures Autocorr(x, lag) == Cov(Deviations(x), lag) / Cov(Deviations(x), 0)
  {
    hide Mul, Mean, LagTerm, Deviations;
    if lag >= |x| {
      assert Cov(Deviations(x), lag) == 0.0;
    }
  }

  lemma SampleAcfIsAcf(x: seq<real>, s: nat, p: nat)
    requires Cov(Deviations(x), 0) != 0.0
    ensures SampleAcf(x, s, p) == Acf(Deviations(x), s, p)
  {
    hide *;
    forall k | 0 <= k <= p ensures SampleAcf(x, s, p)[k] == Acf(Deviations(x), s, p)[k] {
      SampleAcfEntry(x, Lag(k, s));
    }
  }

  /** On a constant series every autocorrelation is zero and Levinson-Durbin stops at once. */
  lemma ConstantFails(x: seq<real>, s: nat, p: nat)
    requires Constant(x) && p >= 1
    ensures Run(SampleAcf(x, s, p), p) == ZeroVariance
  {
    var r := SampleAcf(x, s, p);
    assert Autocorr(x, Lag(0, s)) == 0.0 by {
      DegenerateIffConstant(x);
    }
    assert At(r, 0) == 0.0;
    hide Autocorr, SampleAcf, Numerator, Mul;
    assert Run(r, 0) == Fitted([0.0], 0.0);
    assert Run(r, 1) == ZeroVariance;
    FailureLasts(r, 1, p);
  }

  /** The fit fails exactly on constant series; on all others its coefficients are the unique least
      squares predictor. */
  lemma FitCharacterised(x: seq<real>, s: nat, p: nat)
    requires s >= 1 && p >= 1
    ensures Run(SampleAcf(x, s, p), p).Fitted? <==> !Constant(x)
    ensures !Constant(x) ==> LeastSquares(Deviations(x), s, Run(SampleAcf(x, s, p), p).phi[1..])
  {
    hide *;
    DegenerateIffConstant(x);
    if Constant(x) {
      ConstantFails(x, s, p);
    } else {
      SampleAcfIsAcf(x, s, p);
      NeverFails(Deviations(x), s, p, p);
      LeastSquaresFit(Deviations(x), s, p);
    }
  }

  lemma LeastSquaresFit(y: seq<real>, s: nat, p: nat)
    requires s >= 1 && Cov(y, 0) != 0.0
    requires Run(Acf(y, s, p), p).Fitted?
    ensures LeastSquares(y, s, Run(Acf(y, s, p), p).phi[1..])
  {
    hide Energy, Span, Delays, Mul, Cov, Acf, Run, ErrorFilter;
    var phi := Run(Acf(y, s, p), p).phi;
    var coeffs := phi[1..];
    RunSolves(Acf(y, s, p), p);
    assert [0.0] + coeffs == phi by { hide Lhs; }
    forall other: seq<real> | |other| == |coeffs| && other != coeffs ensures Loss(y, s, coeffs) < Loss(y, s, other) {
      var psi := [0.0] + other;
      assert psi[1..] == other;
      UniqueLeastSquares(y, s, p, psi);
    }
  }

  // ----- the fitting loops

  method ComputeAcf(x: seq<real>, s: nat, p: nat) returns (acf: seq<real>)
    ensures acf == SampleAcf(x, s, p)
  {
    hide Autocorr, SampleAcf;
    acf := [];
    for k := 0 to p + 1
      invariant |acf| == k
      invariant forall j | 0 <= j < k :: acf[j] == Autocorr(x, Lag(j, s))
    {
      var c := ComputeAutocorr(x, Lag(k, s));
      acf := acf + [c];
    }
  }

  /** fitAR: zero coefficients on a series of negligible variance, and otherwise the unique
      least-squares predictor of order p: the 0.5 default is never used. */
  method FitAR(centered: seq<real>, p: nat) returns (coeffs: seq<real>)
    ensures |coeffs| == p
    ensures Variance(centered) < 0.0000000001 ==> coeffs == Zeros(p)
    ensures Variance(centered) >= 0.0000000001 && p > 0 ==> LeastSquares(Deviations(centered), 1, coeffs)
  {
    if p == 0 {
      return [];
    }
    var variance := ComputeVariance(centered);
    if variance < 0.0000000001 {
      return Zeros(p);
    }
    var acf := ComputeAcf(centered, 1, p);
    var fit, row := LevinsonDurbin(acf, p);
    coeffs := if fit.Fitted? then row else Fallback(p, 0.5);
    FitCharacterised(centered, 1, p);
    ConstantVariance(centered);
  }

  lemma ConstantVariance(x: seq<real>)
    ensures Constant(x) ==> Variance(x) == 0.0
  {
    DegenerateIffConstant(x);
  }

  /** fitSeasonalAR: the 0.3 default exactly on constant series, and otherwise the unique
      least-squares predictor from the values 1, 2, ..., P seasons ago. */
  method FitSeasonalAR(centered: seq<real>, P: nat, s: int) returns (coeffs: seq<real>)
    ensures P == 0 || s <= 0 ==> coeffs == []
    ensures P > 0 && s > 0 ==> |coeffs| == P
    ensures P > 0 && s > 0 && Constant(centered) ==> coeffs == Fallback(P, 0.3)
    ensures P > 0 && s > 0 && !Constant(centered) ==> LeastSquares(Deviations(centered), s, coeffs)
  {
    if P == 0 || s <= 0 {
      return [];
    }
    var acf := ComputeAcf(centered, s, P);
    var fit, row := LevinsonDurbin(acf, P);
    coeffs := if fit.Fitted? then row else Fallback(P, 0.3);
    FitCharacterised(centered, s, P);
  }

  /** The rescaling of a coefficient larger than one in size. */
  function Rescaled(c: real): real {
    if Abs(c) > 1.0 then c / Abs(c) * 0.9 else c
  }

  lemma RescalingIsNoOp(x: seq<real>, lag: int)
    ensures Rescaled(Autocorr(x, lag)) == Autocorr(x, lag)
  {
    hide Autocorr;
    AutocorrBound(x, lag);
  }

  /** fitMA: coefficient i is the autocorrelation at lag i+1, zero past the end of the residuals. No
      coefficient is ever rescaled. */
  method FitMA(residuals: seq<real>, q: nat) returns (coeffs: seq<real>)
    ensures |residuals| == 0 ==> coeffs == []
    ensures |residuals| > 0 ==> |coeffs| == q
    ensures forall i | 0 <= i < |coeffs| :: coeffs[i] == Autocorr(residuals, i + 1)
    ensures forall i | 0 <= i < |coeffs| :: -1.0 <= coeffs[i] <= 1.0
  {
    hide Autocorr;
    if q == 0 || |residuals| == 0 {
      return [];
    }
    coeffs := Zeros(q);
    var i := 0;
    while i < q && i < |residuals|
      invariant 0 <= i <= q && i <= |residuals| && |coeffs| == q
      invariant forall j | 0 <= j < i :: coeffs[j] == Autocorr(residuals, j + 1)
      invariant forall j | i <= j < q :: coeffs[j] == 0.0
    {
      var c := ComputeAutocorr(residuals, i + 1);
      coeffs := coeffs[i := c];
      i := i + 1;
    }
    PastTheEnd(residuals);
    assert forall j | 0 <= j < q :: coeffs[j] == Autocorr(residuals, j + 1);
    ghost var raw := coeffs;
    for k := 0 to q
      invariant |coeffs| == q
      invariant forall j | 0 <= j < k :: coeffs[j] == Rescaled(raw[j])
      invariant forall j | k <= j < q :: coeffs[j] == raw[j]
    {
      if Abs(coeffs[k]) > 1.0 {
        coeffs := coeffs[k := coeffs[k] / Abs(coeffs[k]) * 0.9];
      }
    }
    forall j | 0 <= j < q ensures coeffs[j] == Autocorr(residuals, j + 1) && -1.0 <= coeffs[j] <= 1.0 {
      RescalingIsNoOp(residuals, j + 1);
      AutocorrBound(residuals, j + 1);
    }
  }

  lemma PastTheEnd(x: seq<real>)
    ensures forall lag | lag >= |x| :: Autocorr(x, lag) == 0.0
  {
  }

  /** fitSeasonalMA: as fitMA, at lags s, 2s, ..., Qs. */
  method FitSeasonalMA(residuals: seq<real>, Q: nat, s: int) returns (coeffs: seq<real>)
    ensures Q == 0 || s <= 0 || |residuals| == 0 ==> coeffs == []
    ensures Q > 0 && s > 0 && |residuals| > 0 ==> |coeffs| == Q
    ensures s > 0 ==> forall i | 0 <= i < |coeffs| :: coeffs[i] == Autocorr(residuals, Lag(i + 1, s))
    ensures forall i | 0 <= i < |coeffs| :: -1.0 <= coeffs[i] <= 1.0
  {
    hide Autocorr, Lag;
    if Q == 0 || s <= 0 || |residuals| == 0 {
      return [];
    }
    coeffs := Zeros(Q);
    var i := 0;
    while i < Q && Lag(i + 1, s) < |residuals|
      invariant 0 <= i <= Q && |coeffs| == Q
      invariant forall j | 0 <= j < i :: coeffs[j] == Autocorr(residuals, Lag(j + 1, s))
      invariant forall j | i <= j < Q :: coeffs[j] == 0.0
    {
      var c := ComputeAutocorr(residuals, Lag(i + 1, s));
      coeffs := coeffs[i := c];
      if Abs(coeffs[i]) > 1.0 {
        coeffs := coeffs[i := coeffs[i] / Abs(coeffs[i]) * 0.9];
      }
      assert coeffs[i] == Rescaled(c);
      RescalingIsNoOp(residuals, Lag(i + 1, s));
      i := i + 1;
    }
    PastTheEnd(residuals);
    forall j | 0 <= j < Q ensures coeffs[j] == Autocorr(residuals, Lag(j + 1, s)) && -1.0 <= coeffs[j] <= 1.0 {
      if i <= j {
        LagOrder(i + 1, j + 1, s);
      }
      AutocorrBound(residuals, Lag(j + 1, s));
    }
  }

  // ----- residuals

  /** coeffs[0]*x[t-s] + coeffs[1]*x[t-2s] + ... */
  function Prediction(x: seq<real>, coeffs: seq<real>, s: nat, t: int): int -> real {
    i => if i < 0 then 0.0 else Mul(At(coeffs, i), At(x, t - Lag(i + 1, s)))
  }

  function Predicted(x: seq<real>, coeffs: seq<real>, s: nat, t: int): real {
    Sum(0, |coeffs|, Prediction(x, coeffs, s, t))
  }

  /** What the non-seasonal and the seasonal predictor together leave unexplained, from `start` on. */
  function Residuals(x: seq<real>, ar: seq<real>, sar: seq<real>, s: nat, start: nat): (e: seq<real>)
    ensures |e| == if |x| <= start then 0 else |x| - start
    ensures forall i | 0 <= i < |e| ::
              e[i] == x[start + i] - Predicted(x, ar, 1, start + i) - Predicted(x, sar, s, start + i)
  {
    if |x| <= start then [] else
      seq(|x| - start, i requires 0 <= i < |x| - start =>
        x[start + i] - Predicted(x, ar, 1, start + i) - Predicted(x, sar, s, start + i))
  }

  /** The inner loop: every index it reads lies inside the series. */
  method Predict(x: seq<real>, coeffs: seq<real>, s: nat, t: nat) returns (pred: real)
    requires s >= 1 && t < |x| && Lag(|coeffs|, s) <= t
    ensures pred == Predicted(x, coeffs, s, t)
  {
    hide Mul, Lag;
    pred := 0.0;
    for i := 0 to |coeffs|
      invariant pred == Sum(0, i, Prediction(x, coeffs, s, t))
    {
      LagOrder(i + 1, |coeffs|, s);
      LaterLag(i + 1, 0, s);
      pred := pred + Mul(coeffs[i], x[t - Lag(i + 1, s)]);
    }
  }

  method ComputeResiduals(x: seq<real>, ar: seq<real>, sar: seq<real>, s: nat, start: nat) returns (e: seq<real>)
    requires s >= 1 && |ar| <= start && Lag(|sar|, s) <= start
    ensures e == Residuals(x, ar, sar, s, start)
  {
    if |x| <= start {
      return [];
    }
    e := [];
    for t := start to |x|
      invariant |e| == t - start
      invariant forall i | 0 <= i < |e| ::
                  e[i] == x[start + i] - Predicted(x, ar, 1, start + i) - Predicted(x, sar, s, start + i)
    {
      var arPred := Predict(x, ar, 1, t);
      var seasonal := Predict(x, sar, s, t);
      e := e + [x[t] - arPred - seasonal];
    }
  }

  // ----- residuals are prediction errors

  lemma ErrorTail(x: seq<real>, ar: seq<real>, s: nat, t: int, a: nat)
    requires 1 <= a <= |ar|
    ensures Tap(ErrorFilter([0.0] + ar), Delays(x, s), t)(a) == Mul(-1.0, Prediction(x, ar, s, t)(a - 1))
  {
    var A, lag := ErrorFilter([0.0] + ar), Lag(a, s);
    assert At(A, a) == -At(ar, a - 1);
    assert Delays(x, s)(a, t) == At(x, t - lag);
    assert Prediction(x, ar, s, t)(a - 1) == Mul(At(ar, a - 1), At(x, t - lag));
    hide At, ErrorFilter, Delays, Prediction, Lag;
    Negate(At(ar, a - 1), At(x, t - lag));
    MinusOne(Mul(At(ar, a - 1), At(x, t - lag)));
  }

  /** The prediction-error filter leaves exactly value minus prediction. */
  lemma FilterIsResidual(x: seq<real>, ar: seq<real>, s: nat, t: int)
    ensures Filtered(ErrorFilter([0.0] + ar), Delays(x, s))(t) == At(x, t) - Predicted(x, ar, s, t)
  {
    var A, p := ErrorFilter([0.0] + ar), |ar|;
    var f, g := Tap(A, Delays(x, s), t), Prediction(x, ar, s, t);
    assert f(0) == At(x, t) by {
      assert Lag(0, s) == 0;
      assert Delays(x, s)(0, t) == At(x, t);
    }
    var shifted := a => f(a + 1);
    hide Mul, At, Delays, ErrorFilter, Tap, Prediction;
    SumFirst(0, p + 1, f);
    SumShift(0, p, 1, f, shifted);
    forall a | 0 <= a < p ensures shifted(a) == Mul(-1.0, g(a)) {
      ErrorTail(x, ar, s, t, a + 1);
    }
    SumScale(0, p, -1.0, g, shifted);
    MinusOne(Sum(0, p, g));
  }

  /** The prediction error over time. */
  function PredictionErrors(x: seq<real>, ar: seq<real>): int -> real {
    Filtered(ErrorFilter([0.0] + ar), Delays(x, 1))
  }

  lemma ResidualTerm(x: seq<real>, ar: seq<real>, i: nat)
    requires |ar| + i < |x|
    ensures var e, h := Residuals(x, ar, [], 1, |ar|), PredictionErrors(x, ar);
            LagTerm(e, 0)(i) == Product(h, h)(i + |ar|)
  {
    var e := Residuals(x, ar, [], 1, |ar|);
    FilterIsResidual(x, ar, 1, |ar| + i);
    assert Predicted(x, [], 1, |ar| + i) == 0.0;
    assert At(e, i) == At(x, |ar| + i) - Predicted(x, ar, 1, |ar| + i);
    hide Mul, Predicted, Residuals, Filtered, Delays, ErrorFilter;
  }

  lemma EnergyShifted(e: seq<real>, h: int -> real, p: nat)
    requires forall i | 0 <= i < |e| :: LagTerm(e, 0)(i) == Product(h, h)(i + p)
    ensures Cov(e, 0) == Sum(p, |e| + p, Product(h, h))
  {
    assert Cov(e, 0) == Sum(0, |e|, LagTerm(e, 0));
    hide *;
    SumShift(0, |e|, p, Product(h, h), LagTerm(e, 0));
  }

  /** The residuals' energy is the prediction error's over the times they cover. */
  lemma ResidualEnergy(x: seq<real>, ar: seq<real>)
    requires |ar| < |x|
    ensures var h := PredictionErrors(x, ar);
            Cov(Residuals(x, ar, [], 1, |ar|), 0) == Sum(|ar|, |x|, Product(h, h))
  {
    hide *;
    var e, h := Residuals(x, ar, [], 1, |ar|), PredictionErrors(x, ar);
    forall i | 0 <= i < |e| ensures LagTerm(e, 0)(i) == Product(h, h)(i + |ar|) {
      ResidualTerm(x, ar, i);
    }
    EnergyShifted(e, h, |ar|);
  }

  /** The residuals are part of the prediction error, so their energy is at most the loss. */
  lemma ResidualsWithinLoss(x: seq<real>, ar: seq<real>)
    requires |ar| < |x|
    ensures Cov(Residuals(x, ar, [], 1, |ar|), 0) <= Loss(x, 1, ar)
  {
    var h := PredictionErrors(x, ar);
    assert Loss(x, 1, ar) == Inner(|x| + |ar|, h, h) by {
      assert Span(x, 1, |ar|) == |x| + |ar|;
    }
    hide *;
    ResidualEnergy(x, ar);
    SquaresSplit(h, |ar|, |x|, |x| + |ar|);
  }

  lemma SquaresSplit(h: int -> real, lo: nat, hi: nat, n: nat)
    requires lo <= hi <= n
    ensures Sum(lo, hi, Product(h, h)) <= Inner(n, h, h)
  {
    forall t ensures Product(h, h)(t) >= 0.0 {
      Square(h(t));
    }
    hide Sum;
    SumSplit(0, lo, n, Product(h, h));
    SumSplit(lo, hi, n, Product(h, h));
    SumNonNegative(0, lo, Product(h, h));
    SumNonNegative(hi, n, Product(h, h));
  }

  lemma ZeroPrediction(x: seq<real>, p: nat, t: int)
    ensures Predicted(x, Zeros(p), 1, t) == 0.0
  {
    forall i | 0 <= i < p ensures Prediction(x, Zeros(p), 1, t)(i) == 0.0 {
      assert At(Zeros(p), i) == 0.0;
      assert Prediction(x, Zeros(p), 1, t)(i) == Mul(At(Zeros(p), i), At(x, t - Lag(i + 1, 1)));
    }
    SumZero(0, p, Prediction(x, Zeros(p), 1, t));
  }

  /** Predicting nothing leaves the whole series. */
  lemma ZeroLoss(x: seq<real>, p: nat)
    ensures Loss(x, 1, Zeros(p)) == Cov(x, 0)
  {
    var h, n := Filtered(ErrorFilter([0.0] + Zeros(p)), Delays(x, 1)), Span(x, 1, p);
    assert n == |x| + p;
    hide Mul, Filtered, Delays, ErrorFilter, Sum, At, LagTerm, Predicted;
    forall t ensures h(t) == Delayed(x, 0)(t) {
      FilterIsResidual(x, Zeros(p), 1, t);
      ZeroPrediction(x, p, t);
      assert Delayed(x, 0)(t) == At(x, t);
    }
    InnerExt(n, h, Delayed(x, 0), h, Delayed(x, 0));
    DelayedOrdered(x, 0, 0, n);
  }

  /** A least-squares fit never leaves more residual energy than the series itself has. */
  lemma ResidualsShrink(x: seq<real>, ar: seq<real>)
    requires |ar| < |x| && LeastSquares(x, 1, ar)
    ensures Cov(Residuals(x, ar, [], 1, |ar|), 0) <= Cov(x, 0)
  {
    hide Cov, Residuals, Loss;
    ResidualsWithinLoss(x, ar);
    ZeroLoss(x, |ar|);
    assert ar == Zeros(|ar|) || Loss(x, 1, ar) < Loss(x, 1, Zeros(|ar|));
  }
}
