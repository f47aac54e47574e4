/** What the ARIMA and SARIMA models share: training rows, centring, residual spread and the
    inner loops of the first prediction step. */
module Models {
  import opened RealSums
  import opened TimeSeries
  import opened AutoRegression
  import opened Fitting
  import opened DampedForecast
  import opened Quantiles

  type Row = map<string, real>

  datatype TrainOutcome = Trained | TrainCancelled | MissingValue(row: nat) | TooFewPoints(need: nat)

  datatype PredictOutcome =
    | Forecasted(values: seq<real>, quantiles: QuantileMap)
    | PredictCancelled
    | NotTrained
    | IndexOutOfRange

  /** Below this variance fitAR does not fit at all. */
  const NEGLIGIBLE: real := 0.0000000001

  predicate AllHaveValue(rows: seq<Row>) {
    forall i | 0 <= i < |rows| :: "value" in rows[i]
  }

  function Values(rows: seq<Row>): (values: seq<real>)
    requires AllHaveValue(rows)
    ensures |values| == |rows| && forall i | 0 <= i < |rows| :: values[i] == rows[i]["value"]
  {
    seq(|rows|, i requires 0 <= i < |rows| => rows[i]["value"])
  }

  /** Stops at the first row without a "value" field. */
  method ExtractValues(rows: seq<Row>) returns (missing: int, values: seq<real>)
    ensures missing == -1 <==> AllHaveValue(rows)
    ensures missing == -1 ==> values == Values(rows)
    ensures missing != -1 ==> 0 <= missing < |rows| && "value" !in rows[missing] && AllHaveValue(rows[..missing])
  {
    values := [];
    for i := 0 to |rows|
      invariant |values| == i
      invariant forall j | 0 <= j < i :: "value" in rows[j] && values[j] == rows[j]["value"]
    {
      if "value" !in rows[i] {
        return i, [];
      }
      values := values + [rows[i]["value"]];
    }
    missing := -1;
  }

  method Centre(stationary: seq<real>) returns (mean: real, centered: seq<real>)
    ensures mean == Mean(stationary) && centered == Deviations(stationary)
  {
    mean := ComputeMean(stationary);
    centered := [];
    for i := 0 to |stationary|
      invariant |centered| == i
      invariant forall j | 0 <= j < i :: centered[j] == stationary[j] - mean
    {
      centered := centered + [stationary[i] - mean];
    }
  }

  lemma {:induction false} DeviationTotal(x: seq<real>, n: nat)
    requires n <= |x|
    ensures Sum(0, n, Entry(Deviations(x))) == Sum(0, n, Entry(x)) - Mul(n as real, Mean(x))
  {
    hide Mean;
    if n > 0 {
      DeviationTotal(x, n - 1);
      var y := Deviations(x);
      assert At(y, n - 1) == At(x, n - 1) - Mean(x);
      hide Mul, Deviations;
      NextMultiple(n, Mean(x));
    }
  }

  lemma NextMultiple(n: nat, m: real)
    requires n > 0
    ensures Mul(n as real, m) == Mul((n - 1) as real, m) + m
  {
  }

  /** Centring twice changes nothing: the fits see the centred series itself. */
  lemma CentredTwice(x: seq<real>)
    ensures Deviations(Deviations(x)) == Deviations(x)
  {
    var y := Deviations(x);
    DeviationTotal(x, |x|);
    assert Mean(y) == 0.0 by {
      if |x| > 0 {
        hide Deviations;
        Cancel(|x| as real, Sum(0, |x|, Entry(x)));
        assert Sum(0, |y|, Entry(y)) == 0.0;
      }
    }
    hide Mean;
    assert Deviations(y) == y;
  }

  /** The outcome of fitting p autoregressive coefficients to a centred series. */
  ghost predicate ArFitted(centered: seq<real>, p: nat, ar: seq<real>) {
    && |ar| == p
    && (Variance(centered) < NEGLIGIBLE ==> ar == Zeros(p))
    && (Variance(centered) >= NEGLIGIBLE ==> LeastSquares(centered, 1, ar))
  }

  method FitCentred(stationary: seq<real>, p: nat) returns (mean: real, centered: seq<real>, ar: seq<real>)
    requires p >= 1
    ensures mean == Mean(stationary) && centered == Deviations(stationary) && ArFitted(centered, p, ar)
  {
    hide Mean, Deviations, Variance, LeastSquares;
    mean, centered := Centre(stationary);
    ar := FitAR(centered, p);
    CentredTwice(stationary);
  }

  /** The outcome of fitting q moving-average coefficients to the residuals. */
  ghost predicate MaFitted(e: seq<real>, q: nat, ma: seq<real>) {
    && |ma| == (if |e| == 0 then 0 else q)
    && forall i | 0 <= i < |ma| :: ma[i] == Autocorr(e, i + 1)
  }

  method FitErrors(e: seq<real>, q: nat) returns (ma: seq<real>)
    ensures MaFitted(e, q, ma)
  {
    hide Autocorr;
    ma := FitMA(e, q);
  }

  /** Sample standard deviation of the residuals, zero when there are fewer than two. */
  ghost predicate ResidualSpread(e: seq<real>, sigma: real) {
    && sigma >= 0.0
    && (|e| <= 1 ==> sigma == 0.0)
    && (|e| > 1 ==> Mul(sigma, sigma) == Cov(e, 0) / ((|e| - 1) as real))
  }

  method ComputeSpread(e: seq<real>, sqrt: real -> real) returns (sigma: real)
    requires IsSqrt(sqrt)
    ensures ResidualSpread(e, sigma)
  {
    sigma := 0.0;
    if |e| > 1 {
      var sumSq := 0.0;
      for i := 0 to |e|
        invariant sumSq == Sum(0, i, LagTerm(e, 0))
      {
        hide Mul;
        sumSq := sumSq + Mul(e[i], e[i]);
      }
      CovZeroNonNegative(e);
      QuotientNonNegative(sumSq, (|e| - 1) as real);
      sigma := sqrt(sumSq / ((|e| - 1) as real));
    }
  }

  /** Residuals of one size c have spread c * sqrt(n / (n - 1)). */
  lemma UniformSpread(e: seq<real>, sigma: real, c: real)
    requires |e| >= 2 && ResidualSpread(e, sigma) && forall i | 0 <= i < |e| :: e[i] == c || e[i] == -c
    ensures Mul((|e| - 1) as real, Mul(sigma, sigma)) == Mul(|e| as real, Mul(c, c))
  {
    Negate(c, c);
    forall i | 0 <= i < |e| ensures LagTerm(e, 0)(i) == Mul(c, c) {
      hide Mul;
    }
    assert Cov(e, 0) == Sum(0, |e|, LagTerm(e, 0));
    hide Mul, Sum;
    SumConstant(|e|, Mul(c, c), LagTerm(e, 0));
    Cancel((|e| - 1) as real, Cov(e, 0));
  }

  lemma QuotientNonNegative(a: real, b: real)
    requires a >= 0.0 && b > 0.0
    ensures a / b >= 0.0
  {
  }

  function Min(a: nat, b: nat): nat {
    if a < b then a else b
  }

  /** coeffs[i] * last[len-1-i]: the i-th most recent value or error. */
  function TailTerm(coeffs: seq<real>, last: seq<real>): int -> real {
    i => Mul(At(coeffs, i), At(last, |last| - 1 - i))
  }

  function TailSum(coeffs: seq<real>, last: seq<real>, limit: nat): real {
    Sum(0, Min(limit, |last|), TailTerm(coeffs, last))
  }

  /** The non-seasonal loop of the first step; reading past the coefficients is a run-time panic. */
  method TailDot(coeffs: seq<real>, last: seq<real>, limit: nat) returns (ok: bool, sum: real)
    ensures ok <==> Min(limit, |last|) <= |coeffs|
    ensures ok ==> sum == TailSum(coeffs, last, limit)
  {
    hide Mul;
    sum := 0.0;
    var i := 0;
    while i < limit && i < |last|
      invariant 0 <= i <= Min(limit, |last|) && i <= |coeffs|
      invariant sum == Sum(0, i, TailTerm(coeffs, last))
    {
      if i >= |coeffs| {
        return false, 0.0;
      }
      sum := sum + Mul(coeffs[i], last[|last| - 1 - i]);
      i := i + 1;
    }
    ok := true;
  }

  /** coeffs[i] * last[len-1-(i+1)s]: the value or error i+1 seasons back, zero where there is none. */
  function SeasonTerm(coeffs: seq<real>, last: seq<real>, s: nat): int -> real {
    i => if i < 0 then 0.0 else Mul(At(coeffs, i), At(last, |last| - 1 - Lag(i + 1, s)))
  }

  function SeasonSum(coeffs: seq<real>, last: seq<real>, limit: nat, s: nat): real {
    Sum(0, limit, SeasonTerm(coeffs, last, s))
  }

  /** The most recent value goes with the first coefficient, the one before it with the second, and so on. */
  lemma TailSumStep(c: real, coeffs: seq<real>, v: real, last: seq<real>, limit: nat)
    ensures TailSum([c] + coeffs, last + [v], limit + 1) == Mul(c, v) + TailSum(coeffs, last, limit)
    ensures TailSum(coeffs, last, 0) == TailSum(coeffs, [], limit) == 0.0
  {
    var f, g, m := TailTerm([c] + coeffs, last + [v]), TailTerm(coeffs, last), Min(limit, |last|);
    assert f(0) == Mul(c, v) by { hide Mul; }
    forall i | 0 <= i < m ensures g(i) == f(i + 1) {
      assert At([c] + coeffs, i + 1) == At(coeffs, i);
      assert At(last + [v], |last| - 1 - i) == At(last, |last| - 1 - i);
      hide Mul, At;
    }
    hide Mul, TailTerm;
    SumFirst(0, m + 1, f);
    SumShift(0, m, 1, f, g);
  }

  /** Each seasonal coefficient goes with the value one more season back. */
  lemma SeasonSumStep(c: real, coeffs: seq<real>, last: seq<real>, limit: nat, s: nat)
    requires 1 <= s < |last|
    ensures SeasonSum([c] + coeffs, last, limit + 1, s)
         == Mul(c, last[|last| - 1 - s]) + SeasonSum(coeffs, last[..|last| - s], limit, s)
    ensures SeasonSum(coeffs, last, 0, s) == 0.0
  {
    var before := last[..|last| - s];
    var f, g := SeasonTerm([c] + coeffs, last, s), SeasonTerm(coeffs, before, s);
    assert f(0) == Mul(c, last[|last| - 1 - s]) by {
      assert Lag(1, s) == s;
      hide Mul, Lag;
    }
    forall i | 0 <= i < limit ensures g(i) == f(i + 1) {
      assert At([c] + coeffs, i + 1) == At(coeffs, i);
      NextLag(i + 1, s);
      LaterLag(i + 1, 0, s);
      assert At(before, |before| - 1 - Lag(i + 1, s)) == At(last, |last| - 1 - Lag(i + 2, s)) by { hide Lag; }
      hide Mul, At, Lag;
    }
    hide Mul, SeasonTerm;
    SumFirst(0, limit + 1, f);
    SumShift(0, limit, 1, f, g);
  }

  lemma NextLag(k: nat, s: nat)
    ensures Lag(k + 1, s) == Lag(k, s) + s
  {
  }

  /** Whether the seasonal loop only reads coefficients that exist. */
  predicate SeasonSafe(coeffs: seq<real>, last: seq<real>, limit: nat, s: nat) {
    forall k | 1 <= k <= limit :: Lag(k, s) < |last| ==> k <= |coeffs|
  }

  method SeasonDot(coeffs: seq<real>, last: seq<real>, limit: nat, s: nat) returns (ok: bool, sum: real)
    requires limit > 0 ==> s >= 1
    ensures ok <==> SeasonSafe(coeffs, last, limit, s)
    ensures ok ==> sum == SeasonSum(coeffs, last, limit, s)
  {
    hide Mul, Lag;
    sum := 0.0;
    for i := 0 to limit
      invariant forall k | 1 <= k <= i :: Lag(k, s) < |last| ==> k <= |coeffs|
      invariant sum == Sum(0, i, SeasonTerm(coeffs, last, s))
    {
      var idx := |last| - 1 - Lag(i + 1, s);
      if 0 <= idx < |last| {
        if i >= |coeffs| {
          return false, 0.0;
        }
        sum := sum + Mul(coeffs[i], last[idx]);
      } else {
        LaterLag(i + 1, 0, s);
        TimesZero(At(coeffs, i));
      }
    }
    ok := true;
  }

  function Base(lastValues: seq<real>): real {
    if |lastValues| > 0 then lastValues[|lastValues| - 1] else 0.0
  }

  /** As many steps as fit the horizon, at least one. */
  function StepCount(horizonSec: int, stepSec: int): (n: nat)
    requires stepSec > 0 && horizonSec >= 0
    ensures n >= 1 && horizonSec < (n + 1) * stepSec
    ensures horizonSec >= stepSec ==> n * stepSec <= horizonSec
  {
    if horizonSec / stepSec <= 0 then 1 else horizonSec / stepSec
  }

  /** One pass of the prediction loop before clamping, after the first. */
  method NextPrediction(preds: seq<real>, base: real, P: nat, s: int) returns (pred: real)
    requires |preds| >= 1
    ensures pred == Unclamped(preds, base, P, s)
  {
    hide Damped, SeasonalPull, Damping;
    var t := |preds|;
    var d := Damping(t);
    pred := base * 0.9 + preds[t - 1] * 0.1;
    if s > 0 && t >= s && P > 0 {
      pred := pred + SeasonalPull(preds[t - s], base, d);
    }
    pred := Damped(pred, base, d);
  }

  method Clamp(raw: real, base: real) returns (pred: real)
    ensures pred == Clamped(raw, base)
  {
    pred := raw;
    if pred < 0.0 {
      pred := 0.0;
    }
    if pred > base * 2.0 + 100.0 {
      pred := base * 2.0 + 100.0;
    }
    if pred > CEILING {
      pred := CEILING;
    }
  }

  /** The prediction loop from the first unclamped value on. */
  method FollowPath(first: real, base: real, P: nat, s: int, n: nat) returns (preds: seq<real>)
    requires n >= 1
    ensures preds == Path(first, base, P, s, n)
  {
    hide Unclamped, Clamped;
    preds := [];
    for t := 0 to n
      invariant |preds| == t
      invariant t > 0 ==> preds == Path(first, base, P, s, t)
    {
      var pred := first;
      if t > 0 {
        pred := NextPrediction(preds, base, P, s);
      }
      pred := Clamp(pred, base);
      preds := preds + [pred];
    }
  }
}
