/** pkg/models/arima.go: the ARIMA model object. */
module Arima {
  import opened TimeSeries
  import opened Fitting
  import opened DampedForecast
  import opened Quantiles
  import opened Models

  datatype Fitted = Fitted(
    arCoeffs: seq<real>, maCoeffs: seq<real>, mean: real,
    lastValues: seq<real>, lastErrors: seq<real>, residualStdDev: real)

  function MinPoints(p: nat, d: nat, q: nat): nat {
    var need := if p + d > q + d then p + d else q + d;
    if need > 10 then need else 10
  }

  /** What training on these values leaves, field by field. The clause on arCoeffs determines it, since
      a least-squares predictor is unique. */
  ghost predicate Describes(f: Fitted, values: seq<real>, p: nat, d: nat, q: nat) {
    var stationary := Diff(values, d);
    var centered := Deviations(stationary);
    var e := Residuals(centered, f.arCoeffs, [], 1, p);
    && f.mean == Mean(stationary)
    && ArFitted(centered, p, f.arCoeffs)
    && MaFitted(e, q, f.maCoeffs)
    && p <= |values| && f.lastValues == values[|values| - p..]
    && f.lastErrors == (if |e| >= q then e[|e| - q..] else Zeros(q))
    && ResidualSpread(e, f.residualStdDev)
  }

  method Fit(values: seq<real>, p: nat, d: nat, q: nat, sqrt: real -> real) returns (f: Fitted)
    requires p >= 1 && |values| >= MinPoints(p, d, q) && IsSqrt(sqrt)
    ensures Describes(f, values, p, d, q)
  {
    hide Diff, Mean, Deviations, MaFitted, Variance, LeastSquares, Residuals, ResidualSpread, IsSqrt;
    var stationary := Difference(values, d);
    var mean, centered, ar := FitCentred(stationary, p);
    var e := ComputeResiduals(centered, ar, [], 1, p);
    var ma := FitErrors(e, q);
    var lastErrors := Zeros(q);
    if |e| >= q {
      lastErrors := e[|e| - q..];
    }
    var sigma := ComputeSpread(e, sqrt);
    f := Fitted(ar, ma, mean, values[|values| - p..], lastErrors, sigma);
  }

  predicate Accepts(n: nat, p: nat, d: nat, q: nat) {
    n >= MinPoints(p, d, q)
  }

  /** An accepted history without residuals exists exactly for orders p >= q with p + d >= 10, such as
      ARIMA(9,1,1) on ten values. */
  lemma NoResidualsIff(p: nat, d: nat, q: nat)
    ensures (exists n: nat | Accepts(n, p, d, q) :: n <= p + d) <==> p >= q && p + d >= 10
    ensures MinPoints(9, 1, 1) == 9 + 1
  {
    if p >= q && p + d >= 10 {
      assert Accepts(p + d, p, d, q);
    }
  }

  class ArimaModel {
    const metric: string
    const stepSec: int
    const horizonSec: int
    const p: nat
    const d: nat
    const q: nat

    var trained: bool
    var arCoeffs: seq<real>
    var maCoeffs: seq<real>
    var mean: real
    var lastValues: seq<real>
    var lastErrors: seq<real>
    var residualStdDev: real

    ghost predicate Configured() {
      0 < stepSec <= horizonSec && p >= 1 && 1 <= d <= 2 && q >= 1
    }

    /** The requires clause is the constructor's panics; zero orders become one. */
    constructor (metric: string, stepSec: int, horizonSec: int, p: nat, d: nat, q: nat)
      requires metric != "" && 0 < stepSec <= horizonSec && d <= 2
      ensures Configured() && !trained
      ensures this.metric == metric && this.stepSec == stepSec && this.horizonSec == horizonSec
      ensures this.p == (if p == 0 then 1 else p) && this.d == (if d == 0 then 1 else d)
      ensures this.q == (if q == 0 then 1 else q)
    {
      this.metric, this.stepSec, this.horizonSec := metric, stepSec, horizonSec;
      this.p := if p == 0 then 1 else p;
      this.d := if d == 0 then 1 else d;
      this.q := if q == 0 then 1 else q;
      trained := false;
      arCoeffs, maCoeffs, mean, lastValues, lastErrors, residualStdDev := [], [], 0.0, [], [], 0.0;
    }

    /** The fitted fields as one value. */
    function State(): Fitted
      reads this
    {
      Fitted(arCoeffs, maCoeffs, mean, lastValues, lastErrors, residualStdDev)
    }

    ghost predicate TrainedOn(values: seq<real>)
      reads this
    {
      |values| >= MinPoints(p, d, q) && trained && Describes(State(), values, p, d, q)
    }

    method Train(cancelled: bool, rows: seq<Row>, sqrt: real -> real) returns (outcome: TrainOutcome)
      requires Configured() && IsSqrt(sqrt)
      modifies this
      ensures outcome.TrainCancelled? <==> cancelled
      ensures outcome.MissingValue? <==> !cancelled && !AllHaveValue(rows)
      ensures outcome.TooFewPoints? <==> !cancelled && AllHaveValue(rows) && |rows| < MinPoints(p, d, q)
      ensures outcome.Trained? ==> TrainedOn(Values(rows))
      ensures !outcome.Trained? ==> unchanged(this)
    {
      hide Values, Describes;
      if cancelled {
        return TrainCancelled;
      }
      var missing, values := ExtractValues(rows);
      if missing != -1 {
        return MissingValue(missing);
      }
      if |values| < MinPoints(p, d, q) {
        return TooFewPoints(MinPoints(p, d, q));
      }
      var f := Fit(values, p, d, q, sqrt);
      trained, arCoeffs, maCoeffs, mean := true, f.arCoeffs, f.maCoeffs, f.mean;
      lastValues, lastErrors, residualStdDev := f.lastValues, f.lastErrors, f.residualStdDev;
      outcome := Trained;
    }

    /** Whether the first prediction step only reads coefficients that exist. */
    predicate SafeToPredict()
      reads this
    {
      Min(p, |lastValues|) <= |arCoeffs| && Min(q, |lastErrors|) <= |maCoeffs|
    }

    /** After training on n values, Predict stays inside its slices exactly when n > p + d: at
        n == p + d there is no residual, fitMA returns nothing, and lastErrors still has q entries. */
    lemma SafeIff(values: seq<real>)
      requires Configured() && TrainedOn(values)
      ensures SafeToPredict() <==> |values| > p + d
    {
      DiffLength(values, d);
      hide Diff, Mean, Autocorr, LeastSquares, Variance, ResidualSpread;
    }

    /** Training keeps the last p values, so Predict starts from the last of them, and the last q residuals,
        or zeros when there are fewer. */
    lemma TailKept(values: seq<real>)
      requires Configured() && TrainedOn(values)
      ensures |lastValues| == p && forall i | 0 <= i < p :: lastValues[i] == values[|values| - p + i]
      ensures Base(lastValues) == values[|values| - 1]
      ensures |lastErrors| == q && (|values| < p + d + q ==> forall i | 0 <= i < q :: lastErrors[i] == 0.0)
    {
      DiffLength(values, d);
      hide Diff, Mean, Autocorr, LeastSquares, Variance, ResidualSpread;
    }

    function First(): real
      reads this
    {
      Base(lastValues) + (TailSum(arCoeffs, lastValues, p) + TailSum(maCoeffs, lastErrors, q)) * 0.1
    }

    /** The first step moves a tenth of the way by which both predictors together leave the last value. */
    lemma FirstStep()
      ensures 10.0 * (First() - Base(lastValues)) == TailSum(arCoeffs, lastValues, p) + TailSum(maCoeffs, lastErrors, q)
    {
    }

    method Predict(cancelled: bool, sqrt: real -> real) returns (outcome: PredictOutcome)
      requires Configured() && IsSqrt(sqrt)
      ensures outcome.PredictCancelled? <==> cancelled
      ensures outcome.NotTrained? <==> !cancelled && !trained
      ensures outcome.IndexOutOfRange? <==> !cancelled && trained && !SafeToPredict()
      ensures outcome.Forecasted? ==>
        var n := StepCount(horizonSec, stepSec);
        && outcome.values == Path(First(), Base(lastValues), 0, 0, n)
        && outcome.quantiles == Emitted(outcome.values, residualStdDev, Spread(sqrt, n))
    {
      hide TailSum, Path, Emitted;
      if cancelled {
        return PredictCancelled;
      }
      if !trained {
        return NotTrained;
      }
      var n := StepCount(horizonSec, stepSec);
      var base := Base(lastValues);
      var okAr, arPred := TailDot(arCoeffs, lastValues, p);
      if !okAr {
        return IndexOutOfRange;
      }
      var okMa, maPred := TailDot(maCoeffs, lastErrors, q);
      if !okMa {
        return IndexOutOfRange;
      }
      var values := FollowPath(base + (arPred + maPred) * 0.1, base, 0, 0, n);
      var quantiles := Emit(values, residualStdDev, Spread(sqrt, n));
      outcome := Forecasted(values, quantiles);
    }
  }
}
