# Kedastral: a verified model of forecasting, planning and the workload lifecycle

Kedastral turns the history of a metric into a replica plan: a model (baseline, ARIMA or SARIMA)
forecasts the load, the capacity planner turns the forecast into pod counts, a goroutine per workload
repeats this and stores snapshots, and the KEDA scaler reports one count from the latest snapshot. This
project models that pipeline in Dafny and proves what it promises. `dafny verify dfyconfig.toml` checks
all of it. Nothing was executed.

## What is modelled

**Fitting** (`RealSums`, `TimeSeries`, `Levinson`, `PredictionError`, `AutoRegression`, `Fitting`). The
Levinson–Durbin loop is proved to solve the Yule–Walker equations on any autocorrelation sequence. On the
sample autocorrelations the code feeds it, the prediction variance of each stage is the zero-padded
squared prediction error divided by the series' energy. So it is positive at every stage, for every
order and every season, both error returns are unreachable, and the coefficients are the unique
least-squares predictor. Autocorrelations are at most one in size, so the MA rescaling never acts.

**Forecasting** (`DampedForecast`, `Quantiles`, `Models`, `Arima`, `Sarima`, `Trend`, `Baseline`). The
multi-step recursion has an exact solution: base plus a fixed fraction of the first step's distance from
it. The stability bounds follow from it, and so does the exact range of base values where the solution
holds. `ArimaModel` and `SarimaModel` are classes whose `Train` and `Predict` carry the whole state; an
out-of-range index in `Predict` is an outcome, and the condition for it is proved in both directions.
The baseline trend is the unique best line, and affine histories are continued exactly.

**Planning** (`Planner`, `PlannerLaws`, `PlannerLimits`, `ControlLoop`, `Scaler`). `ToReplicas` is proved
equal to a step-by-step specification. Bounds, rate limits, monotonicity and convergence are proved of
whole plans, then carried through runs of ticks and to the count the scaler reports.

**Evaluation** (`Metrics`, `Backtest`). The walk-forward loop is causal, its windows add up, and under
covering forecasts it never under-provisions.

**Concurrency** (`MemoryStore`, `StopHandshake`, `Lifecycle`, `LifecycleWrites`, `LifecycleOwners`,
`LifecycleEnds`, `LifecycleRuns`, `MultiForecaster`). Start, Upsert, Remove, goroutine steps, cancellation
and TTL cleanups are one interleaved step system, and so is the store's Stop against its cleanup goroutine. Theorems are about every legal run.

Conventions: float64 is exact `real`; `math.Sqrt` is a parameter assumed to return the non-negative
square root; `math.Round` on non-negative values is floor(x + 0.5). Contexts are flags; the clock is a
parameter. Products are written `Mul(a, b)`. `At` reads a series as zero outside its range. A call made
under the mutex is one step; a tick is split where `Put` checks its context. A TTL cleanup may remove any
snapshots, since every snapshot grows old; a store without TTL, which the forecaster's wiring uses
(`cmd/forecaster/store/store.go:93`), has none. The planner's `stepSec` argument is not modelled because
no output depends on it.

## Statements that are false as usually put

Each has a proved exact condition, and an input or a run that fails it.

- Non-negative forecasts (`pkg/models/model.go:83`): the cap `base*2+100` runs after the zero clamp, so
  they hold exactly for a base value of at least -50 (`DampedForecast.NonNegativeIff`).
- The damped solution holds exactly for a base in [0, 1e9], or the isolated -100
  (`DampedForecast.ExactSolutionIff`).
- Plans rise with the load exactly when the rate limits never cross within the bounds
  (`PlannerLimits.MonotoneIff`). With no upper bound that is `up + down/100 >= 1`
  (`PlannerLimits.UnboundedIff`), so `up >= 1` always suffices.
- A step obeys both rate limits exactly when the limits at its starting count are in order and leave room
  for MinReplicas (`PlannerLaws.RateLimitIff`). A policy with up = 1/2 and down = 0 breaks this and the
  previous one (`PlannerLaws.CrossedExample`).
- ARIMA `Predict` stays inside its slices exactly when training had more than p + d values
  (`Arima.ArimaModel.SafeIff`); a shorter accepted history exists exactly for p >= q with p + d >= 10, such
  as ARIMA(9,1,1) on ten values (`Arima.NoResidualsIff`). SARIMA `Predict` leaves its slices exactly when
  the last training run had no residual but an earlier one had stored errors (`Sarima.SafeIff`), as in
  `Sarima.StaleExample`; and while a run is under way exactly when its errors are torn
  (`Sarima.TornSafeIff`).
- `Remove` leaves the snapshot deleted for good exactly when no goroutine of that name sits between
  `Put`'s context check and its write (`LifecycleWrites.RemoveSettles`, reached in
  `LifecycleRuns.LateWriteReached`).
- A stored snapshot is safe from everything but `Remove` exactly when the store has no TTL and no earlier
  `Remove` of that name still has its delete to come (`LifecycleWrites.SafeIff`, reached in
  `LifecycleRuns.LateDeleteReached`). It stays the registered goroutine's own exactly when no replaced
  goroutine of that name is in the gap (`LifecycleOwners.OwnedIff`, reached in
  `LifecycleRuns.OverwriteReached`).
- One live goroutine per name survives a run exactly when every `Start` in it was the first or found no
  workload registered (`Lifecycle.InvRunIff`, broken in `LifecycleRuns.SecondStart`).

Where documentation and code differ the model follows the code:

- `docs/planner/MATH.md:52-61` shifts the forecast by the lead time; the planner does not.
- `cmd/scaler/README.md:70` leaves out the window's last index; the scaler includes it.
- The comments at `pkg/models/arima.go:101`, `pkg/models/arima.go:191` and `pkg/models/sarima.go:232`
  speak of the innovations algorithm and inverse differencing; the code uses autocorrelations as MA
  coefficients and adds its corrections to the last observed value.

## Model

| member | source | states |
|---|---|---|
| `TimeSeries.DiffLength` | pkg/models/arima.go:298-315 | d-fold differencing removes exactly d points, and everything when there are fewer than d |
| `TimeSeries.Difference` | pkg/models/arima.go:298-315 | the differencing loop and its recursion compute d-fold first differences |
| `TimeSeries.DiffTelescopes` | pkg/models/arima.go:305-308 | differences between two indices add up to what the series gained between them |
| `TimeSeries.DiffCompose` | pkg/models/arima.go:298-315 | differencing a times and then b times is differencing a + b times |
| `TimeSeries.ComputeVariance` | pkg/models/arima.go:331-343 | the loop returns the population variance, zero on the empty series |
| `TimeSeries.VarianceMeaning` | pkg/models/arima.go:331-343 | the variance is the mean square minus the squared mean |
| `TimeSeries.ComputeAutocorr` | pkg/models/arima.go:373-395 | the loop returns the lagged products of deviations over the lag-0 sum, zero for lags outside the series and for a zero denominator |
| `TimeSeries.DegenerateIffConstant` | pkg/models/arima.go:377-391 | the denominator of autocorr vanishes exactly on constant series |
| `Levinson.LevinsonDurbin` | pkg/models/arima.go:398-439 | the table-filling loop returns exactly the recursion's coefficients, or its failure |
| `Levinson.RunSolves` | pkg/models/arima.go:398-439 | whenever the recursion succeeds, on any acf, all k Yule–Walker equations hold and v = acf[0] - sum phi[j]*acf[j] |
| `Levinson.ReflectionBound` | pkg/models/arima.go:412-436 | a successful run with acf[0] > 0 had reflection coefficients in [-1, 1] and a positive non-increasing variance at every earlier stage |
| `PredictionError.Optimal` | pkg/models/arima.go:398-439 | a Yule–Walker solution has squared prediction error c0*v, and any other predictor exceeds it by the energy of the difference |
| `AutoRegression.NeverFails` | pkg/models/arima.go:346-439 | on the autocorrelations of any non-constant series, at any stride and order, the variance is positive at every stage, so neither error return is reachable |
| `AutoRegression.ReflectionInside` | pkg/models/arima.go:346-439 | every reflection coefficient of such a run lies strictly inside (-1, 1) |
| `AutoRegression.UniqueLeastSquares` | pkg/models/arima.go:346-439 | the coefficients are the unique minimiser of the zero-padded squared prediction error, whose value is c0*v |
| `AutoRegression.AutocorrBound` | pkg/models/arima.go:373-395 | autocorrelation is at most 1 in size at every lag of every series, and 1 at lag 0 exactly when the series is not constant |
| `Fitting.FitCharacterised` | pkg/models/sarima.go:377-396 | fitting fails exactly on constant series and otherwise gives the unique least-squares predictor |
| `Fitting.FitAR` | pkg/models/arima.go:346-370 | zero coefficients on negligible variance, otherwise the unique least-squares predictor; the 0.5 default is never used |
| `Fitting.FitSeasonalAR` | pkg/models/sarima.go:377-396 | the 0.3 default exactly on constant series, otherwise the unique least-squares predictor from whole seasons back |
| `Fitting.FitMA` | pkg/models/arima.go:462-484 | no coefficients without residuals; otherwise the autocorrelations at lags 1..q, never rescaled, all in [-1, 1] |
| `Fitting.FitSeasonalMA` | pkg/models/sarima.go:399-414 | the same at lags s, 2s, ..., Qs |
| `Fitting.RescalingIsNoOp` | pkg/models/arima.go:477-481 | dividing by the size of an autocorrelation above one never changes a coefficient |
| `Fitting.ComputeResiduals` | pkg/models/sarima.go:417-443 | the residual loops stay inside the series and leave value minus both predictions, from max(p, sP) on |
| `Fitting.FilterIsResidual` | pkg/models/sarima.go:417-443 | at any stride, value minus prediction is the output of the prediction-error filter |
| `Fitting.ResidualsShrink` | pkg/models/arima.go:442-459 | a least-squares fit never leaves more residual energy than the series itself has |
| `DampedForecast.ExactSolution` | pkg/models/sarima.go:271-326 | for base in [0, 1e9] every prediction is base plus a data-independent fraction of the first one's distance, and no clamp acts after step 0 |
| `DampedForecast.Recurrence` | pkg/models/sarima.go:302-313 | those fractions: (10+t)(pred_t - base) is pred_(t-1) - base, and with the seasonal term (10+t)^2 (pred_t - base) is (10+t)(pred_(t-1) - base) + 30 (pred_(t-s) - base) |
| `DampedForecast.FirstKept` | pkg/models/arima.go:254-263 | a first value inside the three clamps is the first prediction |
| `DampedForecast.ExactSolutionIff` | pkg/models/sarima.go:302-326 | that holds for all first steps and horizons exactly for base in [0, 1e9] or base = -100 |
| `DampedForecast.Stability` | pkg/models/sarima.go:271-326 | predictions lie between base and prediction 0 and approach base at least as fast as 0.4 per whole season with the seasonal term, 0.1 per step without |
| `DampedForecast.NonNegativeIff` | pkg/models/arima.go:254-263 | a prediction is non-negative exactly when base is at least -50 |
| `Quantiles.LevelsOrdered` | pkg/models/arima.go:268-286 | the emitted levels are non-negative, as long as the forecast, and ordered pointwise |
| `Quantiles.EmittedLevels` | pkg/models/arima.go:268-286 | which four levels there are, and that each adds z times sigma times the band's width with z = 0, 0.674, 1.282, 1.645; none without spread |
| `Quantiles.SpreadSquared` | pkg/models/arima.go:279-283 | the band's width at step i is the root of 1 + i/10 |
| `Quantiles.MedianIsForecast` | pkg/models/arima.go:268-286 | the 0.50 level repeats a non-negative point forecast |
| `Models.CentredTwice` | pkg/models/arima.go:132-144 | centring a centred series changes nothing, so the fits work on the centred values themselves |
| `Models.ExtractValues` | pkg/models/arima.go:115-122 | returns all values, or stops at the first row without a value field |
| `Models.FollowPath` | pkg/models/sarima.go:271-326 | the prediction loop computes the damped path, whose steps Recurrence gives, from the first value |
| `Models.TailSumStep` | pkg/models/sarima.go:275-278 | the most recent value goes with the first coefficient and the rest recursively |
| `Models.SeasonSumStep` | pkg/models/sarima.go:280-286 | the value one season back goes with the first seasonal coefficient and the rest recursively |
| `Models.UniformSpread` | pkg/models/arima.go:161-170 | residuals of one size c have a squared spread of c*c*n/(n-1) |
| `Planner.Normalise` | pkg/capacity/planner.go:57-83 | a field changes only where it is out of range, and to which default |
| `Arima.Fit` | pkg/models/arima.go:130-181 | training leaves the mean, coefficients, last values, errors and spread that the differenced series determines |
| `Arima.ArimaModel.constructor` | pkg/models/arima.go:49-87 | zero orders become one; the panics, the empty metric name among them, are the precondition |
| `Arima.ArimaModel.Train` | pkg/models/arima.go:110-184 | which outcome each input gets, the whole fitted state on success, and nothing changed otherwise |
| `Arima.ArimaModel.TailKept` | pkg/models/arima.go:151-159 | a trained model keeps the last p values, so Predict starts from the last of them, and q errors, all zero when there are fewer residuals |
| `Arima.ArimaModel.FirstStep` | pkg/models/arima.go:236-247 | ten times the first step's move is what both predictors give |
| `Arima.ArimaModel.SafeIff` | pkg/models/arima.go:130-246 | after training on n values Predict's indices are in range exactly when n > p + d |
| `Arima.NoResidualsIff` | pkg/models/arima.go:124-128 | an accepted history without residuals exists exactly for p >= q with p + d >= 10 |
| `Arima.ArimaModel.Predict` | pkg/models/arima.go:199-295 | which outcome each state gets, and the damped path with its quantiles on success |
| `Sarima.SeasonalDifference` | pkg/models/sarima.go:357-374 | the loop and its recursion compute D-fold seasonal differences |
| `Sarima.SeasonalDiffSums` | pkg/models/sarima.go:364-367 | a seasonal difference is the sum of one season of ordinary differences |
| `Sarima.SeasonalDiffZeroIff` | pkg/models/sarima.go:364-367 | it vanishes exactly on series that repeat with the season |
| `Sarima.Orders.StationaryLength` | pkg/models/sarima.go:136-155 | on any accepted history both differencings together remove exactly d + sD points |
| `Sarima.AcceptedIff` | pkg/models/sarima.go:136-149 | which history lengths training accepts, one requirement at a time |
| `Sarima.Fit` | pkg/models/sarima.go:151-224 | the fitted state determined by the history and by the errors kept from before; TailKept says which values and errors it keeps |
| `Sarima.TailKept` | pkg/models/sarima.go:191-203 | training keeps the last max(p, sP) values in order, so Predict starts from the last of them, and the last max(q, sQ) residuals when there are that many |
| `Sarima.StoredIff` | pkg/models/sarima.go:198-203 | after any sequence of trainings errors are in store exactly when some run had at least max(q, sQ) residuals |
| `Sarima.StaleIff` | pkg/models/sarima.go:198-203 | stored errors outlive their coefficients exactly when the last run had no residual and an earlier one stored errors |
| `Sarima.SarimaModel.Train` | pkg/models/sarima.go:122-227 | outcomes, the whole fitted state, and the invariant that ties stored errors and coefficient lengths to the history of trainings |
| `Sarima.SarimaModel.StoreTail` | pkg/models/sarima.go:191-203 | the two assignments before the lock change the tail and nothing else |
| `Sarima.SarimaModel.FirstStep` | pkg/models/sarima.go:274-301 | ten times the first step's move is what the four predictors give |
| `Sarima.SafeIff` | pkg/models/sarima.go:171-313 | between trainings Predict's indices leave their slices exactly when the last run had no residual and an earlier one stored errors |
| `Sarima.TornSafeIff` | pkg/models/sarima.go:191-221 | a Predict between the unlocked and the locked assignments of Train leaves its slices exactly when the published run had no residual and errors are stored by now |
| `Sarima.NoResidualsIff` | pkg/models/sarima.go:136-149 | an accepted history without residuals exists exactly when the shortest one, of MinPoints values, leaves none |
| `Sarima.StaleExample` | pkg/models/sarima.go:136-203 | SARIMA(1,1,1)(1,1,1,10) trained on 40 and then 20 values has stale errors, and in the other order torn ones |
| `Sarima.SarimaModel.Predict` | pkg/models/sarima.go:233-354 | which outcome each state gets, an out-of-range index among them, and the damped path with its quantiles on success |
| `Planner.ComputeAdjusted` | pkg/capacity/planner.go:85-105 | the loop computes fractional pods from the quantile without headroom, or from the forecast with it |
| `Planner.ComputeNeed` | pkg/capacity/planner.go:111-121 | the window loop finds the maximum over indices i..i+prewarm that exist |
| `Planner.ToReplicas` | pkg/capacity/planner.go:53-133 | the loop carrying the previous output computes the specified plan |
| `Planner.OutputsAt` | pkg/capacity/planner.go:107-133 | every entry of a plan is one bounds-change-bounds step from the entry before it |
| `PlannerLaws.RoundMeaning` | pkg/capacity/planner.go:136-145 | floor, nearest with halves up, and ceiling, as inequalities |
| `PlannerLaws.RateLimitIff` | pkg/capacity/planner.go:147-181 | a step obeys both rate limits exactly when they are in order and leave room for MinReplicas |
| `PlannerLaws.RoomMeaning` | pkg/capacity/planner.go:157-181 | room at a count in the policy's numbers: growth comes within a pod of MinReplicas and no whole number separates it from what must be kept |
| `PlannerLaws.StepRate` | pkg/capacity/planner.go:157-181 | with room a step stays below up*max(1, prev) + 1 and above prev*(1 - down/100) - 1, and stops short of the bounded request only at those limits |
| `PlannerLaws.CrossedExample` | pkg/capacity/planner.go:157-181 | with up = 1/2 and down = 0 the limits cross at ten pods, and no step from there obeys both |
| `PlannerLaws.RoomEverywhere` | pkg/capacity/planner.go:157-181 | policies with up >= 1, or coherent ones that can hold MinReplicas, have room at every count in bounds |
| `PlannerLaws.FinalClampIdle` | pkg/capacity/planner.go:125-131 | for up >= 1 the change clamp lands between previous and requested, so the final bounds clamp does nothing |
| `PlannerLaws.PlanBoundsAndRates` | pkg/capacity/planner.go:107-133 | every entry is within bounds for every input, and within both rate limits exactly when there is room at the entry before it |
| `PlannerLaws.PlanRates` | pkg/capacity/planner.go:107-133 | the same for every entry of every plan against the entry before it |
| `PlannerLaws.StepMonotone` | pkg/capacity/planner.go:125-131 | where the limits never cross, a larger previous or requested count never lowers a step |
| `PlannerLaws.MonotoneInLoad` | pkg/capacity/planner.go:85-133 | pointwise larger load, larger previous count or longer prewarm never lowers any entry of the plan |
| `PlannerLaws.MonotoneInQuantile` | pkg/capacity/planner.go:85-133 | moving up among the four levels of the built-in models never lowers any entry of the plan, whether or not the model emits quantiles |
| `PlannerLaws.MonotoneInRounding` | pkg/capacity/planner.go:136-145 | plan(floor) <= plan(round) <= plan(ceil) at every entry |
| `PlannerLaws.QuantileReplaces` | pkg/capacity/planner.go:85-105 | an available quantile replaces forecast and headroom; an unavailable one has no influence |
| `PlannerLimits.SingleStep` | pkg/capacity/planner.go:53-133 | on the load that asks for exactly n pods, a one-step plan is one step of the clamps towards n |
| `PlannerLimits.MonotoneIff` | pkg/capacity/planner.go:53-181 | for every policy, plans are monotone in the load exactly when the rate limits never cross within the bounds |
| `PlannerLimits.UnboundedIff` | pkg/capacity/planner.go:157-181 | with no upper bound the limits never cross exactly when up + down/100 >= 1 |
| `PlannerLimits.ProgressIff` | pkg/capacity/planner.go:157-181 | a step rises towards a higher target exactly when up > 1 or the count is zero, and for up >= 1 falls towards a lower one exactly when down >= 1 |
| `PlannerLimits.Converges` | pkg/capacity/planner.go:107-181 | on constant demand no overshoot, strict approach every step, and the geometric rates of up and down |
| `PlannerLimits.PlanConverges` | pkg/capacity/planner.go:53-181 | the same for ToReplicas on a constant forecast, whatever the prewarm window |
| `ControlLoop.WorkloadForecaster.constructor` | cmd/forecaster/forecaster.go:72-102 | a new instance starts at MinReplicas |
| `ControlLoop.WorkloadForecaster.DoTick` | cmd/forecaster/forecaster.go:262-331 | the plan of each tick, the count it leaves, and that ticks failing before planning change nothing |
| `ControlLoop.RunInBounds` | cmd/forecaster/forecaster.go:390-417 | over any run of ticks the count is within bounds from the first non-empty plan on, and MinReplicas before it |
| `ControlLoop.RunRate` | cmd/forecaster/forecaster.go:262-331 | a run with k moving ticks moves the count by at most k limit steps: at most up^k*max(1, x) + 1 + up + ... + up^(k-1), and the mirror image downwards |
| `ControlLoop.PublishedGrowth` | cmd/forecaster/forecaster.go:300-331 | with m failed store writes between two published plans the first entry moves by at most m + 1 limit steps, with the same closed bounds |
| `Scaler.SelectReplicas` | cmd/scaler/scaler.go:264-295 | the maximum of the plan up to the lead index, 1 for an empty plan, and a division by zero exactly for a non-empty plan with a zero step |
| `Scaler.LeadWindow` | cmd/scaler/scaler.go:270-285 | the window is 0..min(lead/step, n-1) with its end included and never shrinks as the lead grows |
| `Scaler.ReportedCount` | cmd/scaler/scaler.go:264-295 | for any policy, forecast and quantiles the reported count is within the planner's bounds and never drops with a longer lead |
| `Scaler.ReportedQuantile` | cmd/scaler/scaler.go:264-295 | nor when the policy moves up among the quantile levels of any built-in model's forecast |
| `Metrics.MAE` | pkg/backtest/metrics.go:13-22 | the loop returns the mean absolute error, zero on no points |
| `Metrics.MaeZeroIff` | pkg/backtest/metrics.go:13-22 | MAE is zero exactly when every prediction was right |
| `Metrics.UniformErrors` | pkg/backtest/metrics.go:13-35 | errors of one size c give MAE c and mean squared error c*c |
| `Metrics.RMSE` | pkg/backtest/metrics.go:25-35 | the loop returns the non-negative root of the mean squared error |
| `Metrics.MaeAtMostRmse` | pkg/backtest/metrics.go:13-35 | MAE never exceeds RMSE |
| `Metrics.UnderProvisionedRate` | pkg/backtest/metrics.go:58-69 | the loop returns the fraction of steps planned below need |
| `Metrics.UnderCountMeaning` | pkg/backtest/metrics.go:58-69 | the count behind it is at most the number of steps and zero exactly when no step falls short |
| `Metrics.UnderCountIsSize` | pkg/backtest/metrics.go:58-69 | every short step counts once |
| `Metrics.RateOneIff` | pkg/backtest/metrics.go:58-69 | the rate lies in [0, 1] and is one exactly when every step falls short |
| `Backtest.StepsOf` | pkg/backtest/backtest.go:61-67 | window, horizon and stride are the whole steps that fit each duration; a shorter stride is one step |
| `Backtest.NeededIff` | pkg/backtest/backtest.go:134-143 | the need is the least count, no lower than MinReplicas, whose pods carry the load |
| `Backtest.Run` | pkg/backtest/backtest.go:47-129 | rejection exactly on bad configurations; otherwise the report of all windows with its MAE, RMSE and rate, MAE <= RMSE, rate 0 exactly when every need is met, and the first scored value the one at window/step |
| `Backtest.WindowScored` | pkg/backtest/backtest.go:80-113 | scoring a window passes on the first count of its plan |
| `Backtest.WindowHolds` | pkg/backtest/backtest.go:80-113 | every scored step of every window is in the final lists: forecast, value that followed, planned count, needed count |
| `Backtest.WindowsAddUp` | pkg/backtest/backtest.go:61-121 | Windows + Skipped = floor((N - W - H)/stride) + 1 |
| `Backtest.WalkLengths` | pkg/backtest/backtest.go:61-121 | predicted, actual, planned and needed always have equal length |
| `Backtest.Causal` | pkg/backtest/backtest.go:61-121 | series that agree below c give identical predictions, plans and running counts for all windows starting at or before c |
| `Backtest.NeverUnderProvisioned` | pkg/backtest/backtest.go:80-143 | covering forecasts, ceil rounding, no quantiles and reachable needs leave no step of any window short |
| `Trend.DenominatorPositive` | pkg/models/baseline.go:386-424 | the regression denominator is positive on two or more points, so its zero guard never fires |
| `Trend.BestLine` | pkg/models/baseline.go:386-424 | the fitted line is the unique minimiser of squared error over all lines |
| `Trend.DetectTrend` | pkg/models/baseline.go:386-424 | the loop returns that slope per 60 seconds over the last ten points, which TrendForgets shows to be all that counts |
| `Trend.TrendForgets` | pkg/models/baseline.go:391-395 | the trend of ten or more points is that of the last ten, whatever came before |
| `Trend.AffineTrend` | pkg/models/baseline.go:386-424 | on an affine history of two or more points the trend is its slope over 60 |
| `Trend.AffineEnd` | pkg/models/baseline.go:386-424 | a history that ends in ten or more points of a line has that line's slope over 60 as its trend |
| `Trend.AffineMomentum` | pkg/models/baseline.go:431-449 | on an affine history momentum is exactly zero |
| `Trend.HalvesMomentum` | pkg/models/baseline.go:431-449 | momentum is the slope of the newer half minus that of the older one, over 60 |
| `Baseline.ComputeSeasonalPattern` | pkg/models/baseline.go:172-212 | nothing for no values; otherwise the exact maximum and minimum, the mean between them, the count and the spread |
| `Baseline.Predict` | pkg/models/baseline.go:232-380 | which outcome each input gets, a division by zero for a zero step among them, every forecast step and the quantiles |
| `Baseline.ParabolaIsTrendAndMomentum` | pkg/models/baseline.go:282-284 | the extrapolation is the parabola with the trend as its slope and the momentum per minute as its curvature |
| `Baseline.BlendBetween` | pkg/models/baseline.go:320-345 | the seasonal blend lies between the extrapolation and the seasonal value whatever their ratio |
| `Baseline.BlendBands` | pkg/models/baseline.go:320-345 | the share of the seasonal value by where it lies among 0.8, 1.2 and 1.5 times base + 1, without the ratio |
| `Baseline.PatternValueBetween` | pkg/models/baseline.go:295-318 | with momentum up the seasonal value is seven tenths mean and three tenths maximum, otherwise the mean; never past the maximum |
| `Baseline.MinuteLookup` | pkg/models/baseline.go:286-306 | minute patterns are preferred, start at the current minute and advance by one per 60 seconds around the hour |
| `Baseline.HourLookup` | pkg/models/baseline.go:308-318 | hour patterns stand in where there are no minute patterns and advance by one per 3600 seconds around the day |
| `Baseline.SpikeForecast` | pkg/models/baseline.go:278-353 | end to end, a pattern far above a non-negative extrapolation gets eight tenths of the forecast |
| `Baseline.PresentConcat` | pkg/models/baseline.go:237-243 | the values are those of the rows that have one, in order |
| `Baseline.AffineForecast` | pkg/models/baseline.go:249-353 | on an affine history without a pattern the forecast is the non-negative part of the line continued |
| `Baseline.AffineMinutes` | pkg/models/baseline.go:249-353 | with a 60-second step, forecast step i is point n + i of the line |
| `Baseline.PresentSingle` | pkg/models/baseline.go:237-243 | a single row gives its value, or nothing without one |
| `Baseline.AheadSteps` | pkg/models/baseline.go:278-288 | the first forecast is one model step ahead and each further one a step later |
| `MemoryStore.Store.Put` | pkg/storage/memory.go:125-141 | which outcome each call gets, and the new map; every key stays its snapshot's workload |
| `MemoryStore.Store.GetLatest` | pkg/storage/memory.go:151-163 | a hit exactly when the key is present, with a snapshot of that workload |
| `MemoryStore.Store.Delete` | pkg/storage/memory.go:198-205 | removes that key only and reports whether it was there |
| `MemoryStore.Store.Cleanup` | pkg/storage/memory.go:104-118 | leaves exactly the entries no older than the TTL, in whatever order the map yields them |
| `MemoryStore.FreshBoundary` | pkg/storage/memory.go:104-118 | an entry exactly as old as the TTL stays and one any older goes |
| `MemoryStore.CleanupsCompose` | pkg/storage/memory.go:104-118 | an earlier cleanup never changes what a later one leaves |
| `StopHandshake.Safety` | pkg/storage/memory.go:71-101 | for any number of Stop callers each channel is closed at most once, and after any return the goroutine is gone |
| `StopHandshake.CountersMatch` | pkg/storage/memory.go:71-101 | the counted channel closes and cleanups are those of the run |
| `StopHandshake.NoCleanupAfterStop` | pkg/storage/memory.go:71-101 | no continuation of a run in which some Stop has returned performs another cleanup |
| `StopHandshake.NoDeadlock` | pkg/storage/memory.go:71-101 | until every Stop is back some step other than a ticker firing is enabled |
| `StopHandshake.RankDecreases` | pkg/storage/memory.go:71-101 | every step but a ticker firing strictly reduces the remaining work |
| `StopHandshake.StopCanFinish` | pkg/storage/memory.go:71-101 | from every reachable state all Stop callers can return within that many steps |
| `Lifecycle.InvStep` | cmd/forecaster/forecaster.go:127-213 | every step keeps the lifecycle invariant, a Start if it is the first or finds nothing registered |
| `Lifecycle.StartIff` | cmd/forecaster/forecaster.go:127-138 | one Start keeps the invariant exactly when it is the first or finds no workload registered |
| `Lifecycle.InvRunIff` | cmd/forecaster/forecaster.go:127-213 | the invariant holds at the end of a run exactly when every Start in it was like that: what a second Start orphans no later step can cancel |
| `Lifecycle.OneGoroutinePerName` | cmd/forecaster/forecaster.go:127-213 | in every state reached with such Starts each registered name has exactly one uncancelled goroutine, the one in the map; all others are cancelled; the wait group counts those not exited |
| `LifecycleWrites.LateWrites` | cmd/forecaster/forecaster.go:419-437 | once its context is done a goroutine writes at most once more, and only if already past Put's check |
| `LifecycleWrites.WritesAfterRemove` | cmd/forecaster/forecaster.go:176-195 | after Remove, until the next Upsert, writes to the key are exactly the gaps used up |
| `LifecycleWrites.RemoveSettles` | cmd/forecaster/forecaster.go:176-195 | the deleted snapshot stays deleted exactly when no goroutine of that name is in the gap |
| `LifecycleWrites.KeyStays` | pkg/storage/memory.go:125-141 | in a store without TTL a snapshot without a pending delete survives every run without a Remove of its name |
| `LifecycleWrites.SafeIff` | cmd/forecaster/forecaster.go:176-195 | a stored snapshot survives all such runs exactly when the store has no TTL and no delete of its name is pending |
| `LifecycleOwners.OwnedIff` | cmd/forecaster/forecaster.go:157-172 | the snapshot of a registered name stays its goroutine's own, in every run that leaves the registration alone, exactly when no other goroutine of that name is in the gap |
| `LifecycleWrites.QuietAfterRun` | cmd/forecaster/forecaster.go:199-213 | when the wait group is at zero every goroutine has exited and nothing is written until a new launch |
| `LifecycleWrites.UnnamedRun` | pkg/storage/memory.go:125-141 | no run stores a snapshot under the empty name |
| `LifecycleWrites.CanPublish` | cmd/forecaster/forecaster.go:228-259 | a waiting goroutine whose context is not done can put its snapshot in the store by three steps of its own |
| `LifecycleEnds.CancelReaches` | cmd/forecaster/forecaster.go:142-153 | cancelling a base context reaches every goroutine its Start launched and every one Upsert launched until the next Start |
| `LifecycleEnds.Drains` | cmd/forecaster/forecaster.go:228-259 | once every context is done the goroutines can all exit by a bounded number of their own steps |
| `LifecycleEnds.RunReturns` | cmd/forecaster/forecaster.go:199-213 | Run can return: started once and cancelled at any later point, the wait group can come back to zero without any further call |
| `LifecycleRuns.SecondStart` | cmd/forecaster/forecaster.go:127-138 | a second Start right after the first leaves the first goroutine out of reach of every cancel function |
| `LifecycleRuns.LateWriteReached` | cmd/forecaster/forecaster.go:176-195 | a run in which Remove finds the goroutine past Put's check, with the store delete still to come |
| `LifecycleRuns.OverwriteReached` | cmd/forecaster/forecaster.go:157-172 | a run in which Upsert replaces a goroutine that is past Put's check |
| `LifecycleRuns.LateDeleteReached` | cmd/forecaster/forecaster.go:176-195 | a run in which a re-registered workload has stored its snapshot while the old Remove still has its delete to come |
| `MultiForecaster.MultiForecaster.constructor` | cmd/forecaster/forecaster.go:107-122 | the initial workloads are registered once each and not launched |
| `MultiForecaster.MultiForecaster.Start` | cmd/forecaster/forecaster.go:127-138 | the loop over the map is the Start step for some order of the names, and keeps the invariant exactly when first called or with nothing registered |
| `MultiForecaster.MultiForecaster.Upsert` | cmd/forecaster/forecaster.go:157-172 | cancel, replace and relaunch are the Upsert step and keep the invariant |
| `MultiForecaster.MultiForecaster.RemoveLocked` | cmd/forecaster/forecaster.go:176-189 | the locked half of Remove is its step, keeps the invariant and reports whether the name was registered |
| `MultiForecaster.MultiForecaster.RemoveDelete` | cmd/forecaster/forecaster.go:191-193 | the unlocked half of Remove is its delete step and keeps the invariant |

## Left out

- Floating-point rounding, NaN, infinities and integer overflow: values are exact reals and integers. Only
  the division by zero in the baseline's seasonal ratio is modelled by the branch it takes.
- Wall-clock time, tickers and fairness: steps are enabled or not; no claim says when one happens.
- HTTP, gRPC, TLS, Prometheus metrics, logging, and the Redis store: input and output around the core.
- The bring-your-own-model client and the metric adapters: wrappers over remote services.
- The Kubernetes controller, flag parsing and configuration validation: Upsert and Remove are the only
  events they cause here.
- The feature builder: in the backtest, building features, training and predicting is one function of the
  history window; in a tick it is a step that may fail.
- BaselineModel.Train: its grouping of values by minute and hour is not modelled; Predict takes the
  patterns and the spread as given.
- MAPE, MeanOverProvision, List, Len and Name: easy members next to the ones modelled.
- Two registrations of one forecaster pointer: goroutines are told apart by launch, so the state two
  launches of the same instance would share is not represented.
- Sarima.SarimaModel.Train: against a concurrent Predict only the point between the unlocked and the locked
  assignments is modelled; a Predict that copies a slice while it is being assigned is not.
- ControlLoop.RunRate: for policies without room at some count (possible only for up below 1) no bound
  over runs is stated; PlannerLaws.PlanBoundsAndRates says at which entries such plans exceed the limits.
