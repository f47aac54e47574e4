/** pkg/backtest/backtest.go: the walk-forward evaluation. */
module Backtest {
  import opened Prelude
  import opened RealSums
  import opened Quantiles
  import opened Planner
  import opened PlannerLaws
  import opened Metrics

  datatype Sample = Sample(time: int, value: real)

  datatype Forecast = Forecast(values: seq<real>, quantiles: QuantileMap)

  /** Building features, training a fresh model and predicting, as a function of the history window. */
  type Model = seq<Sample> -> Option<Forecast>

  /** Durations in nanoseconds. */
  datatype Config = Config(window: int, horizon: int, step: int, stride: int, policy: Policy)

  datatype Steps = Steps(window: nat, horizon: nat, stride: nat)

  /** As many whole steps as fit each duration; a stride shorter than a step is one step. */
  function StepsOf(c: Config): (s: Steps)
    requires 0 < c.step <= c.horizon && c.step <= c.window
    ensures s.window >= 1 && s.horizon >= 1 && s.stride >= 1
    ensures s.window * c.step <= c.window < (s.window + 1) * c.step
    ensures s.horizon * c.step <= c.horizon < (s.horizon + 1) * c.step
    ensures if c.stride < c.step then s.stride == 1 else s.stride * c.step <= c.stride < (s.stride + 1) * c.step
  {
    WholeSteps(c.window, c.step);
    WholeSteps(c.horizon, c.step);
    WholeSteps(c.stride, c.step);
    var stride := c.stride / c.step;
    Steps(c.window / c.step, c.horizon / c.step, if stride < 1 then 1 else stride)
  }

  lemma WholeSteps(a: int, b: int)
    requires b > 0
    ensures a >= b ==> a / b >= 1
    ensures a < b ==> a / b < 1
    ensures (a / b) * b <= a < (a / b + 1) * b
  {
    var q := a / b;
    assert q * b <= a < q * b + b;
    if a >= b {
      LessByMultiple(1, q + 1, b);
    } else {
      LessByMultiple(q, 1, b);
    }
  }

  function NeededReplicas(value: real, policy: Policy): int {
    var required := if policy.targetPerPod > 0.0 then Ceil(value / policy.targetPerPod) else 0;
    if required < policy.minReplicas then policy.minReplicas else required
  }

  /** The least count, no lower than MinReplicas, whose pods carry the load. */
  lemma NeededIff(value: real, policy: Policy, n: int)
    requires policy.targetPerPod > 0.0
    ensures n >= NeededReplicas(value, policy)
       <==> n >= policy.minReplicas && Mul(n as real, policy.targetPerPod) >= value
  {
    CeilIff(value, policy.targetPerPod, n);
    hide Ceil;
  }

  lemma CeilIff(value: real, t: real, n: int)
    requires t > 0.0
    ensures n >= Ceil(value / t) <==> Mul(n as real, t) >= value
  {
    var x := value / t;
    Cancel(t, value);
    Commute(n as real, t);
    if n as real >= x {
      Ordered(t, x, n as real);
    } else {
      Product0(t, x - n as real);
      Distribute(t, x - n as real, n as real);
    }
  }

  /** What the loop has accumulated. */
  datatype Ledger = Ledger(
    predicted: seq<real>, actual: seq<real>, planned: seq<int>, needed: seq<int>,
    prev: int, windows: nat, skipped: nat)

  function Start(policy: Policy): Ledger {
    Ledger([], [], [], [], policy.minReplicas, 0, 0)
  }

  function Needs(future: seq<Sample>, policy: Policy): (r: seq<int>)
    ensures |r| == |future| && forall k | 0 <= k < |future| :: r[k] == NeededReplicas(future[k].value, policy)
  {
    seq(|future|, k requires 0 <= k < |future| => NeededReplicas(future[k].value, policy))
  }

  function ValuesOf(future: seq<Sample>): (r: seq<real>)
    ensures |r| == |future| && forall k | 0 <= k < |future| :: r[k] == future[k].value
  {
    seq(|future|, k requires 0 <= k < |future| => future[k].value)
  }

  function Skip(l: Ledger): Ledger {
    l.(skipped := l.skipped + 1)
  }

  /** How many steps of a forecast are scored. */
  function Scored(f: Forecast, horizon: nat): nat {
    if |f.values| < horizon then |f.values| else horizon
  }

  function Score(l: Ledger, f: Forecast, future: seq<Sample>, policy: Policy): Ledger
    requires 0 < |future| <= |f.values|
  {
    var n := |future|;
    var plan := Plan(policy, l.prev, f.values, f.quantiles);
    Ledger(l.predicted + f.values[..n], l.actual + ValuesOf(future),
           l.planned + plan[..n], l.needed + Needs(future, policy),
           plan[0], l.windows + 1, l.skipped)
  }

  /** One window whose forecast starts at index i. */
  function Advance(l: Ledger, series: seq<Sample>, s: Steps, policy: Policy, model: Model, i: nat): Ledger
    requires s.window <= i && i + s.horizon <= |series| && s.horizon >= 1
  {
    var f := model(series[i - s.window..i]);
    if f.None? || |f.value.values| == 0 then Skip(l)
    else Score(l, f.value, series[i..i + Scored(f.value, s.horizon)], policy)
  }

  /** Where the k-th window's forecast starts. */
  function Index(s: Steps, k: nat): nat {
    if k == 0 then s.window else Index(s, k - 1) + s.stride
  }

  lemma {:induction false} IndexMonotone(s: Steps, j: nat, k: nat)
    requires j <= k
    ensures s.window <= Index(s, j) <= Index(s, k)
  {
    if j < k {
      IndexMonotone(s, j, k - 1);
    } else if k > 0 {
      IndexMonotone(s, j - 1, k - 1);
    }
  }

  predicate Fits(series: seq<Sample>, s: Steps, k: nat) {
    s.horizon >= 1 && (k > 0 ==> s.window <= Index(s, k - 1) && Index(s, k - 1) + s.horizon <= |series|)
  }

  lemma FitsEarlier(series: seq<Sample>, s: Steps, k: nat)
    requires k > 0 && Fits(series, s, k)
    ensures Fits(series, s, k - 1)
  {
    if k > 1 {
      IndexMonotone(s, k - 2, k - 1);
    }
  }

  /** The ledger after k windows. */
  function Walk(series: seq<Sample>, s: Steps, policy: Policy, model: Model, k: nat): Ledger
    requires Fits(series, s, k)
  {
    if k == 0 then Start(policy)
    else
      FitsEarlier(series, s, k);
      Advance(Walk(series, s, policy, model, k - 1), series, s, policy, model, Index(s, k - 1))
  }

  /** The number of windows in a series of n points. */
  function WindowCount(n: nat, s: Steps): nat
    requires s.stride >= 1 && s.window + s.horizon <= n
  {
    (n - s.window - s.horizon) / s.stride + 1
  }

  // ----- the loop

  method ScoreWindow(l: Ledger, f: Forecast, future: seq<Sample>, policy: Policy) returns (r: Ledger)
    requires 0 < |future| <= |f.values|
    ensures r == Score(l, f, future, policy)
  {
    hide Plan, NeededReplicas;
    var replicas := ToReplicas(l.prev, f.values, policy, f.quantiles);
    var predicted, actual, planned, needed := l.predicted, l.actual, l.planned, l.needed;
    for k := 0 to |future|
      invariant predicted == l.predicted + f.values[..k]
      invariant actual == l.actual + ValuesOf(future)[..k]
      invariant planned == l.planned + replicas[..k]
      invariant needed == l.needed + Needs(future, policy)[..k]
    {
      predicted := predicted + [f.values[k]];
      actual := actual + [future[k].value];
      if k < |replicas| {
        planned := planned + [replicas[k]];
        needed := needed + [NeededReplicas(future[k].value, policy)];
      }
    }
    r := Ledger(predicted, actual, planned, needed, replicas[0], l.windows + 1, l.skipped);
  }

  datatype Outcome =
    | Rejected
    | NoWindows(skipped: nat)
    | Report(windows: nat, skipped: nat, points: nat, mae: real, rmse: real, underProvisionedRate: real)

  predicate Accepts(c: Config, n: nat) {
    && 0 < c.step <= c.horizon && c.step <= c.window
    && StepsOf(c).window + StepsOf(c).horizon <= n
  }

  lemma LastWindow(n: nat, s: Steps, k: nat)
    requires s.stride >= 1 && s.horizon >= 1 && s.window + s.horizon <= n && k >= 1
    requires Index(s, k - 1) + s.horizon <= n < Index(s, k) + s.horizon
    ensures k == WindowCount(n, s)
  {
    IndexClosed(s, k);
    IndexClosed(s, k - 1);
    LastMultiple(n - s.window - s.horizon, s.stride, k);
  }

  lemma LastMultiple(d: nat, stride: nat, k: nat)
    requires stride >= 1 && k >= 1 && (k - 1) * stride <= d < k * stride
    ensures k == d / stride + 1
  {
    var q := d / stride;
    assert q * stride <= d < q * stride + stride;
    LessByMultiple(k - 1, q + 1, stride);
    LessByMultiple(q, k, stride);
  }

  lemma {:induction false} IndexClosed(s: Steps, k: nat)
    ensures Index(s, k) == s.window + k * s.stride
  {
    if k > 0 {
      IndexClosed(s, k - 1);
    }
  }

  method Run(series: seq<Sample>, c: Config, model: Model, sqrt: real -> real)
    returns (outcome: Outcome, ghost l: Ledger)
    requires IsSqrt(sqrt)
    ensures outcome.Rejected? <==> !Accepts(c, |series|)
    ensures outcome.Rejected? <==> c.step <= 0 || c.horizon < c.step || c.window < c.step
                                   || |series| < c.window / c.step + c.horizon / c.step
    ensures Accepts(c, |series|) ==>
      var s := StepsOf(c);
      var k := WindowCount(|series|, s);
      && Fits(series, s, k)
      && l == Walk(series, s, c.policy, model, k)
      && (outcome.NoWindows? <==> l.windows == 0)
      && (outcome.NoWindows? ==> outcome.skipped == l.skipped)
      && (outcome.Report? ==>
           && outcome.windows == l.windows && outcome.skipped == l.skipped && outcome.points == |l.predicted|
           && outcome.mae == MeanAbsoluteError(l.predicted, l.actual)
           && outcome.rmse >= 0.0 && Mul(outcome.rmse, outcome.rmse) == MeanSquaredError(l.predicted, l.actual)
           && outcome.mae <= outcome.rmse
           && |l.planned| == |l.needed|
           && outcome.underProvisionedRate == Rate(l.planned, l.needed)
           && (outcome.underProvisionedRate == 0.0 <==> forall i | 0 <= i < |l.planned| :: l.planned[i] >= l.needed[i]))
    ensures Accepts(c, |series|) ==>
      var first := c.window / c.step;
      && first < |series|
      && var f := model(series[..first]);
         f.Some? && f.value.values != [] ==>
           && |l.actual| > 0 && l.actual[0] == series[first].value
           && |l.predicted| > 0 && l.predicted[0] == f.value.values[0]
  {
    l := Start(c.policy);
    if !(0 < c.step <= c.horizon && c.step <= c.window) {
      return Rejected, l;
    }
    var s := StepsOf(c);
    if |series| < s.window + s.horizon {
      return Rejected, l;
    }
    var ledger := WalkForward(series, s, c.policy, model);
    l := ledger;
    FirstScored(series, s, c.policy, model);
    hide WindowCount, Walk, StepsOf;
    if ledger.windows == 0 {
      return NoWindows(ledger.skipped), l;
    }
    WalkLengths(series, s, c.policy, model, WindowCount(|series|, s));
    var mae := MAE(ledger.predicted, ledger.actual);
    var rmse := RMSE(ledger.predicted, ledger.actual, sqrt);
    MaeAtMostRmse(ledger.predicted, ledger.actual, rmse);
    var rate := UnderProvisionedRate(ledger.planned, ledger.needed);
    UnderCountMeaning(ledger.planned, ledger.needed);
    ZeroRate(UnderCount(ledger.planned, ledger.needed), |ledger.planned|);
    outcome := Report(ledger.windows, ledger.skipped, |ledger.predicted|, mae, rmse, rate);
  }

  lemma FirstScored(series: seq<Sample>, s: Steps, policy: Policy, model: Model)
    requires s.window >= 1 && s.horizon >= 1 && s.stride >= 1 && s.window + s.horizon <= |series|
    requires Fits(series, s, WindowCount(|series|, s))
    ensures var l, f := Walk(series, s, policy, model, WindowCount(|series|, s)), model(series[..s.window]);
            f.Some? && f.value.values != [] ==>
              && |l.actual| > 0 && l.actual[0] == series[s.window].value
              && |l.predicted| > 0 && l.predicted[0] == f.value.values[0]
  {
    assert series[..s.window] == series[s.window - s.window..s.window];
    var f := model(series[..s.window]);
    var n := WindowCount(|series|, s);
    assert n >= 1;
    if f.Some? && f.value.values != [] {
      assert ScoredStep(series, s, model, 0, 0);
      WindowHolds(series, s, policy, model, 0, n, 0);
      hide Plan, WindowCount, NeededReplicas;
    }
  }

  lemma ZeroRate(under: nat, n: nat)
    ensures n > 0 ==> ((under as real) / (n as real) == 0.0 <==> under == 0)
  {
    if n > 0 {
      var q := (under as real) / (n as real);
      assert q * (n as real) == under as real;
    }
  }

  method WalkForward(series: seq<Sample>, s: Steps, policy: Policy, model: Model) returns (l: Ledger)
    requires s.window >= 1 && s.horizon >= 1 && s.stride >= 1 && s.window + s.horizon <= |series|
    ensures Fits(series, s, WindowCount(|series|, s))
    ensures l == Walk(series, s, policy, model, WindowCount(|series|, s))
  {
    hide Score, WindowCount;
    l := Start(policy);
    var i := s.window;
    ghost var k := 0;
    while i + s.horizon <= |series|
      invariant i == Index(s, k) && s.window <= i
      invariant Fits(series, s, k) && l == Walk(series, s, policy, model, k)
    {
      var f := model(series[i - s.window..i]);
      if f.None? || |f.value.values| == 0 {
        l := Skip(l);
      } else {
        l := ScoreWindow(l, f.value, series[i..i + Scored(f.value, s.horizon)], policy);
      }
      i := i + s.stride;
      k := k + 1;
    }
    LastWindow(|series|, s, k);
  }

  // ----- what every run satisfies

  /** The four lists grow together, and every window is either scored or skipped. */
  lemma {:induction false} WalkLengths(series: seq<Sample>, s: Steps, policy: Policy, model: Model, k: nat)
    requires Fits(series, s, k)
    ensures var l := Walk(series, s, policy, model, k);
            && |l.predicted| == |l.actual| == |l.planned| == |l.needed|
            && l.windows + l.skipped == k
  {
    hide Plan, NeededReplicas;
    if k > 0 {
      FitsEarlier(series, s, k);
      WalkLengths(series, s, policy, model, k - 1);
    }
  }

  /** Windows + Skipped = floor((N - W - H) / stride) + 1. */
  lemma WindowsAddUp(series: seq<Sample>, s: Steps, policy: Policy, model: Model)
    requires s.stride >= 1 && s.window + s.horizon <= |series|
    requires Fits(series, s, WindowCount(|series|, s))
    ensures var l := Walk(series, s, policy, model, WindowCount(|series|, s));
            l.windows + l.skipped == (|series| - s.window - s.horizon) / s.stride + 1
  {
    assert WindowCount(|series|, s) == (|series| - s.window - s.horizon) / s.stride + 1;
    hide *;
    WalkLengths(series, s, policy, model, WindowCount(|series|, s));
  }

  predicate SameDecisions(la: Ledger, lb: Ledger) {
    && la.predicted == lb.predicted && la.planned == lb.planned && la.prev == lb.prev
    && la.windows == lb.windows && la.skipped == lb.skipped
  }

  lemma AdvanceCausal(la: Ledger, lb: Ledger, a: seq<Sample>, b: seq<Sample>, s: Steps, policy: Policy, model: Model,
                      c: nat, i: nat)
    requires SameDecisions(la, lb) && s.horizon >= 1
    requires s.window <= i <= c && i + s.horizon <= |a| && i + s.horizon <= |b|
    requires c <= |a| && c <= |b| && a[..c] == b[..c]
    ensures SameDecisions(Advance(la, a, s, policy, model, i), Advance(lb, b, s, policy, model, i))
  {
    hide Plan, NeededReplicas;
    SliceAgrees(a, b, c, i - s.window, i);
  }

  lemma SliceAgrees(a: seq<Sample>, b: seq<Sample>, c: nat, lo: nat, hi: nat)
    requires lo <= hi <= c <= |a| && c <= |b| && a[..c] == b[..c]
    ensures a[lo..hi] == b[lo..hi]
  {
    forall k | lo <= k < hi ensures a[k] == b[k] {
      assert a[k] == a[..c][k] && b[k] == b[..c][k];
    }
  }

  /** No look-ahead: two series that agree below index c give the same predictions, the same plans and
      the same running count for every window whose forecast starts at or before c. */
  lemma {:induction false} Causal(a: seq<Sample>, b: seq<Sample>, s: Steps, policy: Policy, model: Model,
                                  c: nat, k: nat)
    requires Fits(a, s, k) && Fits(b, s, k)
    requires c <= |a| && c <= |b| && a[..c] == b[..c]
    requires k > 0 ==> Index(s, k - 1) <= c
    ensures SameDecisions(Walk(a, s, policy, model, k), Walk(b, s, policy, model, k))
  {
    hide Plan, NeededReplicas;
    if k > 0 {
      FitsEarlier(a, s, k);
      FitsEarlier(b, s, k);
      if k > 1 {
        IndexMonotone(s, k - 2, k - 1);
      }
      Causal(a, b, s, policy, model, c, k - 1);
      hide Advance;
      var la, lb := Walk(a, s, policy, model, k - 1), Walk(b, s, policy, model, k - 1);
      AdvanceCausal(la, lb, a, b, s, policy, model, c, Index(s, k - 1));
    }
  }

  // ----- what the lists hold

  predicate Extends(l: Ledger, m: Ledger) {
    l.predicted <= m.predicted && l.actual <= m.actual && l.planned <= m.planned && l.needed <= m.needed
  }

  /** Later windows only append. */
  lemma {:induction false} WalkExtends(series: seq<Sample>, s: Steps, policy: Policy, model: Model, j: nat, k: nat)
    requires j <= k && Fits(series, s, k)
    ensures Fits(series, s, j) && Extends(Walk(series, s, policy, model, j), Walk(series, s, policy, model, k))
  {
    if j < k {
      FitsEarlier(series, s, k);
      var i, l := Index(s, k - 1), Walk(series, s, policy, model, k - 1);
      assert s.window <= i && i + s.horizon <= |series| && s.horizon >= 1;
      assert Walk(series, s, policy, model, k) == Advance(l, series, s, policy, model, i);
      hide Advance, Index, Walk, Fits;
      WalkExtends(series, s, policy, model, j, k - 1);
      AdvanceExtends(l, series, s, policy, model, i);
    }
  }

  lemma AdvanceExtends(l: Ledger, series: seq<Sample>, s: Steps, policy: Policy, model: Model, i: nat)
    requires s.window <= i && i + s.horizon <= |series| && s.horizon >= 1
    ensures Extends(l, Advance(l, series, s, policy, model, i))
  {
    hide Plan, NeededReplicas;
  }

  /** Entry `at + k` of each list is step k of the window whose forecast starts at index i: the forecast
      value, the value that followed, the planned count and the count that was needed. */
  predicate HoldsStep(l: Ledger, at: nat, series: seq<Sample>, i: nat, f: Forecast, plan: seq<int>,
                      policy: Policy, k: nat)
    requires i + k < |series| && k < |f.values| && k < |plan|
  {
    && at + k < |l.predicted| == |l.actual| == |l.planned| == |l.needed|
    && l.predicted[at + k] == f.values[k] && l.actual[at + k] == series[i + k].value
    && l.planned[at + k] == plan[k] && l.needed[at + k] == NeededReplicas(series[i + k].value, policy)
  }

  /** What scoring one window does, step by step. */
  lemma AdvanceHolds(l: Ledger, series: seq<Sample>, s: Steps, policy: Policy, model: Model, i: nat, k: nat)
    requires s.window <= i && i + s.horizon <= |series| && s.horizon >= 1
    requires |l.predicted| == |l.actual| == |l.planned| == |l.needed|
    requires var f := model(series[i - s.window..i]); f.Some? && k < |f.value.values| && k < s.horizon
    ensures var f := model(series[i - s.window..i]).value;
            var plan := Plan(policy, l.prev, f.values, f.quantiles);
            var r := Advance(l, series, s, policy, model, i);
            HoldsStep(r, |l.predicted|, series, i, f, plan, policy, k) && r.prev == plan[0]
  {
    hide Plan, NeededReplicas;
    var f := model(series[i - s.window..i]).value;
    var future := series[i..i + Scored(f, s.horizon)];
    assert future[k] == series[i + k];
  }

  lemma HeldLater(l: Ledger, m: Ledger, at: nat, series: seq<Sample>, i: nat, f: Forecast, plan: seq<int>,
                  policy: Policy, k: nat)
    requires i + k < |series| && k < |f.values| && k < |plan|
    requires HoldsStep(l, at, series, i, f, plan, policy, k) && Extends(l, m)
    requires |m.predicted| == |m.actual| == |m.planned| == |m.needed|
    ensures HoldsStep(m, at, series, i, f, plan, policy, k)
  {
    hide NeededReplicas;
  }

  /** The forecast of window j, made from the `window` samples before index window + j*stride. */
  function ForecastOf(series: seq<Sample>, s: Steps, model: Model, j: nat): Option<Forecast>
    requires Fits(series, s, j + 1)
  {
    model(series[Index(s, j) - s.window..Index(s, j)])
  }

  function PlanOf(series: seq<Sample>, s: Steps, policy: Policy, model: Model, j: nat): (plan: seq<int>)
    requires Fits(series, s, j) && Fits(series, s, j + 1) && ForecastOf(series, s, model, j).Some?
    ensures |plan| == |ForecastOf(series, s, model, j).value.values|
  {
    var f := ForecastOf(series, s, model, j).value;
    Plan(policy, Walk(series, s, policy, model, j).prev, f.values, f.quantiles)
  }

  predicate ScoredStep(series: seq<Sample>, s: Steps, model: Model, j: nat, k: nat) {
    && Fits(series, s, j) && Fits(series, s, j + 1) && k < s.horizon
    && ForecastOf(series, s, model, j).Some? && k < |ForecastOf(series, s, model, j).value.values|
  }

  /** Scoring window j appends its steps and passes on the first count of its plan. */
  lemma WindowScored(series: seq<Sample>, s: Steps, policy: Policy, model: Model, j: nat, k: nat)
    requires ScoredStep(series, s, model, j, k)
    ensures var l, next := Walk(series, s, policy, model, j), Walk(series, s, policy, model, j + 1);
            var f, plan := ForecastOf(series, s, model, j).value, PlanOf(series, s, policy, model, j);
            && HoldsStep(next, |l.predicted|, series, Index(s, j), f, plan, policy, k)
            && next.prev == plan[0]
  {
    WalkNext(series, s, policy, model, j);
    hide Walk, Advance, Plan, HoldsStep, Index, Fits;
    WalkLengths(series, s, policy, model, j);
    AdvanceHolds(Walk(series, s, policy, model, j), series, s, policy, model, Index(s, j), k);
  }

  lemma WalkNext(series: seq<Sample>, s: Steps, policy: Policy, model: Model, j: nat)
    requires Fits(series, s, j) && Fits(series, s, j + 1)
    ensures s.window <= Index(s, j) && Index(s, j) + s.horizon <= |series| && s.horizon >= 1
    ensures Walk(series, s, policy, model, j + 1)
         == Advance(Walk(series, s, policy, model, j), series, s, policy, model, Index(s, j))
  {
    hide Advance, Index;
  }

  /** Every scored step of every window is in the final lists, planned from the first count of the last
      plan before it. */
  lemma WindowHolds(series: seq<Sample>, s: Steps, policy: Policy, model: Model, j: nat, n: nat, k: nat)
    requires j < n && Fits(series, s, n) && ScoredStep(series, s, model, j, k)
    ensures var l, f := Walk(series, s, policy, model, j), ForecastOf(series, s, model, j).value;
            var plan := PlanOf(series, s, policy, model, j);
            HoldsStep(Walk(series, s, policy, model, n), |l.predicted|, series, Index(s, j), f, plan, policy, k)
  {
    assert Index(s, j) + k < |series| && k < |ForecastOf(series, s, model, j).value.values|;
    hide *;
    var l, f := Walk(series, s, policy, model, j), ForecastOf(series, s, model, j).value;
    var plan := PlanOf(series, s, policy, model, j);
    WindowScored(series, s, policy, model, j, k);
    WalkLengths(series, s, policy, model, n);
    WalkExtends(series, s, policy, model, j + 1, n);
    HeldLater(Walk(series, s, policy, model, j + 1), Walk(series, s, policy, model, n), |l.predicted|,
              series, Index(s, j), f, plan, policy, k);
  }

  // ----- when nothing is under-provisioned

  /** One planner step meets a requirement within reach of the bounds and of growth from MinReplicas. */
  lemma StepMeets(p: Policy, prev: int, want: int, required: int)
    requires Normal(p) && InBounds(p, prev) && want >= required
    requires p.maxReplicas > 0 ==> required <= p.maxReplicas
    requires required <= MaxUp(p.minReplicas, p.up)
    ensures Step(p, prev, want) >= required
  {
    hide MaxUp, MinDown;
    LimitsMonotone(p.minReplicas, prev, p.up, p.down);
  }

  /** A requirement the policy can meet in one step from its lower bound. */
  predicate Reachable(p: Policy, required: int) {
    (p.maxReplicas > 0 ==> required <= p.maxReplicas) && required <= MaxUp(p.minReplicas, p.up)
  }

  predicate CeilMode(mode: string) {
    mode != "floor" && mode != "round"
  }

  lemma WantCoversLoad(policy: Policy, values: seq<real>, q: QuantileMap, k: nat, actual: real)
    requires k < |values| && actual <= values[k]
    requires policy.targetPerPod > 0.0 && policy.quantileLevel <= 0.0 && CeilMode(policy.rounding)
    ensures var p := Normalise(policy);
            Wanted(p, Adjusted(p, values, q))[k] >= Ceil(actual / policy.targetPerPod)
  {
    var p := Normalise(policy);
    var adj := Adjusted(p, values, q);
    var load := NonNeg(values[k]);
    assert Load(p, values, q, k) >= actual by {
      Ordered(load, 1.0, p.headroom);
    }
    hide Load, Normalise, Adjusted, WindowMax;
    Divided(actual, Load(p, values, q, k), p.targetPerPod);
    var hi := WindowEnd(k, p.prewarm, |adj|);
    assert WindowMax(adj, k, hi) >= adj[k];
    FloorMonotone(actual / policy.targetPerPod, WindowMax(adj, k, hi));
  }

  lemma PlanMeets(policy: Policy, prev: int, values: seq<real>, q: QuantileMap, k: nat, actual: real)
    requires k < |values| && actual <= values[k]
    requires policy.targetPerPod > 0.0 && policy.quantileLevel <= 0.0 && CeilMode(policy.rounding)
    requires Reachable(Normalise(policy), NeededReplicas(actual, policy))
    ensures Plan(policy, prev, values, q)[k] >= NeededReplicas(actual, policy)
  {
    var p := Normalise(policy);
    assert p.minReplicas >= policy.minReplicas;
    WantCoversLoad(policy, values, q, k, actual);
    hide Normalise, Adjusted, Wanted, Outputs, Step, InBounds;
    var wanted := Wanted(p, Adjusted(p, values, q));
    var start := Bounded(p, prev);
    var x := Before(start, Outputs(p, start, wanted), k);
    BeforeInBounds(p, start, prev, wanted, k);
    OutputsAt(p, start, wanted, k);
    var required := Ceil(actual / policy.targetPerPod);
    StepInBounds(p, x, wanted[k]);
    LowerBound(p, Step(p, x, wanted[k]));
    if required >= policy.minReplicas {
      StepMeets(p, x, wanted[k], required);
    }
  }

  lemma LowerBound(p: Policy, x: int)
    requires InBounds(p, x)
    ensures x >= p.minReplicas
  {
  }

  /** At every window, every scored forecast covers the actual value that followed, and the requirement
      is within reach. */
  ghost predicate Covered(series: seq<Sample>, s: Steps, policy: Policy, model: Model, i: nat)
    requires s.window <= i && i + s.horizon <= |series|
  {
    var f := model(series[i - s.window..i]);
    f.Some? ==> forall k | 0 <= k < Scored(f.value, s.horizon) ::
      && series[i + k].value <= f.value.values[k]
      && Reachable(Normalise(policy), NeededReplicas(series[i + k].value, policy))
  }

  predicate Met(l: Ledger) {
    |l.planned| == |l.needed| && forall i | 0 <= i < |l.planned| :: l.planned[i] >= l.needed[i]
  }

  lemma ScoreMet(l: Ledger, f: Forecast, future: seq<Sample>, policy: Policy)
    requires Met(l) && 0 < |future| <= |f.values|
    requires policy.targetPerPod > 0.0 && policy.quantileLevel <= 0.0 && CeilMode(policy.rounding)
    requires forall k | 0 <= k < |future| ::
      future[k].value <= f.values[k] && Reachable(Normalise(policy), NeededReplicas(future[k].value, policy))
    ensures Met(Score(l, f, future, policy))
  {
    hide Plan, NeededReplicas, Reachable;
    var plan := Plan(policy, l.prev, f.values, f.quantiles);
    forall k | 0 <= k < |future| ensures plan[k] >= NeededReplicas(future[k].value, policy) {
      PlanMeets(policy, l.prev, f.values, f.quantiles, k, future[k].value);
    }
  }

  lemma AdvanceMet(l: Ledger, series: seq<Sample>, s: Steps, policy: Policy, model: Model, i: nat)
    requires Met(l) && s.window <= i && i + s.horizon <= |series| && s.horizon >= 1
    requires policy.targetPerPod > 0.0 && policy.quantileLevel <= 0.0 && CeilMode(policy.rounding)
    requires Covered(series, s, policy, model, i)
    ensures Met(Advance(l, series, s, policy, model, i))
  {
    hide Score, NeededReplicas, Reachable, Normalise;
    var f := model(series[i - s.window..i]);
    if f.Some? && |f.value.values| > 0 {
      var future := series[i..i + Scored(f.value, s.horizon)];
      forall k | 0 <= k < |future|
        ensures future[k].value <= f.value.values[k]
        ensures Reachable(Normalise(policy), NeededReplicas(future[k].value, policy))
      {
        assert future[k] == series[i + k];
      }
      ScoreMet(l, f.value, future, policy);
    }
  }

  /** If every forecast covers what followed, rounding is up, quantiles are off and every requirement is
      within reach, no planned count in any window is below its requirement. */
  lemma {:induction false} NeverUnderProvisioned(series: seq<Sample>, s: Steps, policy: Policy, model: Model, n: nat)
    requires Fits(series, s, n)
    requires policy.targetPerPod > 0.0 && policy.quantileLevel <= 0.0 && CeilMode(policy.rounding)
    requires forall k | 0 < k <= n ::
      Fits(series, s, k) && Covered(series, s, policy, model, Index(s, k - 1))
    ensures Met(Walk(series, s, policy, model, n))
  {
    hide Covered;
    if n > 0 {
      FitsEarlier(series, s, n);
      NeverUnderProvisioned(series, s, policy, model, n - 1);
      assert Fits(series, s, n);
      hide Advance, Covered, Met;
      AdvanceMet(Walk(series, s, policy, model, n - 1), series, s, policy, model, Index(s, n - 1));
    }
  }
}
