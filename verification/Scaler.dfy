/** cmd/scaler/scaler.go: the replica count reported to KEDA for a lead time. */
module Scaler {
  import opened Prelude
  import opened Quantiles
  import opened Planner
  import opened PlannerLaws

  const SECOND: int := 1000000000

  /** The last plan index the window covers; lead time in nanoseconds. */
  function LeadIndex(lead: int, stepSeconds: int, n: nat): (i: nat)
    requires n >= 1 && stepSeconds != 0
    ensures i < n
  {
    var steps := TruncDiv(lead, stepSeconds * SECOND);
    var capped := if steps >= n then n - 1 else steps;
    if capped < 0 then 0 else capped
  }

  /** m is the largest entry of the plan up to and including index `last`. */
  ghost predicate IsMaxUpTo(plan: seq<int>, last: nat, m: int)
    requires last < |plan|
  {
    (forall i | 0 <= i <= last :: plan[i] <= m) && exists i | 0 <= i <= last :: plan[i] == m
  }

  /** A snapshot whose step was cut to zero seconds makes a non-empty plan divide by zero. */
  datatype Selection = Selected(replicas: int) | DividedByZero

  method SelectReplicas(plan: seq<int>, stepSeconds: int, lead: int) returns (r: Selection)
    ensures r.DividedByZero? <==> |plan| > 0 && stepSeconds == 0
    ensures |plan| == 0 ==> r == Selected(1)
    ensures |plan| > 0 && stepSeconds != 0 ==> IsMaxUpTo(plan, LeadIndex(lead, stepSeconds, |plan|), r.replicas)
  {
    if |plan| == 0 {
      return Selected(1);
    }
    if stepSeconds == 0 {
      return DividedByZero;
    }
    var leadSteps := TruncDiv(lead, stepSeconds * SECOND);
    if leadSteps >= |plan| {
      leadSteps := |plan| - 1;
    }
    if leadSteps < 0 {
      leadSteps := 0;
    }
    var m := plan[0];
    var i := 1;
    while i <= leadSteps && i < |plan|
      invariant 1 <= i <= leadSteps + 1
      invariant IsMaxUpTo(plan, i - 1, m)
    {
      if plan[i] > m {
        m := plan[i];
      }
      i := i + 1;
    }
    r := Selected(m);
  }

  /** For StepSeconds >= 1 and a non-negative lead the window is 0..min(lead/step, n-1), end included,
      and it never shrinks when the lead grows. */
  lemma LeadWindow(lead: int, lead': int, stepSeconds: int, n: nat)
    requires stepSeconds >= 1 && n >= 1 && lead <= lead'
    ensures LeadIndex(lead, stepSeconds, n) <= LeadIndex(lead', stepSeconds, n)
    ensures lead >= 0 ==>
      var q := lead / (stepSeconds * 1000000000);
      LeadIndex(lead, stepSeconds, n) == if q <= n - 1 then q else n - 1
  {
    var d := stepSeconds * SECOND;
    if lead >= 0 {
      QuotientOrder(lead, lead', d);
    } else if lead' < 0 {
      QuotientOrder(-lead', -lead, d);
    }
  }

  lemma QuotientOrder(a: int, b: int, d: int)
    requires 0 <= a <= b && d > 0
    ensures 0 <= a / d <= b / d
  {
    var x, y := a / d, b / d;
    assert x * d <= a && b < y * d + d;
    LessByMultiple(x, y + 1, d);
  }

  /** A longer lead or a pointwise larger plan never lowers the reported count. */
  lemma SelectionMonotone(plan: seq<int>, plan': seq<int>, last: nat, last': nat, m: int, m': int)
    requires Below(plan, plan') && last <= last' < |plan|
    requires IsMaxUpTo(plan, last, m) && IsMaxUpTo(plan', last', m')
    ensures m <= m'
  {
    var i :| 0 <= i <= last && plan[i] == m;
    assert plan[i] <= plan'[i] <= m';
  }

  /** m is what the scaler reports from the plan at this lead time. */
  ghost predicate Reported(plan: seq<int>, stepSeconds: int, lead: int, m: int)
    requires |plan| >= 1 && stepSeconds >= 1
  {
    IsMaxUpTo(plan, LeadIndex(lead, stepSeconds, |plan|), m)
  }

  /** End to end, for any policy, forecast and quantiles: the reported count stays in the planner's bounds
      and never drops when the lead time grows. */
  lemma ReportedCount(policy: Policy, prev: int, values: seq<real>, q: QuantileMap,
                      stepSeconds: int, lead: int, lead': int, m: int, m': int)
    requires |values| >= 1 && stepSeconds >= 1 && lead <= lead'
    requires Reported(Plan(policy, prev, values, q), stepSeconds, lead, m)
    requires Reported(Plan(policy, prev, values, q), stepSeconds, lead', m')
    ensures InBounds(Normalise(policy), m) && m <= m'
  {
    hide Plan, Normalise, LeadIndex, InBounds;
    var plan := Plan(policy, prev, values, q);
    var i :| 0 <= i <= LeadIndex(lead, stepSeconds, |plan|) && plan[i] == m;
    PlanBoundsAndRates(policy, prev, values, q, i);
    LeadWindow(lead, lead', stepSeconds, |plan|);
    SelectionMonotone(plan, plan, LeadIndex(lead, stepSeconds, |plan|), LeadIndex(lead', stepSeconds, |plan|), m, m');
  }

  /** Nor does it drop when the policy moves up among the four quantile levels of any built-in model's
      forecast, provided the rate limits never cross. */
  lemma ReportedQuantile(policy: Policy, level: real, prev: int, values: seq<real>, sigma: real, spread: seq<real>,
                         sqrt: real -> real, stepSeconds: int, lead: int, m: int, m': int)
    requires |values| >= 1 && stepSeconds >= 1 && IsSqrt(sqrt)
    requires spread == Spread(sqrt, |values|) || spread == Flat(|values|)
    requires policy.quantileLevel in Z_SCORES && level in Z_SCORES && policy.quantileLevel <= level
    requires NeverCrosses(Normalise(policy))
    requires var q := Emitted(values, sigma, spread);
             && Reported(Plan(policy, prev, values, q), stepSeconds, lead, m)
             && Reported(Plan(policy.(quantileLevel := level), prev, values, q), stepSeconds, lead, m')
    ensures m <= m'
  {
    hide Plan, Emitted, Normalise, NeverCrosses, LeadIndex;
    var q := Emitted(values, sigma, spread);
    var plan, plan' := Plan(policy, prev, values, q), Plan(policy.(quantileLevel := level), prev, values, q);
    SpreadNonNegative(sqrt, |values|);
    MonotoneInQuantile(policy, level, prev, values, sigma, spread);
    SelectionMonotone(plan, plan', LeadIndex(lead, stepSeconds, |plan|), LeadIndex(lead, stepSeconds, |plan|), m, m');
  }
}
