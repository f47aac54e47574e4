/** pkg/capacity/planner.go: from a forecast to a replica plan. */
module Planner {
  import opened RealSums
  import opened Quantiles

  datatype Policy = Policy(
    targetPerPod: real,
    headroom: real,
    quantileLevel: real,
    minReplicas: int,
    maxReplicas: int,
    up: real,
    down: int,
    prewarm: int,
    rounding: string)

  /** The defaults ToReplicas applies to its copy of the policy. */
  function Normalise(p: Policy): (r: Policy)
    ensures Normal(r)
    ensures Normal(p) ==> r == p
    ensures r.up == p.up || (p.up <= 0.0 && r.up == 2.0)
    ensures r.targetPerPod == p.targetPerPod || (p.targetPerPod <= 0.0 && r.targetPerPod == 1.0)
    ensures r.headroom == p.headroom || (p.headroom < 1.0 && r.headroom == 1.0)
    ensures r.minReplicas == p.minReplicas || (p.minReplicas < 0 && r.minReplicas == 0)
    ensures r.maxReplicas == p.maxReplicas || (0 < p.maxReplicas < r.minReplicas && r.maxReplicas == r.minReplicas)
    ensures r.down == p.down || (p.down < 0 && r.down == 0) || (p.down > 100 && r.down == 100)
    ensures r.prewarm == p.prewarm || (p.prewarm < 0 && r.prewarm == 0)
    ensures r.quantileLevel == p.quantileLevel && r.rounding == p.rounding
  {
    var lo := if p.minReplicas < 0 then 0 else p.minReplicas;
    p.(targetPerPod := if p.targetPerPod <= 0.0 then 1.0 else p.targetPerPod,
       headroom := if p.headroom < 1.0 then 1.0 else p.headroom,
       minReplicas := lo,
       maxReplicas := if p.maxReplicas > 0 && p.maxReplicas < lo then lo else p.maxReplicas,
       up := if p.up <= 0.0 then 2.0 else p.up,
       down := if p.down < 0 then 0 else if p.down > 100 then 100 else p.down,
       prewarm := if p.prewarm < 0 then 0 else p.prewarm)
  }

  predicate Normal(p: Policy) {
    && p.targetPerPod > 0.0 && p.headroom >= 1.0 && p.minReplicas >= 0
    && (p.maxReplicas > 0 ==> p.minReplicas <= p.maxReplicas)
    && p.up > 0.0 && 0 <= p.down <= 100 && p.prewarm >= 0
  }

  // ----- rounding and clamps

  function Ceil(x: real): (c: int)
    ensures (c as real) - 1.0 < x <= c as real
  {
    -((-x).Floor)
  }

  function RoundPods(x: real, mode: string): int
    requires x >= 0.0
  {
    if mode == "floor" then x.Floor
    else if mode == "round" then (x + 0.5).Floor
    else Ceil(x)
  }

  function ClampBounds(x: int, lo: int, hi: int): int {
    if hi > 0 && x > hi then hi
    else if x < lo then lo
    else x
  }

  /** The share of the previous count that must remain after one step down. */
  function Keep(down: int): real {
    1.0 - (down as real) / 100.0
  }

  function MaxUp(prev: int, up: real): int {
    Ceil(Mul(if prev <= 0 then 1.0 else prev as real, up))
  }

  function MinDown(prev: int, down: int): int {
    Mul(prev as real, Keep(down)).Floor
  }

  function ClampChange(prev: int, next: int, up: real, down: int): int {
    if prev <= 0 then
      if up > 0.0 && next > MaxUp(0, up) then MaxUp(0, up) else next
    else if next > MaxUp(prev, up) then MaxUp(prev, up)
    else if next < MinDown(prev, down) then MinDown(prev, down)
    else next
  }

  function Bounded(p: Policy, x: int): int {
    ClampBounds(x, p.minReplicas, p.maxReplicas)
  }

  predicate InBounds(p: Policy, x: int) {
    p.minReplicas <= x && (p.maxReplicas > 0 ==> x <= p.maxReplicas)
  }

  /** Bounds, change clamp, bounds again. */
  function Step(p: Policy, prev: int, want: int): int {
    Bounded(p, ClampChange(prev, Bounded(p, want), p.up, p.down))
  }

  /** The plan for a sequence of wanted counts, each step fed by the one before. */
  function Outputs(p: Policy, prev: int, wanted: seq<int>): (out: seq<int>)
    ensures |out| == |wanted|
  {
    if wanted == [] then []
    else
      var n := |wanted| - 1;
      var before := Outputs(p, prev, wanted[..n]);
      before + [Step(p, if n == 0 then prev else before[n - 1], wanted[n])]
  }

  // ----- from the forecast to wanted counts

  function NonNeg(x: real): (r: real)
    ensures r >= 0.0
  {
    if x < 0.0 then 0.0 else x
  }

  predicate UseQuantile(p: Policy, forecast: seq<real>, quantiles: QuantileMap) {
    p.quantileLevel > 0.0 && p.quantileLevel in quantiles && |quantiles[p.quantileLevel]| == |forecast|
  }

  function Load(p: Policy, forecast: seq<real>, quantiles: QuantileMap, i: nat): (r: real)
    requires p.headroom >= 1.0 && i < |forecast|
    ensures r >= 0.0
  {
    if UseQuantile(p, forecast, quantiles) then NonNeg(quantiles[p.quantileLevel][i])
    else
      Product0(NonNeg(forecast[i]), p.headroom);
      Mul(NonNeg(forecast[i]), p.headroom)
  }

  function PerPod(load: real, target: real): (r: real)
    requires target > 0.0
    ensures load >= 0.0 ==> r >= 0.0
  {
    load / target
  }

  /** Fractional pods per step. */
  function Adjusted(p: Policy, forecast: seq<real>, quantiles: QuantileMap): (adj: seq<real>)
    requires Normal(p)
    ensures |adj| == |forecast|
    ensures forall i | 0 <= i < |adj| ::
              adj[i] == PerPod(Load(p, forecast, quantiles, i), p.targetPerPod) && adj[i] >= 0.0
  {
    seq(|forecast|, i requires 0 <= i < |forecast| => PerPod(Load(p, forecast, quantiles, i), p.targetPerPod))
  }

  /** The largest of adj[lo..hi], at least zero. */
  function WindowMax(adj: seq<real>, lo: nat, hi: nat): (m: real)
    requires lo <= hi <= |adj|
    ensures m >= 0.0
    ensures forall j | lo <= j < hi :: adj[j] <= m
    ensures m == 0.0 || exists j | lo <= j < hi :: adj[j] == m
    decreases hi
  {
    if hi == lo then 0.0
    else
      var m := WindowMax(adj, lo, hi - 1);
      if adj[hi - 1] > m then adj[hi - 1] else m
  }

  /** One past the last index of the prewarm window at i. */
  function WindowEnd(i: nat, prewarm: int, n: nat): (e: nat)
    requires i < n && prewarm >= 0
    ensures i < e <= n && e - 1 <= i + prewarm
    ensures e == n || e - 1 == i + prewarm
  {
    if i + prewarm >= n then n else i + prewarm + 1
  }

  function Wanted(p: Policy, adj: seq<real>): (w: seq<int>)
    requires p.prewarm >= 0
    ensures |w| == |adj|
    ensures forall i | 0 <= i < |adj| ::
      w[i] == RoundPods(WindowMax(adj, i, WindowEnd(i, p.prewarm, |adj|)), p.rounding)
  {
    seq(|adj|, i requires 0 <= i < |adj| => RoundPods(WindowMax(adj, i, WindowEnd(i, p.prewarm, |adj|)), p.rounding))
  }

  function Plan(policy: Policy, prev: int, forecast: seq<real>, quantiles: QuantileMap): (plan: seq<int>)
    ensures |plan| == |forecast|
  {
    var p := Normalise(policy);
    Outputs(p, Bounded(p, prev), Wanted(p, Adjusted(p, forecast, quantiles)))
  }

  /** The previous count step i starts from. */
  function Before(prev: int, out: seq<int>, i: nat): int
    requires i <= |out|
  {
    if i == 0 then prev else out[i - 1]
  }

  lemma OutputsNext(p: Policy, prev: int, wanted: seq<int>, i: nat)
    requires i < |wanted|
    ensures var out := Outputs(p, prev, wanted[..i]);
            Outputs(p, prev, wanted[..i + 1]) == out + [Step(p, Before(prev, out, i), wanted[i])]
  {
    hide Step;
    assert wanted[..i + 1][..i] == wanted[..i];
  }

  lemma {:induction false} OutputsPrefix(p: Policy, prev: int, wanted: seq<int>, i: nat)
    requires i <= |wanted|
    ensures Outputs(p, prev, wanted)[..i] == Outputs(p, prev, wanted[..i])
    decreases |wanted|
  {
    hide Step;
    if i == |wanted| {
      assert wanted[..i] == wanted;
    } else {
      var n := |wanted| - 1;
      OutputsPrefix(p, prev, wanted[..n], i);
      assert wanted[..n][..i] == wanted[..i];
    }
  }

  /** Every entry of a plan is one step from the entry before it. */
  lemma OutputsAt(p: Policy, prev: int, wanted: seq<int>, i: nat)
    requires i < |wanted|
    ensures var out := Outputs(p, prev, wanted);
            out[i] == Step(p, Before(prev, out, i), wanted[i])
  {
    hide Step, Outputs;
    var out := Outputs(p, prev, wanted);
    OutputsPrefix(p, prev, wanted, i);
    OutputsPrefix(p, prev, wanted, i + 1);
    OutputsNext(p, prev, wanted, i);
    assert out[i] == out[..i + 1][i];
    if i > 0 {
      assert out[i - 1] == out[..i][i - 1];
    }
  }

  // ----- the loops of ToReplicas

  method ComputeAdjusted(p: Policy, forecast: seq<real>, quantiles: QuantileMap) returns (adj: seq<real>)
    requires Normal(p)
    ensures adj == Adjusted(p, forecast, quantiles)
  {
    hide Mul;
    adj := [];
    var useQuantile := UseQuantile(p, forecast, quantiles);
    for i := 0 to |forecast|
      invariant |adj| == i
      invariant forall j | 0 <= j < i :: adj[j] == PerPod(Load(p, forecast, quantiles, j), p.targetPerPod)
    {
      var v := forecast[i];
      if v < 0.0 {
        v := 0.0;
      }
      var capacity := 0.0;
      if useQuantile {
        capacity := quantiles[p.quantileLevel][i];
        if capacity < 0.0 {
          capacity := 0.0;
        }
      } else {
        capacity := Mul(v, p.headroom);
      }
      adj := adj + [PerPod(capacity, p.targetPerPod)];
    }
    hide Load, PerPod;
    assert adj == Adjusted(p, forecast, quantiles);
  }

  method ComputeNeed(adj: seq<real>, i: nat, prewarm: int) returns (need: real)
    requires i < |adj| && prewarm >= 0
    ensures need == WindowMax(adj, i, WindowEnd(i, prewarm, |adj|))
  {
    var jEnd := i + prewarm;
    if jEnd >= |adj| {
      jEnd := |adj| - 1;
    }
    need := 0.0;
    for j := i to jEnd + 1
      invariant need == WindowMax(adj, i, j)
    {
      if adj[j] > need {
        need := adj[j];
      }
    }
  }

  method ToReplicas(prev: int, forecast: seq<real>, policy: Policy, quantiles: QuantileMap) returns (res: seq<int>)
    ensures res == Plan(policy, prev, forecast, quantiles)
  {
    if |forecast| == 0 {
      return [];
    }
    var p := Normalise(policy);
    var adj := ComputeAdjusted(p, forecast, quantiles);
    ghost var wanted := Wanted(p, adj);
    hide Normalise, Adjusted, Wanted, ClampChange, RoundPods, WindowMax, Normal, Outputs;
    res := [];
    var prevOut := ClampBounds(prev, p.minReplicas, p.maxReplicas);
    ghost var start := prevOut;
    EmptyPlan(p, start, wanted);
    for i := 0 to |forecast|
      invariant |res| == i
      invariant res == Outputs(p, start, wanted[..i])
      invariant prevOut == Before(start, res, i)
    {
      var need := ComputeNeed(adj, i, p.prewarm);
      var desired := RoundPods(need, p.rounding);
      desired := ClampBounds(desired, p.minReplicas, p.maxReplicas);
      desired := ClampChange(prevOut, desired, p.up, p.down);
      desired := ClampBounds(desired, p.minReplicas, p.maxReplicas);
      OutputsNext(p, start, wanted, i);
      res := res + [desired];
      prevOut := desired;
    }
    assert wanted[..|forecast|] == wanted;
  }

  lemma EmptyPlan(p: Policy, prev: int, wanted: seq<int>)
    ensures Outputs(p, prev, wanted[..0]) == []
  {
  }
}
