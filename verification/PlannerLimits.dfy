/** Where monotonicity ends, and how plans converge on a constant forecast. */
module PlannerLimits {
  import opened RealSums
  import opened Planner
  import opened PlannerLaws

  // ----- where the rate limits cross, plans are not monotone

  /** A forecast value for which the planner wants exactly n pods. */
  function ForecastFor(p: Policy, n: nat): real
    requires Normal(p)
  {
    Mul(n as real, p.targetPerPod) / p.headroom
  }

  lemma CancelBoth(n: real, t: real, h: real)
    requires n >= 0.0 && t > 0.0 && h >= 1.0
    ensures Mul(n, t) / h >= 0.0
    ensures PerPod(Mul(Mul(n, t) / h, h), t) == n
  {
    Product0(n, t);
    var x := Mul(n, t) / h;
    assert x * h == Mul(n, t);
    assert x >= 0.0;
    assert Mul(n, t) / t == n;
  }

  /** A single-step plan on that value is one step of the clamps. */
  lemma SingleStep(policy: Policy, prev: int, n: nat)
    ensures var p := Normalise(policy);
            var v := ForecastFor(p, n);
            Plan(policy, prev, [v], map[]) == [Step(p, Bounded(p, prev), n)]
  {
    hide Normalise, Mul, Step;
    var p := Normalise(policy);
    var v := ForecastFor(p, n);
    CancelBoth(n as real, p.targetPerPod, p.headroom);
    var adj := Adjusted(p, [v], map[]);
    assert adj[0] == n as real;
    assert WindowMax(adj, 0, 1) == n as real by { assert WindowMax(adj, 0, 0) == 0.0; }
    RoundInteger(n, p.rounding);
    assert Wanted(p, adj) == [n];
    SingleOutput(p, Bounded(p, prev), n);
  }

  lemma SingleOutput(p: Policy, prev: int, n: int)
    ensures Outputs(p, prev, [n]) == [Step(p, prev, n)]
  {
    hide Step;
    assert [n][..0] == [];
  }

  ghost predicate MonotonePlans(policy: Policy) {
    forall prev: int, f: seq<real>, f': seq<real> | RealsBelow(f, f') ::
      Below(Plan(policy, prev, f, map[]), Plan(policy, prev, f', map[]))
  }

  /** Where the limits cross, some previous count is kept above what it may grow to. */
  lemma CrossingPoint(p: Policy) returns (x: nat)
    requires Normal(p) && !Coherent(p)
    ensures MinDown(x, p.down) > MaxUp(x, p.up) >= p.minReplicas && x >= p.minReplicas && x >= 1
  {
    var gap := Keep(p.down) - p.up;
    var a, b := Ceil(2.0 / gap), Ceil((p.minReplicas as real) / p.up);
    Quotient(2.0, gap);
    Quotient(p.minReplicas as real, p.up);
    x := (if a > b then a else b) + p.minReplicas + 1;
    Grows(gap, a, x, 2.0);
    Grows(p.up, b, x, p.minReplicas as real);
    Distribute(x as real, gap, p.up);
  }

  lemma Quotient(c: real, d: real)
    requires d > 0.0 && c >= 0.0
    ensures c / d >= 0.0 && Mul(d, c / d) == c
  {
  }

  lemma Grows(d: real, a: int, x: nat, c: real)
    requires d > 0.0 && c >= 0.0 && a == Ceil(c / d) && a <= x
    ensures Mul(x as real, d) >= c
  {
    hide Mul;
    Quotient(c, d);
    Ordered(d, c / d, x as real);
    Commute(d, x as real);
  }

  lemma ForecastForOrdered(p: Policy, n: nat)
    requires Normal(p)
    ensures ForecastFor(p, n) <= ForecastFor(p, n + 1)
  {
    Ordered(p.targetPerPod, n as real, (n + 1) as real);
    Quotients(Mul(n as real, p.targetPerPod), Mul((n + 1) as real, p.targetPerPod), p.headroom);
  }

  lemma Quotients(a: real, b: real, h: real)
    requires a <= b && h >= 1.0
    ensures a / h <= b / h
  {
  }

  /** At a crossing point, wanting one more pod than allowed gives fewer than wanting what is allowed. */
  lemma CrossingStep(p: Policy, x: int)
    requires Normal(p) && InBounds(p, x) && !Uncrossed(p, x)
    ensures var n := MaxUp(x, p.up);
            && n >= 0
            && Bounded(p, x) == x
            && Step(p, x, n) > Step(p, x, n + 1)
  {
    MinDownRange(x, p.down);
    hide MaxUp, MinDown;
  }

  lemma BrokenAt(policy: Policy, x: int, f: seq<real>, f': seq<real>)
    requires RealsBelow(f, f') && !Below(Plan(policy, x, f, map[]), Plan(policy, x, f', map[]))
    ensures !MonotonePlans(policy)
  {
    hide Plan, RealsBelow, Below;
  }

  lemma StepsBroken(policy: Policy, x: nat, n: nat)
    requires var p := Normalise(policy); Bounded(p, x) == x && Step(p, x, n) > Step(p, x, n + 1)
    ensures !MonotonePlans(policy)
  {
    var p := Normalise(policy);
    hide Normalise, Step, Plan, Bounded, ForecastFor, MonotonePlans, Normal;
    SingleStep(policy, x, n);
    SingleStep(policy, x, n + 1);
    ForecastForOrdered(p, n);
    var f, f' := [ForecastFor(p, n)], [ForecastFor(p, n + 1)];
    assert Plan(policy, x, f, map[])[0] > Plan(policy, x, f', map[])[0];
    BrokenAt(policy, x, f, f');
  }

  lemma NeverCrossesHolds(policy: Policy)
    requires NeverCrosses(Normalise(policy))
    ensures MonotonePlans(policy)
  {
    hide Plan, RealsBelow, Below, NeverCrosses, Normalise;
    forall prev: int, f: seq<real>, f': seq<real> | RealsBelow(f, f')
      ensures Below(Plan(policy, prev, f, map[]), Plan(policy, prev, f', map[]))
    {
      assert policy.(prewarm := policy.prewarm) == policy;
      MonotoneInLoad(policy, policy.prewarm, prev, prev, f, f', map[]);
    }
  }

  /** For every policy, plans are monotone in the load if and only if the rate limits never cross at a
      count within the bounds. */
  lemma MonotoneIff(policy: Policy)
    ensures MonotonePlans(policy) <==> NeverCrosses(Normalise(policy))
  {
    hide Normalise, Uncrossed, MonotonePlans, Step, Bounded, InBounds;
    var p := Normalise(policy);
    if NeverCrosses(p) {
      NeverCrossesHolds(policy);
    } else {
      var x :| InBounds(p, x) && !Uncrossed(p, x);
      CrossingStep(p, x);
      LowerBoundNonNegative(p, x);
      StepsBroken(policy, x, MaxUp(x, p.up));
    }
  }

  lemma LowerBoundNonNegative(p: Policy, x: int)
    requires Normal(p) && InBounds(p, x)
    ensures x >= 0
  {
  }

  /** With no upper bound set that is the condition up + down/100 >= 1. */
  lemma UnboundedIff(p: Policy)
    requires Normal(p) && p.maxReplicas <= 0
    ensures NeverCrosses(p) <==> Coherent(p)
  {
    if Coherent(p) {
      CoherentNeverCrosses(p);
    } else {
      var x := CrossingPoint(p);
      hide MaxUp, MinDown, Coherent;
      assert InBounds(p, x) && !Uncrossed(p, x);
    }
  }

  // ----- convergence

  /** One step on a fixed target, with room to move both ways, strictly approaches it. */
  lemma StepToward(p: Policy, x: int, want: int)
    requires Normal(p) && InBounds(p, x) && p.up > 1.0 && p.down >= 1
    ensures var target, y := Bounded(p, want), Step(p, x, want);
            && (x < target ==> x < y <= target && (y == target || y as real >= Mul(p.up, AtLeastOne(x))))
            && (x > target ==> target <= y < x && (y == target || y as real <= Mul(x as real, Keep(p.down))))
            && (x == target ==> y == target)
  {
    MaxUpGrows(x, p.up);
    StrictlyDown(x, p.down);
    MinDownRange(x, p.down);
    assert MinDown(x, p.down) as real <= Mul(x as real, Keep(p.down));
    hide MaxUp, MinDown, Mul;
    StepInBounds(p, x, want);
    FinalClampIdle(p, x, want);
  }

  lemma StrictlyDown(x: int, down: int)
    requires 0 <= x && 1 <= down <= 100
    ensures x >= 1 ==> MinDown(x, down) < x
  {
    if x >= 1 {
      Product0(x as real, (down as real) / 100.0);
      assert Mul(x as real, Keep(down)) < x as real;
    }
  }

  /** Both conditions are needed: a step rises towards a higher target exactly when up > 1 or the count is
      zero, and (where the count may stand still) falls towards a lower one exactly when down >= 1. */
  lemma ProgressIff(p: Policy, x: int, want: int)
    requires Normal(p) && InBounds(p, x)
    ensures var target, y := Bounded(p, want), Step(p, x, want);
            && (x < target ==> (y > x <==> p.up > 1.0 || x == 0))
            && (x > target && p.up >= 1.0 ==> (y < x <==> p.down >= 1))
  {
    if x == 0 {
      assert MaxUp(0, p.up) >= 1 by { TimesOne(p.up); }
      hide MaxUp;
    } else {
      LimitAtOne(x, p.up);
      if p.up >= 1.0 {
        MaxUpGrows(x, p.up);
      }
      if p.down >= 1 {
        StrictlyDown(x, p.down);
      } else {
        TimesOne(x as real);
      }
      hide MaxUp, Mul;
    }
  }

  lemma LimitAtOne(x: int, up: real)
    requires x >= 1
    ensures up <= 1.0 ==> MaxUp(x, up) <= x
  {
    if up <= 1.0 {
      Ordered(x as real, up, 1.0);
    }
  }

  predicate AllEqual(wanted: seq<int>, want: int) {
    forall i | 0 <= i < |wanted| :: wanted[i] == want
  }

  /** The count after k steps. */
  function After(p: Policy, start: int, wanted: seq<int>, k: nat): int
    requires k <= |wanted|
  {
    Before(start, Outputs(p, start, wanted), k)
  }

  lemma AfterNext(p: Policy, start: int, wanted: seq<int>, want: int, k: nat)
    requires Normal(p) && InBounds(p, start) && AllEqual(wanted, want) && k < |wanted|
    ensures After(p, start, wanted, k + 1) == Step(p, After(p, start, wanted, k), want)
    ensures InBounds(p, After(p, start, wanted, k))
  {
    hide Step, Outputs, InBounds, Normal;
    OutputsAt(p, start, wanted, k);
    if k > 0 {
      OutputsAt(p, start, wanted, k - 1);
      StepInBounds(p, Before(start, Outputs(p, start, wanted), k - 1), want);
    }
  }

  function Distance(x: int, y: int): nat {
    if x < y then y - x else x - y
  }

  function RealMin(a: real, b: real): real {
    if a < b then a else b
  }

  function RealMax(a: real, b: real): real {
    if a > b then a else b
  }

  /** On a constant demand with up > 1 and down >= 1 the plan moves to its bounded target without
      overshooting, gets strictly closer at every step until it is there, and does so at least as fast
      as growth by `up` or shrinkage by `down` percent per step allows. */
  lemma {:induction false} Converges(p: Policy, start: int, wanted: seq<int>, want: int, k: nat)
    requires Normal(p) && InBounds(p, start) && p.up > 1.0 && p.down >= 1
    requires AllEqual(wanted, want) && k <= |wanted|
    ensures var target, x := Bounded(p, want), After(p, start, wanted, k);
            && (start <= target ==> start <= x <= target)
            && (start >= target ==> target <= x <= start)
            && Distance(x, target) <= (if Distance(start, target) <= k then 0 else Distance(start, target) - k)
            && (start <= target && k >= 1 ==>
                 x as real >= RealMin(target as real, Mul(AtLeastOne(start), Pow(p.up, k))))
            && (start >= target ==> x as real <= RealMax(target as real, Mul(start as real, Pow(Keep(p.down), k))))
  {
    hide Step, Mul, Outputs, Bounded, AllEqual, After;
    var target := Bounded(p, want);
    if k == 0 {
      StartingPoint(p, start, wanted);
      TimesOne(start as real);
      assert Pow(Keep(p.down), 0) == 1.0;
    } else {
      Converges(p, start, wanted, want, k - 1);
      AfterNext(p, start, wanted, want, k - 1);
      var x := After(p, start, wanted, k - 1);
      StepToward(p, x, want);
      if start <= target {
        if k == 1 {
          FirstPower(p.up, AtLeastOne(start));
          StartingPoint(p, start, wanted);
        } else {
          GrowthStep(p.up, AtLeastOne(start), k - 1, target as real, x as real);
        }
      }
      if start >= target {
        ShrinkStep(Keep(p.down), start as real, k - 1, target as real, x as real);
      }
    }
  }

  lemma StartingPoint(p: Policy, start: int, wanted: seq<int>)
    ensures After(p, start, wanted, 0) == start
  {
  }

  lemma FirstPower(u: real, a: real)
    ensures Mul(a, Pow(u, 1)) == Mul(u, a)
  {
  }

  /** If x has reached target or a*u^k, then u*x has reached target or a*u^(k+1). */
  lemma GrowthStep(u: real, a: real, k: nat, target: real, x: real)
    requires u > 1.0 && x >= RealMin(target, Mul(a, Pow(u, k)))
    ensures Mul(a, Pow(u, k + 1)) == Mul(u, Mul(a, Pow(u, k)))
    ensures x < target ==> Mul(u, x) >= Mul(a, Pow(u, k + 1))
  {
    Swap3(a, u, Pow(u, k));
    hide Mul;
    if x < target {
      Ordered(u, Mul(a, Pow(u, k)), x);
    }
  }

  lemma ShrinkStep(c: real, a: real, k: nat, target: real, x: real)
    requires 0.0 <= c <= 1.0 && x <= RealMax(target, Mul(a, Pow(c, k)))
    ensures x > target ==> Mul(x, c) <= Mul(a, Pow(c, k + 1))
  {
    Swap3(a, c, Pow(c, k));
    hide Mul;
    if x > target {
      Ordered(c, x, Mul(a, Pow(c, k)));
      Commute(c, x);
    }
  }

  /** On a constant forecast every step wants the same count, whatever the prewarm window. */
  lemma ConstantWanted(policy: Policy, f: seq<real>, c: real)
    requires |f| > 0 && forall i | 0 <= i < |f| :: f[i] == c
    ensures var p := Normalise(policy);
            var adj := Adjusted(p, f, map[]);
            AllEqual(Wanted(p, adj), RoundPods(adj[0], p.rounding))
  {
    hide Mul, Normalise, PerPod;
    var p := Normalise(policy);
    var adj := Adjusted(p, f, map[]);
    assert forall i | 0 <= i < |f| :: adj[i] == adj[0];
    hide Adjusted, RoundPods, WindowMax;
    forall i | 0 <= i < |f| ensures Wanted(p, adj)[i] == RoundPods(adj[0], p.rounding) {
      var hi := WindowEnd(i, p.prewarm, |f|);
      assert adj[i] <= WindowMax(adj, i, hi);
      assert WindowMax(adj, i, hi) == adj[0];
    }
  }

  /** The convergence law for ToReplicas itself. */
  lemma PlanConverges(policy: Policy, prev: int, f: seq<real>, c: real, k: nat)
    requires Normalise(policy).up > 1.0 && Normalise(policy).down >= 1
    requires forall i | 0 <= i < |f| :: f[i] == c
    requires 1 <= k <= |f|
    ensures var p := Normalise(policy);
            var start := Bounded(p, prev);
            var target := Bounded(p, RoundPods(Adjusted(p, f, map[])[0], p.rounding));
            var x := Plan(policy, prev, f, map[])[k - 1];
            && (start <= target ==> start <= x <= target)
            && (start >= target ==> target <= x <= start)
            && Distance(x, target) <= (if Distance(start, target) <= k then 0 else Distance(start, target) - k)
            && (start <= target ==> x as real >= RealMin(target as real, Mul(AtLeastOne(start), Pow(p.up, k))))
            && (start >= target ==> x as real <= RealMax(target as real, Mul(start as real, Pow(Keep(p.down), k))))
  {
    hide Normalise, Adjusted, Wanted, RoundPods, Outputs, Mul, Pow, Bounded;
    var p := Normalise(policy);
    ConstantWanted(policy, f, c);
    StepInBounds(p, 0, prev);
    var wanted := Wanted(p, Adjusted(p, f, map[]));
    Converges(p, Bounded(p, prev), wanted, RoundPods(Adjusted(p, f, map[])[0], p.rounding), k);
  }
}
