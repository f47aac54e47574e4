/** What every replica plan satisfies: bounds and rate limits, monotonicity, convergence. */
module PlannerLaws {
  import opened RealSums
  import opened Quantiles
  import opened Planner

  // ----- rounding

  lemma FloorMonotone(x: real, y: real)
    requires x <= y
    ensures x.Floor <= y.Floor
    ensures Ceil(x) <= Ceil(y)
  {
  }

  lemma RoundMonotone(x: real, y: real, mode: string)
    requires 0.0 <= x <= y
    ensures RoundPods(x, mode) <= RoundPods(y, mode)
  {
    FloorMonotone(x, y);
    FloorMonotone(x + 0.5, y + 0.5);
  }

  /** What each mode returns: the integer below, the nearest with halves up, the integer above. */
  lemma RoundMeaning(x: real)
    requires x >= 0.0
    ensures RoundPods(x, "floor") as real <= x < (RoundPods(x, "floor") + 1) as real
    ensures (RoundPods(x, "round") as real) - 0.5 <= x < (RoundPods(x, "round") as real) + 0.5
    ensures ((RoundPods(x, "ceil") - 1) as real) < x <= RoundPods(x, "ceil") as real
  {
  }

  lemma RoundingModes(x: real)
    requires x >= 0.0
    ensures RoundPods(x, "floor") <= RoundPods(x, "round") <= RoundPods(x, "ceil")
  {
  }

  lemma RoundInteger(n: nat, mode: string)
    ensures RoundPods(n as real, mode) == n
  {
  }

  // ----- the change clamp

  lemma LimitsMonotone(x: int, y: int, up: real, down: int)
    requires 0 <= x <= y && up > 0.0 && 0 <= down <= 100
    ensures MaxUp(x, up) <= MaxUp(y, up)
    ensures MinDown(x, down) <= MinDown(y, down)
  {
    hide Mul;
    var ux, uy := if x <= 0 then 1.0 else x as real, if y <= 0 then 1.0 else y as real;
    Ordered(up, ux, uy);
    FloorMonotone(Mul(ux, up), Mul(uy, up));
    Ordered(Keep(down), x as real, y as real);
    FloorMonotone(Mul(x as real, Keep(down)), Mul(y as real, Keep(down)));
  }

  lemma MinDownRange(x: int, down: int)
    requires 0 <= x && 0 <= down <= 100
    ensures 0 <= MinDown(x, down) <= x
  {
    hide Mul;
    Shrinks(Keep(down), x as real);
    Commute(Keep(down), x as real);
  }

  lemma MaxUpGrows(x: int, up: real)
    requires 0 <= x && up >= 1.0
    ensures x <= MaxUp(x, up) && 1 <= MaxUp(x, up)
    ensures up > 1.0 ==> x < MaxUp(x, up)
    ensures MaxUp(x, up) as real >= Mul(up, if x <= 0 then 1.0 else x as real)
  {
    var ux := if x <= 0 then 1.0 else x as real;
    Commute(ux, up);
    Ordered(ux, 1.0, up);
    if up > 1.0 {
      Product0(ux, up - 1.0);
    }
  }

  /** With limits in the right order the change clamp is the median of its three arguments. */
  lemma ClampChangeIsMedian(prev: int, next: int, up: real, down: int)
    requires prev >= 0 && next >= 0 && up > 0.0 && 0 <= down <= 100
    requires MinDown(prev, down) <= MaxUp(prev, up)
    ensures var r := ClampChange(prev, next, up, down);
            && MinDown(prev, down) <= r <= MaxUp(prev, up)
            && (r == next || r == MinDown(prev, down) > next || r == MaxUp(prev, up) < next)
  {
    MinDownRange(prev, down);
  }

  // ----- bounds and rate limits together

  lemma StepInBounds(p: Policy, prev: int, want: int)
    requires Normal(p)
    ensures InBounds(p, Step(p, prev, want))
    ensures InBounds(p, Bounded(p, want))
  {
  }

  predicate RateLimited(p: Policy, prev: int, out: int) {
    MinDown(prev, p.down) <= out <= MaxUp(prev, p.up)
  }

  /** The limits at prev leave room for the lower bound. */
  predicate RoomAt(p: Policy, prev: int) {
    MinDown(prev, p.down) <= MaxUp(prev, p.up) && p.minReplicas <= MaxUp(prev, p.up)
  }

  /** Whatever is wanted, a step obeys both rate limits exactly when the limits at its starting point
      are in order and leave room for MinReplicas. */
  lemma RateLimitIff(p: Policy, prev: int, want: int)
    requires Normal(p) && InBounds(p, prev)
    ensures RateLimited(p, prev, Step(p, prev, want)) <==> RoomAt(p, prev)
  {
    hide MaxUp, MinDown;
    StepInBounds(p, prev, want);
    MinDownRange(prev, p.down);
    if RoomAt(p, prev) {
      ClampChangeIsMedian(prev, Bounded(p, want), p.up, p.down);
    }
  }

  /** max(1, x) as a real. */
  function AtLeastOne(x: int): real {
    if x <= 1 then 1.0 else x as real
  }

  /** A whole number lies between the upper limit and one below the lower. */
  predicate Gaps(n: int, upper: real, lower: real) {
    upper <= n as real && (n + 1) as real <= lower
  }

  /** There is room at x exactly when growth by `up` comes within one pod of MinReplicas and no whole
      number separates it from what must be kept. */
  lemma RoomMeaning(p: Policy, x: int)
    requires Normal(p) && InBounds(p, x)
    ensures RoomAt(p, x) <==>
      var upper, lower := Mul(p.up, AtLeastOne(x)), Mul(x as real, 1.0 - (p.down as real) / 100.0);
      (p.minReplicas - 1) as real < upper && !exists n: int :: Gaps(n, upper, lower)
  {
    var upper, lower := Mul(p.up, AtLeastOne(x)), Mul(x as real, 1.0 - (p.down as real) / 100.0);
    LimitBounds(p, x);
    hide MaxUp, MinDown, Mul, Gaps;
    GapIff(MaxUp(x, p.up), MinDown(x, p.down), upper, lower);
    WithinOne(p.minReplicas, MaxUp(x, p.up), upper);
  }

  lemma GapIff(a: int, b: int, upper: real, lower: real)
    requires upper <= a as real < upper + 1.0 && lower - 1.0 < b as real <= lower
    ensures b > a <==> exists n: int :: Gaps(n, upper, lower)
  {
    if b > a {
      assert Gaps(a, upper, lower);
    } else {
      forall n: int ensures !Gaps(n, upper, lower) {
        if Gaps(n, upper, lower) {
          WholeBelow(a - 1, n, upper);
          WholeBelow(n, b, lower - 1.0);
        }
      }
    }
  }

  lemma WholeBelow(m: int, n: int, x: real)
    requires m as real < x <= n as real || m as real <= x < n as real
    ensures m < n
  {
  }

  lemma WithinOne(lo: int, a: int, upper: real)
    requires upper <= a as real < upper + 1.0
    ensures lo <= a <==> (lo - 1) as real < upper
  {
  }

  /** The two limits, within a pod of what the percentages say. */
  lemma LimitBounds(p: Policy, x: int)
    requires x >= 0
    ensures var upper := Mul(p.up, AtLeastOne(x)); upper <= MaxUp(x, p.up) as real < upper + 1.0
    ensures var lower := Mul(x as real, 1.0 - (p.down as real) / 100.0);
            lower - 1.0 < MinDown(x, p.down) as real <= lower
  {
    Commute(p.up, AtLeastOne(x));
    hide Mul;
  }

  /** What the rate limits mean in the policy's own numbers: where there is room, a step rises to less than
      up * max(1, prev) + 1 and falls to more than prev * (1 - down/100) - 1; and it stops short of the
      bounded request only when that limit is reached. */
  predicate RateKept(p: Policy, prev: int, request: int, y: int) {
    var upper, lower := Mul(p.up, AtLeastOne(prev)), Mul(prev as real, 1.0 - (p.down as real) / 100.0);
    && lower - 1.0 < y as real < upper + 1.0
    && (y < request ==> upper <= y as real)
    && (y > request ==> y as real <= lower)
  }

  lemma StepRate(p: Policy, prev: int, want: int)
    requires Normal(p) && InBounds(p, prev) && RoomAt(p, prev)
    ensures RateKept(p, prev, Bounded(p, want), Step(p, prev, want))
  {
    LimitBounds(p, prev);
    hide MaxUp, MinDown, Mul;
    StepInBounds(p, prev, want);
    MinDownRange(prev, p.down);
    ClampChangeIsMedian(prev, Bounded(p, want), p.up, p.down);
  }

  /** Every step of the policy obeys both rate limits. */
  ghost predicate AlwaysRoom(p: Policy) {
    forall x | InBounds(p, x) :: RoomAt(p, x)
  }

  /** A policy that may stand still has room everywhere; so has one that can shrink as fast as it must
      and from MinReplicas can get back to MinReplicas. */
  lemma RoomEverywhere(p: Policy)
    requires Normal(p) && (p.up >= 1.0 || (Coherent(p) && p.minReplicas <= MaxUp(p.minReplicas, p.up)))
    ensures AlwaysRoom(p)
  {
    forall x | InBounds(p, x) ensures RoomAt(p, x) {
      MinDownRange(x, p.down);
      if p.up >= 1.0 {
        MaxUpGrows(x, p.up);
      } else {
        LimitsMonotone(p.minReplicas, x, p.up, p.down);
        CoherentNeverCrosses(p);
        assert Uncrossed(p, x);
      }
    }
  }

  /** For up >= 1 the change clamp lands between the previous and the requested count, so the second
      bounds clamp never acts. */
  lemma FinalClampIdle(p: Policy, prev: int, want: int)
    requires Normal(p) && InBounds(p, prev) && p.up >= 1.0
    ensures var next := Bounded(p, want);
            var r := ClampChange(prev, next, p.up, p.down);
            && (prev <= r <= next || next <= r <= prev)
            && Step(p, prev, want) == r
  {
    hide MaxUp, MinDown;
    MaxUpGrows(prev, p.up);
    MinDownRange(prev, p.down);
    StepInBounds(p, prev, want);
    ClampChangeIsMedian(prev, Bounded(p, want), p.up, p.down);
  }

  /** Every plan stays within the bounds, for every policy and input; and an entry respects both rate
      limits against the entry before it exactly when the limits there leave room. */
  lemma PlanBoundsAndRates(policy: Policy, prev: int, forecast: seq<real>, quantiles: QuantileMap, i: nat)
    requires i < |forecast|
    ensures var p := Normalise(policy);
            var plan := Plan(policy, prev, forecast, quantiles);
            var before := Before(Bounded(p, prev), plan, i);
            && InBounds(p, plan[i])
            && InBounds(p, before)
            && (RateLimited(p, before, plan[i]) <==> RoomAt(p, before))
  {
    hide Normalise, Adjusted, Wanted, Outputs, Step, RateLimited, InBounds, RoomAt;
    var p := Normalise(policy);
    var start := Bounded(p, prev);
    var wanted := Wanted(p, Adjusted(p, forecast, quantiles));
    var plan := Plan(policy, prev, forecast, quantiles);
    BeforeInBounds(p, start, prev, wanted, i);
    OutputsAt(p, start, wanted, i);
    StepInBounds(p, Before(start, plan, i), wanted[i]);
    RateLimitIff(p, Before(start, plan, i), wanted[i]);
  }

  /** The same in the policy's own numbers, entry by entry. */
  lemma PlanRates(policy: Policy, prev: int, forecast: seq<real>, quantiles: QuantileMap, i: nat)
    requires i < |forecast|
    ensures var p := Normalise(policy);
            var plan := Plan(policy, prev, forecast, quantiles);
            var before := Before(Bounded(p, prev), plan, i);
            RoomAt(p, before) ==>
              RateKept(p, before, Bounded(p, Wanted(p, Adjusted(p, forecast, quantiles))[i]), plan[i])
  {
    hide Normalise, Adjusted, Wanted, Outputs, Step, RateKept, InBounds, RoomAt;
    var p := Normalise(policy);
    var start := Bounded(p, prev);
    var wanted := Wanted(p, Adjusted(p, forecast, quantiles));
    var plan := Plan(policy, prev, forecast, quantiles);
    BeforeInBounds(p, start, prev, wanted, i);
    OutputsAt(p, start, wanted, i);
    if RoomAt(p, Before(start, plan, i)) {
      StepRate(p, Before(start, plan, i), wanted[i]);
    }
  }

  lemma BeforeInBounds(p: Policy, start: int, prev: int, wanted: seq<int>, i: nat)
    requires Normal(p) && start == Bounded(p, prev) && i <= |wanted|
    ensures InBounds(p, Before(start, Outputs(p, start, wanted), i))
  {
    hide Outputs, Step;
    StepInBounds(p, 0, prev);
    if i > 0 {
      OutputsAt(p, start, wanted, i - 1);
      StepInBounds(p, Before(start, Outputs(p, start, wanted), i - 1), wanted[i - 1]);
    }
  }

  // ----- monotonicity

  /** At x the rate limits are in order, or growth from x cannot even reach MinReplicas. */
  predicate Uncrossed(p: Policy, x: int) {
    MinDown(x, p.down) <= MaxUp(x, p.up) || MaxUp(x, p.up) < p.minReplicas
  }

  ghost predicate NeverCrosses(p: Policy) {
    forall x | InBounds(p, x) :: Uncrossed(p, x)
  }

  /** A policy whose steps down keep no more than its steps up allow never crosses; up >= 1 suffices. */
  predicate Coherent(p: Policy) {
    p.up >= Keep(p.down)
  }

  lemma CoherentNeverCrosses(p: Policy)
    requires Normal(p) && Coherent(p)
    ensures NeverCrosses(p)
  {
    forall x | InBounds(p, x) ensures Uncrossed(p, x) {
      Ordered(x as real, Keep(p.down), p.up);
      MinDownRange(x, p.down);
    }
  }

  /** A policy that may only halve and must keep everything: at ten pods its limits cross. */
  lemma CrossedExample(want: int)
    ensures var p := Policy(1.0, 1.0, 0.0, 1, 0, 0.5, 0, 0, "ceil");
            && Normal(p) && InBounds(p, 10) && !Uncrossed(p, 10) && !NeverCrosses(p)
            && !RateLimited(p, 10, Step(p, 10, want))
  {
    var p := Policy(1.0, 1.0, 0.0, 1, 0, 0.5, 0, 0, "ceil");
    assert MaxUp(10, 0.5) == 5 && MinDown(10, 0) == 10;
    hide MaxUp, MinDown;
    assert InBounds(p, 10) && !Uncrossed(p, 10);
    RateLimitIff(p, 10, want);
  }

  predicate SameClamps(p: Policy, p': Policy) {
    p'.minReplicas == p.minReplicas && p'.maxReplicas == p.maxReplicas && p'.up == p.up && p'.down == p.down
  }

  predicate Below(a: seq<int>, b: seq<int>) {
    |a| == |b| && forall i | 0 <= i < |a| :: a[i] <= b[i]
  }

  lemma StepMonotone(p: Policy, p': Policy, prev: int, prev': int, want: int, want': int)
    requires Normal(p) && NeverCrosses(p) && SameClamps(p, p')
    requires InBounds(p, prev) && InBounds(p, prev') && prev <= prev' && want <= want'
    ensures Step(p, prev, want) <= Step(p', prev', want')
  {
    assert Uncrossed(p, prev) && Uncrossed(p, prev');
    hide MaxUp, MinDown, NeverCrosses;
    LimitsMonotone(prev, prev', p.up, p.down);
    MinDownRange(prev, p.down);
    StepInBounds(p, prev, want);
    StepInBounds(p, prev', want');
    if MaxUp(prev, p.up) >= p.minReplicas {
      ClampChangeIsMedian(prev, Bounded(p, want), p.up, p.down);
      ClampChangeIsMedian(prev', Bounded(p, want'), p.up, p.down);
    }
  }

  lemma {:induction false} OutputsMonotone(p: Policy, p': Policy, prev: int, prev': int,
                                           wanted: seq<int>, wanted': seq<int>)
    requires Normal(p) && NeverCrosses(p) && SameClamps(p, p')
    requires InBounds(p, prev) && InBounds(p, prev') && prev <= prev' && Below(wanted, wanted')
    ensures Below(Outputs(p, prev, wanted), Outputs(p', prev', wanted'))
    decreases |wanted|
  {
    hide Step, Normal, InBounds, NeverCrosses, SameClamps;
    if wanted != [] {
      var n := |wanted| - 1;
      OutputsMonotone(p, p', prev, prev', wanted[..n], wanted'[..n]);
      var out, out' := Outputs(p, prev, wanted[..n]), Outputs(p', prev', wanted'[..n]);
      if n > 0 {
        StepLands(p, p', prev, prev', wanted, wanted', n - 1);
      }
      StepMonotone(p, p', Before(prev, out, n), Before(prev', out', n), wanted[n], wanted'[n]);
    }
  }

  lemma StepLands(p: Policy, p': Policy, prev: int, prev': int, wanted: seq<int>, wanted': seq<int>, i: nat)
    requires Normal(p) && SameClamps(p, p') && i < |wanted| - 1 && |wanted| == |wanted'|
    ensures InBounds(p, Outputs(p, prev, wanted[..|wanted| - 1])[i])
    ensures InBounds(p, Outputs(p', prev', wanted'[..|wanted| - 1])[i])
  {
    hide Outputs, Step;
    var w, w' := wanted[..|wanted| - 1], wanted'[..|wanted| - 1];
    OutputsAt(p, prev, w, i);
    OutputsAt(p', prev', w', i);
    StepInBounds(p, Before(prev, Outputs(p, prev, w), i), w[i]);
    StepBounded(p, p', Before(prev', Outputs(p', prev', w'), i), w'[i]);
  }

  lemma StepBounded(p: Policy, p': Policy, prev: int, want: int)
    requires Normal(p) && SameClamps(p, p')
    ensures InBounds(p, Step(p', prev, want))
  {
  }

  /** Whatever raises the wanted counts or the starting count never lowers the plan anywhere. */
  lemma PlanMonotone(policy: Policy, policy': Policy, prev: int, prev': int,
                     f: seq<real>, f': seq<real>, q: QuantileMap, q': QuantileMap)
    requires var p, p' := Normalise(policy), Normalise(policy');
             && NeverCrosses(p) && SameClamps(p, p') && prev <= prev'
             && Below(Wanted(p, Adjusted(p, f, q)), Wanted(p', Adjusted(p', f', q')))
    ensures Below(Plan(policy, prev, f, q), Plan(policy', prev', f', q'))
  {
    hide Normalise, Adjusted, Wanted, Outputs, Below, NeverCrosses;
    var p, p' := Normalise(policy), Normalise(policy');
    StepInBounds(p, 0, prev);
    StepInBounds(p, 0, prev');
    assert Bounded(p', prev') == Bounded(p, prev');
    var wanted, wanted' := Wanted(p, Adjusted(p, f, q)), Wanted(p', Adjusted(p', f', q'));
    OutputsMonotone(p, p', Bounded(p, prev), Bounded(p', prev'), wanted, wanted');
  }

  // ----- what raises the wanted counts

  predicate RealsBelow(a: seq<real>, b: seq<real>) {
    |a| == |b| && forall i | 0 <= i < |a| :: a[i] <= b[i]
  }

  lemma WindowMonotone(a: seq<real>, b: seq<real>, lo: nat, hi: nat, hi': nat)
    requires RealsBelow(a, b) && lo <= hi <= hi' <= |a|
    ensures WindowMax(a, lo, hi) <= WindowMax(b, lo, hi')
  {
    hide WindowMax;
  }

  lemma WantedMonotone(p: Policy, p': Policy, a: seq<real>, b: seq<real>)
    requires 0 <= p.prewarm <= p'.prewarm && p'.rounding == p.rounding && RealsBelow(a, b)
    ensures Below(Wanted(p, a), Wanted(p', b))
  {
    hide WindowMax, RoundPods, RealsBelow;
    assert |a| == |b| by { LengthsAgree(a, b); }
    forall i | 0 <= i < |a| ensures Wanted(p, a)[i] <= Wanted(p', b)[i] {
      var hi, hi' := WindowEnd(i, p.prewarm, |a|), WindowEnd(i, p'.prewarm, |b|);
      WindowMonotone(a, b, i, hi, hi');
      RoundMonotone(WindowMax(a, i, hi), WindowMax(b, i, hi'), p.rounding);
    }
  }

  lemma LengthsAgree(a: seq<real>, b: seq<real>)
    requires RealsBelow(a, b)
    ensures |a| == |b|
  {
  }

  lemma Divided(x: real, y: real, t: real)
    requires x <= y && t > 0.0
    ensures PerPod(x, t) <= PerPod(y, t)
  {
  }

  lemma AdjustedMonotone(p: Policy, p': Policy, f: seq<real>, f': seq<real>, q: QuantileMap, q': QuantileMap)
    requires Normal(p) && Normal(p') && p'.targetPerPod == p.targetPerPod && |f| == |f'|
    requires forall i | 0 <= i < |f| :: Load(p, f, q, i) <= Load(p', f', q', i)
    ensures RealsBelow(Adjusted(p, f, q), Adjusted(p', f', q'))
  {
    hide Load, Adjusted;
    forall i | 0 <= i < |f| ensures Adjusted(p, f, q)[i] <= Adjusted(p', f', q')[i] {
      Divided(Load(p, f, q, i), Load(p', f', q', i), p.targetPerPod);
    }
  }

  /** A pointwise larger forecast, a larger previous count or a longer prewarm window never gives fewer
      replicas at any step, provided the rate limits never cross. */
  lemma MonotoneInLoad(policy: Policy, prewarm: int, prev: int, prev': int, f: seq<real>, f': seq<real>, q: QuantileMap)
    requires NeverCrosses(Normalise(policy)) && policy.prewarm <= prewarm && prev <= prev' && RealsBelow(f, f')
    ensures Below(Plan(policy, prev, f, q), Plan(policy.(prewarm := prewarm), prev', f', q))
  {
    var policy' := policy.(prewarm := prewarm);
    var p, p' := Normalise(policy), Normalise(policy');
    forall i | 0 <= i < |f| ensures Load(p, f, q, i) <= Load(p', f', q, i) {
      Ordered(p.headroom, NonNeg(f[i]), NonNeg(f'[i]));
    }
    hide Load, Adjusted, Wanted, Below, RealsBelow, NeverCrosses;
    LengthsAgree(f, f');
    AdjustedMonotone(p, p', f, f', q, q);
    WantedMonotone(p, p', Adjusted(p, f, q), Adjusted(p', f', q));
    PlanMonotone(policy, policy', prev, prev', f, f', q, q);
  }

  /** Among the levels the built-in models use, raising the quantile never lowers the plan; where a model
      emits no quantiles for want of spread, it does not change it. */
  lemma MonotoneInQuantile(policy: Policy, level: real, prev: int, values: seq<real>, sigma: real, spread: seq<real>)
    requires |spread| == |values| && NonNegative(spread)
    requires policy.quantileLevel in Z_SCORES && level in Z_SCORES && policy.quantileLevel <= level
    requires NeverCrosses(Normalise(policy))
    ensures var m := Emitted(values, sigma, spread);
            Below(Plan(policy, prev, values, m), Plan(policy.(quantileLevel := level), prev, values, m))
  {
    var m := Emitted(values, sigma, spread);
    var policy' := policy.(quantileLevel := level);
    var p, p' := Normalise(policy), Normalise(policy');
    assert p.quantileLevel > 0.0 && p'.quantileLevel > 0.0;
    if sigma > 0.0 {
      LevelsOrdered(values, sigma, spread, policy.quantileLevel, level);
    }
    forall i | 0 <= i < |values| ensures Load(p, values, m, i) <= Load(p', values, m, i) {
      hide Mul, Emitted;
    }
    hide Load, Adjusted, Wanted, Below, Emitted, RealsBelow, NeverCrosses;
    AdjustedMonotone(p, p', values, values, m, m);
    WantedMonotone(p, p', Adjusted(p, values, m), Adjusted(p', values, m));
    PlanMonotone(policy, policy', prev, prev, values, values, m, m);
  }

  lemma RoundingRaised(p: Policy, p': Policy, adj: seq<real>)
    requires p.prewarm >= 0 && p' == p.(rounding := p'.rounding)
    requires forall x: real | x >= 0.0 :: RoundPods(x, p.rounding) <= RoundPods(x, p'.rounding)
    ensures Below(Wanted(p, adj), Wanted(p', adj))
  {
    hide WindowMax, RoundPods, Wanted;
  }

  lemma CrossingKept(p: Policy, p': Policy)
    requires SameClamps(p, p') && NeverCrosses(p)
    ensures NeverCrosses(p')
  {
    hide MaxUp, MinDown;
    forall x | InBounds(p', x) ensures Uncrossed(p', x) {
      assert InBounds(p, x) && Uncrossed(p, x);
    }
  }

  lemma MonotoneInMode(policy: Policy, mode: string, mode': string, prev: int, f: seq<real>, q: QuantileMap)
    requires NeverCrosses(Normalise(policy))
    requires forall x: real | x >= 0.0 :: RoundPods(x, mode) <= RoundPods(x, mode')
    ensures Below(Plan(policy.(rounding := mode), prev, f, q), Plan(policy.(rounding := mode'), prev, f, q))
  {
    var policy0, policy1 := policy.(rounding := mode), policy.(rounding := mode');
    var p0, p1 := Normalise(policy0), Normalise(policy1);
    hide Adjusted, RoundPods, Wanted, NeverCrosses, Below, Plan;
    CrossingKept(Normalise(policy), p0);
    SameAdjusted(p0, p1, f, q);
    RoundingRaised(p0, p1, Adjusted(p0, f, q));
    PlanMonotone(policy0, policy1, prev, prev, f, f, q, q);
  }

  /** plan(floor) <= plan(round) <= plan(ceil) at every step. */
  lemma MonotoneInRounding(policy: Policy, prev: int, f: seq<real>, q: QuantileMap)
    requires NeverCrosses(Normalise(policy))
    ensures var floor, round := policy.(rounding := "floor"), policy.(rounding := "round");
            var ceil := policy.(rounding := "ceil");
            && Below(Plan(floor, prev, f, q), Plan(round, prev, f, q))
            && Below(Plan(round, prev, f, q), Plan(ceil, prev, f, q))
  {
    forall x: real | x >= 0.0
      ensures RoundPods(x, "floor") <= RoundPods(x, "round") <= RoundPods(x, "ceil")
    {
      RoundingModes(x);
    }
    hide *;
    MonotoneInMode(policy, "floor", "round", prev, f, q);
    MonotoneInMode(policy, "round", "ceil", prev, f, q);
  }

  lemma SameAdjusted(p: Policy, p': Policy, f: seq<real>, q: QuantileMap)
    requires Normal(p) && p' == p.(rounding := p'.rounding)
    ensures Adjusted(p, f, q) == Adjusted(p', f, q)
  {
    hide Mul, PerPod, Adjusted;
  }

  // ----- quantiles and headroom

  lemma SamePlan(policy: Policy, policy': Policy, prev: int,
                 f: seq<real>, f': seq<real>, q: QuantileMap, q': QuantileMap)
    requires var p, p' := Normalise(policy), Normalise(policy');
             && SameClamps(p, p') && p'.prewarm == p.prewarm && p'.rounding == p.rounding
             && p'.targetPerPod == p.targetPerPod && |f| == |f'|
             && forall i | 0 <= i < |f| :: Load(p, f, q, i) == Load(p', f', q', i)
    ensures Plan(policy, prev, f, q) == Plan(policy', prev, f', q')
  {
    var p, p' := Normalise(policy), Normalise(policy');
    hide Load, Normalise, PerPod;
    assert Adjusted(p, f, q) == Adjusted(p', f', q');
    hide Adjusted, WindowMax, RoundPods;
    var adj := Adjusted(p, f, q);
    assert Wanted(p, adj) == Wanted(p', adj);
    hide Wanted, Step, Outputs;
    OutputsSame(p, p', Bounded(p, prev), Wanted(p, adj));
  }

  lemma {:induction false} OutputsSame(p: Policy, p': Policy, prev: int, wanted: seq<int>)
    requires SameClamps(p, p')
    ensures Outputs(p, prev, wanted) == Outputs(p', prev, wanted)
  {
    if wanted != [] {
      OutputsSame(p, p', prev, wanted[..|wanted| - 1]);
    }
  }

  /** When the configured quantile is available it takes the place of the forecast, without headroom;
      when it is not, the quantiles do not matter. */
  lemma QuantileReplaces(policy: Policy, prev: int, f: seq<real>, q: QuantileMap)
    ensures policy.quantileLevel > 0.0 && policy.quantileLevel in q && |q[policy.quantileLevel]| == |f| ==>
      var plain := policy.(headroom := 1.0, quantileLevel := 0.0);
      Plan(policy, prev, f, q) == Plan(plain, prev, q[policy.quantileLevel], map[])
    ensures policy.quantileLevel <= 0.0 || policy.quantileLevel !in q || |q[policy.quantileLevel]| != |f| ==>
      Plan(policy, prev, f, q) == Plan(policy, prev, f, map[])
  {
    if UseQuantile(policy, f, q) {
      var policy' := policy.(headroom := 1.0, quantileLevel := 0.0);
      var f' := q[policy.quantileLevel];
      forall i | 0 <= i < |f| ensures Load(Normalise(policy), f, q, i) == Load(Normalise(policy'), f', map[], i) {
        TimesOne(NonNeg(f'[i]));
      }
      hide Load, Plan;
      SamePlan(policy, policy', prev, f, f', q, map[]);
    } else {
      hide Plan, Mul;
      SamePlan(policy, policy, prev, f, f, q, map[]);
    }
  }
}
