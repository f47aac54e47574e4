/** cmd/forecaster/forecaster.go: the tick of one workload forecaster as a control loop. */
module ControlLoop {
  import opened RealSums
  import opened Quantiles
  import opened Planner
  import opened PlannerLaws

  /** How far one tick got. Failed training does not stop a tick; a failed store write comes after the
      plan has already become the current count. */
  datatype Tick =
    | CollectFailed
    | BuildFailed
    | PredictFailed
    | Planned(values: seq<real>, quantiles: QuantileMap, stored: bool)

  /** The plan a tick computes, empty when it fails before planning. */
  function TickPlan(policy: Policy, current: int, t: Tick): seq<int> {
    if t.Planned? then Plan(policy, current, t.values, t.quantiles) else []
  }

  function Next(policy: Policy, current: int, t: Tick): int {
    var plan := TickPlan(policy, current, t);
    if |plan| > 0 then plan[0] else current
  }

  /** The current count after a run of ticks. */
  function Run(policy: Policy, start: int, ticks: seq<Tick>): int {
    if ticks == [] then start
    else Next(policy, Run(policy, start, ticks[..|ticks| - 1]), ticks[|ticks| - 1])
  }

  class WorkloadForecaster {
    const policy: Policy
    var currentReplicas: int
    /** Every tick so far. */
    ghost var history: seq<Tick>

    /** The current count is the one the history of ticks leads to from MinReplicas. */
    ghost predicate Valid()
      reads this
    {
      currentReplicas == Run(policy, policy.minReplicas, history)
    }

    constructor (policy: Policy)
      ensures Valid() && this.policy == policy && history == []
    {
      this.policy := policy;
      currentReplicas := policy.minReplicas;
      history := [];
    }

    /** One forecast cycle; returns the plan handed to the store, if the write succeeded. */
    method DoTick(t: Tick) returns (published: bool, plan: seq<int>)
      requires Valid()
      modifies this
      ensures Valid() && history == old(history) + [t]
      ensures plan == TickPlan(policy, old(currentReplicas), t)
      ensures published <==> t.Planned? && t.stored
      ensures !t.Planned? ==> currentReplicas == old(currentReplicas)
    {
      hide Plan;
      ghost var before := history;
      history := history + [t];
      assert history[..|history| - 1] == before;
      if !t.Planned? {
        return false, [];
      }
      plan := ToReplicas(currentReplicas, t.values, policy, t.quantiles);
      if |plan| > 0 {
        currentReplicas := plan[0];
      }
      published := t.stored;
    }
  }

  // ----- what every run keeps

  predicate Effective(t: Tick) {
    t.Planned? && t.values != []
  }

  predicate Published(t: Tick) {
    Effective(t) && t.stored
  }

  predicate StoreFailed(t: Tick) {
    Effective(t) && !t.stored
  }

  /** The count stays in the policy's bounds from the first non-empty plan on; before it, it is
      MinReplicas. A policy whose MinReplicas is itself within bounds never leaves them. */
  lemma {:induction false} RunInBounds(policy: Policy, ticks: seq<Tick>)
    ensures var x := Run(policy, policy.minReplicas, ticks);
            if exists k | 0 <= k < |ticks| :: Effective(ticks[k]) then InBounds(Normalise(policy), x)
            else x == policy.minReplicas
    ensures InBounds(Normalise(policy), policy.minReplicas)
            ==> InBounds(Normalise(policy), Run(policy, policy.minReplicas, ticks))
  {
    hide Plan, InBounds, Normalise;
    if ticks != [] {
      var n := |ticks| - 1;
      RunInBounds(policy, ticks[..n]);
      var x, t := Run(policy, policy.minReplicas, ticks[..n]), ticks[n];
      assert forall k | 0 <= k < n :: ticks[..n][k] == ticks[k];
      if Effective(t) {
        PlanBoundsAndRates(policy, x, t.values, t.quantiles, 0);
      }
    }
  }

  lemma TickRate(policy: Policy, current: int, t: Tick)
    requires var p := Normalise(policy); AlwaysRoom(p) && InBounds(p, current)
    ensures var p, y := Normalise(policy), Next(policy, current, t);
            && InBounds(p, y)
            && (if Effective(t) then RateLimited(p, current, y) else y == current)
  {
    hide Plan, Normalise, RateLimited, RoomAt;
    if Effective(t) {
      PlanBoundsAndRates(policy, current, t.values, t.quantiles, 0);
    }
  }

  // ----- growth between published plans

  /** k applications of x -> ceil(up * max(1, x)). */
  function GrowTimes(up: real, k: nat, x: int): int {
    if k == 0 then x else MaxUp(GrowTimes(up, k - 1, x), up)
  }

  /** k applications of x -> floor(x * (1 - down/100)). */
  function ShrinkTimes(down: int, k: nat, x: int): int {
    if k == 0 then x else MinDown(ShrinkTimes(down, k - 1, x), down)
  }

  /** How many ticks of a run move the current count. */
  function Moves(ticks: seq<Tick>): nat {
    if ticks == [] then 0
    else Moves(ticks[..|ticks| - 1]) + if Effective(ticks[|ticks| - 1]) then 1 else 0
  }

  function FailedWrites(ticks: seq<Tick>): nat {
    if ticks == [] then 0
    else FailedWrites(ticks[..|ticks| - 1]) + if StoreFailed(ticks[|ticks| - 1]) then 1 else 0
  }

  /** y is within k limit steps of x in both directions. */
  predicate Within(p: Policy, k: nat, x: int, y: int) {
    0 <= ShrinkTimes(p.down, k, x) <= y <= GrowTimes(p.up, k, x)
  }

  lemma WithinNext(p: Policy, k: nat, x: int, y: int, z: int)
    requires Normal(p) && Within(p, k, x, y) && RateLimited(p, y, z)
    ensures Within(p, k + 1, x, z)
  {
    hide MaxUp, MinDown;
    LimitsMonotone(y, GrowTimes(p.up, k, x), p.up, p.down);
    LimitsMonotone(ShrinkTimes(p.down, k, x), y, p.up, p.down);
    MinDownRange(ShrinkTimes(p.down, k, x), p.down);
  }

  /** 1 + u + ... + u^(k-1) */
  function Geometric(u: real, k: nat): real {
    if k == 0 then 0.0 else Geometric(u, k - 1) + Pow(u, k - 1)
  }

  /** k limit steps in the policy's own numbers: growth by `up` and shrinkage by `down` percent k times over,
      with at most one pod of rounding per step. */
  predicate WithinRates(p: Policy, k: nat, x: int, y: int) {
    var keep := 1.0 - (p.down as real) / 100.0;
    && y as real <= Mul(Pow(p.up, k), AtLeastOne(x)) + Geometric(p.up, k)
    && y as real >= Mul(Pow(keep, k), x as real) - Geometric(keep, k)
  }

  lemma {:induction false} GeometricNext(u: real, k: nat)
    requires u >= 0.0
    ensures Geometric(u, k + 1) == Mul(u, Geometric(u, k)) + 1.0
    ensures Geometric(u, k) >= 0.0 && Pow(u, k) >= 0.0
  {
    if k == 0 {
      TimesZero(u);
    } else {
      GeometricNext(u, k - 1);
      assert Pow(u, k) == Mul(u, Pow(u, k - 1));
      Product0(u, Pow(u, k - 1));
      hide Mul;
      Distribute(u, Geometric(u, k - 1), Pow(u, k - 1));
    }
  }

  lemma {:induction false} GrowClosed(up: real, k: nat, x: int)
    requires up > 0.0 && x >= 0
    ensures AtLeastOne(GrowTimes(up, k, x)) <= Mul(Pow(up, k), AtLeastOne(x)) + Geometric(up, k)
  {
    hide MaxUp;
    var bound := Mul(Pow(up, k), AtLeastOne(x)) + Geometric(up, k);
    if k == 0 {
      TimesOne(AtLeastOne(x));
    } else {
      GrowClosed(up, k - 1, x);
      var g, before := GrowTimes(up, k - 1, x), Mul(Pow(up, k - 1), AtLeastOne(x)) + Geometric(up, k - 1);
      GeometricNext(up, k - 1);
      assert Pow(up, k) == Mul(up, Pow(up, k - 1));
      Associate(up, Pow(up, k - 1), AtLeastOne(x));
      Distribute(up, Mul(Pow(up, k - 1), AtLeastOne(x)), Geometric(up, k - 1));
      Ordered(up, AtLeastOne(g), before);
      Product0(up, before);
      CeilGrowth(up, g);
      hide Mul;
    }
  }

  lemma CeilGrowth(up: real, g: int)
    ensures MaxUp(g, up) as real < Mul(up, AtLeastOne(g)) + 1.0
  {
    Commute(up, AtLeastOne(g));
    hide Mul;
  }

  lemma {:induction false} ShrinkClosed(down: int, k: nat, x: int)
    requires 0 <= down <= 100 && x >= 0
    ensures var keep := 1.0 - (down as real) / 100.0;
            ShrinkTimes(down, k, x) as real >= Mul(Pow(keep, k), x as real) - Geometric(keep, k)
  {
    hide MinDown;
    var keep := 1.0 - (down as real) / 100.0;
    if k == 0 {
      TimesOne(x as real);
    } else {
      ShrinkClosed(down, k - 1, x);
      var g, product := ShrinkTimes(down, k - 1, x), Mul(Pow(keep, k - 1), x as real);
      GeometricNext(keep, k - 1);
      assert Pow(keep, k) == Mul(keep, Pow(keep, k - 1));
      Associate(keep, Pow(keep, k - 1), x as real);
      Ordered(keep, product - Geometric(keep, k - 1), g as real);
      Distribute(keep, product - Geometric(keep, k - 1), Geometric(keep, k - 1));
      FloorShrink(down, g);
      hide Mul;
    }
  }

  lemma FloorShrink(down: int, g: int)
    ensures MinDown(g, down) as real > Mul(1.0 - (down as real) / 100.0, g as real) - 1.0
  {
    Commute(1.0 - (down as real) / 100.0, g as real);
    hide Mul;
  }

  lemma WithinInRates(p: Policy, k: nat, x: int, y: int)
    requires Normal(p) && x >= 0 && Within(p, k, x, y)
    ensures WithinRates(p, k, x, y)
  {
    GrowClosed(p.up, k, x);
    ShrinkClosed(p.down, k, x);
    hide Mul, Geometric, GrowTimes, ShrinkTimes, Pow;
  }

  /** A run from a count in bounds moves it at most by as many limit steps as it has moving ticks. */
  lemma RunRate(policy: Policy, start: int, ticks: seq<Tick>)
    requires var p := Normalise(policy); AlwaysRoom(p) && InBounds(p, start)
    ensures var p, y := Normalise(policy), Run(policy, start, ticks);
            InBounds(p, y) && Within(p, Moves(ticks), start, y) && WithinRates(p, Moves(ticks), start, y)
  {
    assert start >= 0;
    hide *;
    RunWithin(policy, start, ticks);
    WithinInRates(Normalise(policy), Moves(ticks), start, Run(policy, start, ticks));
  }

  lemma {:induction false} RunWithin(policy: Policy, start: int, ticks: seq<Tick>)
    requires var p := Normalise(policy); AlwaysRoom(p) && InBounds(p, start)
    ensures var p, y := Normalise(policy), Run(policy, start, ticks);
            InBounds(p, y) && Within(p, Moves(ticks), start, y)
    decreases |ticks|
  {
    hide Normalise, Normal, InBounds, Within, RateLimited, Next, Effective, AlwaysRoom;
    var p := Normalise(policy);
    if ticks == [] {
      WithinStart(p, start);
    } else {
      var n := |ticks| - 1;
      var x, k := Run(policy, start, ticks[..n]), Moves(ticks[..n]);
      assert Run(policy, start, ticks) == Next(policy, x, ticks[n]);
      assert Moves(ticks) == k + if Effective(ticks[n]) then 1 else 0;
      hide Run, Moves;
      RunWithin(policy, start, ticks[..n]);
      TickRate(policy, x, ticks[n]);
      if Effective(ticks[n]) {
        WithinNext(p, k, start, x, Next(policy, x, ticks[n]));
      }
    }
  }

  lemma WithinStart(p: Policy, x: int)
    requires Normal(p) && InBounds(p, x)
    ensures Within(p, 0, x, x)
  {
  }

  lemma {:induction false} RunSplit(policy: Policy, start: int, ticks: seq<Tick>, i: nat)
    requires i <= |ticks|
    ensures Run(policy, start, ticks) == Run(policy, Run(policy, start, ticks[..i]), ticks[i..])
    decreases |ticks|
  {
    hide Next;
    if i == |ticks| {
      assert ticks[..i] == ticks;
    } else {
      var n := |ticks| - 1;
      RunSplit(policy, start, ticks[..n], i);
      assert ticks[..n][..i] == ticks[..i];
      assert ticks[i..][..n - i] == ticks[..n][i..];
    }
  }

  /** Without a published plan, the moves are the failed store writes. */
  lemma {:induction false} MovesAreFailures(ticks: seq<Tick>)
    requires forall k | 0 <= k < |ticks| :: !Published(ticks[k])
    ensures Moves(ticks) == FailedWrites(ticks)
  {
    if ticks != [] {
      MovesAreFailures(ticks[..|ticks| - 1]);
    }
  }

  /** From one published plan to the next, with only unpublished ticks in between. */
  lemma QuietStretch(policy: Policy, x: int, between: seq<Tick>, t: Tick)
    requires var p := Normalise(policy); AlwaysRoom(p) && InBounds(p, x)
    requires Effective(t) && forall k | 0 <= k < |between| :: !Published(between[k])
    ensures var p, y := Normalise(policy), Run(policy, x, between + [t]);
            Within(p, FailedWrites(between) + 1, x, y) && WithinRates(p, FailedWrites(between) + 1, x, y)
  {
    var tail := between + [t];
    hide Normalise, InBounds, Within, WithinRates, Run, FailedWrites, Published, Effective, AlwaysRoom;
    MovesAreFailures(between);
    assert tail[..|tail| - 1] == between;
    assert Moves(tail) == FailedWrites(between) + 1;
    hide Moves;
    RunRate(policy, x, tail);
  }

  /** The count after tick i is the first entry of its plan. */
  lemma FirstEntry(policy: Policy, start: int, ticks: seq<Tick>, i: nat)
    requires i < |ticks| && Effective(ticks[i])
    ensures |TickPlan(policy, Run(policy, start, ticks[..i]), ticks[i])| > 0
    ensures TickPlan(policy, Run(policy, start, ticks[..i]), ticks[i])[0] == Run(policy, start, ticks[..i + 1])
  {
    hide Plan;
    assert ticks[..i + 1][..i] == ticks[..i];
  }

  lemma AfterEffective(policy: Policy, ticks: seq<Tick>, i: nat)
    requires i < |ticks| && Effective(ticks[i])
    ensures InBounds(Normalise(policy), Run(policy, policy.minReplicas, ticks[..i + 1]))
  {
    hide Normalise, InBounds, Run, Effective;
    assert ticks[..i + 1][i] == ticks[i];
    RunInBounds(policy, ticks[..i + 1]);
  }

  lemma RunBetween(policy: Policy, start: int, ticks: seq<Tick>, i: nat, j: nat)
    requires i < j < |ticks|
    ensures Run(policy, start, ticks[..j + 1])
         == Run(policy, Run(policy, start, ticks[..i + 1]), ticks[i + 1..j] + [ticks[j]])
  {
    hide Run;
    RunSplit(policy, start, ticks[..j + 1], i + 1);
    assert ticks[..j + 1][..i + 1] == ticks[..i + 1];
    Slice(ticks, i + 1, j);
  }

  lemma Slice<T>(s: seq<T>, i: nat, j: nat)
    requires i <= j < |s|
    ensures s[..j + 1][i..] == s[i..j] + [s[j]]
  {
  }

  /** Between consecutive published plans at ticks i and j, with m failed store writes in between, the
      first entry moves by at most m + 1 limit steps: failed writes hide moves, they do not undo them. */
  lemma PublishedGrowth(policy: Policy, ticks: seq<Tick>, i: nat, j: nat)
    requires AlwaysRoom(Normalise(policy))
    requires i < j < |ticks| && Published(ticks[i]) && Published(ticks[j])
    requires forall k | i < k < j :: !Published(ticks[k])
    ensures var s := policy.minReplicas;
            var plan_i := TickPlan(policy, Run(policy, s, ticks[..i]), ticks[i]);
            var plan_j := TickPlan(policy, Run(policy, s, ticks[..j]), ticks[j]);
            && |plan_i| > 0 && |plan_j| > 0
            && var p, steps := Normalise(policy), FailedWrites(ticks[i + 1..j]) + 1;
               Within(p, steps, plan_i[0], plan_j[0]) && WithinRates(p, steps, plan_i[0], plan_j[0])
  {
    hide Normalise, TickPlan, InBounds, Within, WithinRates, Run, FailedWrites, AlwaysRoom;
    var s := policy.minReplicas;
    FirstEntry(policy, s, ticks, i);
    FirstEntry(policy, s, ticks, j);
    AfterEffective(policy, ticks, i);
    RunBetween(policy, s, ticks, i, j);
    QuietStretch(policy, Run(policy, s, ticks[..i + 1]), ticks[i + 1..j], ticks[j]);
  }
}
