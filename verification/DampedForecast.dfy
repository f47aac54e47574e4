/** The multi-step forecast recursion shared by ARIMA and SARIMA Predict: the exact solution, its
    decay, and when the clamps act. ARIMA is the case without a seasonal term (P == 0). */
module DampedForecast {
  import opened RealSums

  const CEILING: real := 1000000000.0

  function Damping(t: nat): (d: real)
    ensures 0.0 < d <= 1.0
  {
    DampingRange(t);
    1.0 / (1.0 + (t as real) * 0.1)
  }

  lemma DampingRange(t: nat)
    ensures 0.0 < 1.0 / (1.0 + (t as real) * 0.1) <= 1.0
  {
    var x := 1.0 + (t as real) * 0.1;
    assert x >= 1.0;
    assert x * (1.0 / x) == 1.0;
  }

  /** The three clamps, in the order the loop applies them. */
  function Clamped(pred: real, base: real): real {
    var a := if pred < 0.0 then 0.0 else pred;
    var b := if a > base * 2.0 + 100.0 then base * 2.0 + 100.0 else a;
    if b > CEILING then CEILING else b
  }

  predicate Seasonal(P: nat, s: int, t: nat) {
    s > 0 && t >= s && P > 0
  }

  /** The step-t prediction before clamping, from the t predictions already made. */
  function Unclamped(preds: seq<real>, base: real, P: nat, s: int): real
    requires |preds| >= 1
  {
    var t := |preds|;
    var d := Damping(t);
    var mixed := base * 0.9 + preds[t - 1] * 0.1;
    var seasoned := if Seasonal(P, s, t) then mixed + SeasonalPull(preds[t - s], base, d) else mixed;
    Damped(seasoned, base, d)
  }

  function SeasonalPull(x: real, base: real, d: real): real {
    (x - base) * 0.3 * d
  }

  function Damped(x: real, base: real, d: real): real {
    x * d + base * (1.0 - d)
  }

  /** The first n predictions, given the unclamped value of the first. */
  function Path(first: real, base: real, P: nat, s: int, n: nat): (preds: seq<real>)
    requires n >= 1
    ensures |preds| == n
  {
    if n == 1 then [Clamped(first, base)]
    else
      var before := Path(first, base, P, s, n - 1);
      before + [Clamped(Unclamped(before, base, P, s), base)]
  }

  /** How much of the first step's distance from the base survives at step t. It depends on the
      horizon only, never on the data. */
  function Weight(P: nat, s: int, t: nat): real {
    if t == 0 then 1.0
    else
      var d := Damping(t);
      var seasonal := if Seasonal(P, s, t) then 0.3 * Mul(d, Weight(P, s, t - s)) else 0.0;
      Mul(d, 0.1 * Weight(P, s, t - 1) + seasonal)
  }

  // ----- prefixes

  lemma {:induction false} PathPrefix(first: real, base: real, P: nat, s: int, m: nat, n: nat)
    requires 1 <= m <= n
    ensures Path(first, base, P, s, n)[..m] == Path(first, base, P, s, m)
  {
    if m < n {
      PathPrefix(first, base, P, s, m, n - 1);
      assert Path(first, base, P, s, n)[..m] == Path(first, base, P, s, n - 1)[..m];
    }
  }

  // ----- the weights decay

  /** One damped step of two weights below c stays below 0.4 * c; without the second, below 0.1 * c. */
  lemma StepRange(d: real, x: real, y: real, c: real)
    requires 0.0 < d <= 1.0 && 0.0 < x <= c && 0.0 <= y <= c
    ensures 0.0 < Mul(d, 0.1 * x + 0.3 * Mul(d, y)) <= 0.4 * c
    ensures 0.0 < Mul(d, 0.1 * x + 0.0) <= 0.1 * c
  {
    hide Mul;
    Shrinks(d, y);
    Shrinks(d, 0.1 * x + 0.3 * Mul(d, y));
    Shrinks(d, 0.1 * x + 0.0);
  }

  lemma {:induction false} WeightBounds(P: nat, s: int, t: nat)
    ensures 0.0 < Weight(P, s, t) <= 1.0
    decreases t
  {
    hide Mul, Damping;
    if t > 0 {
      WeightBounds(P, s, t - 1);
      var y := 0.0;
      if Seasonal(P, s, t) {
        WeightBounds(P, s, t - s);
        y := Weight(P, s, t - s);
      }
      StepRange(Damping(t), Weight(P, s, t - 1), y, 1.0);
    }
  }

  /** Without a seasonal term the weight falls tenfold per step. */
  lemma {:induction false} PlainDecay(P: nat, s: int, t: nat)
    requires P == 0 || s <= 0 || t < s
    ensures 0.0 < Weight(P, s, t) <= Pow(0.1, t)
  {
    hide Damping;
    if t > 0 {
      PlainDecay(P, s, t - 1);
      WeightBounds(P, s, t - 1);
      StepRange(Damping(t), Weight(P, s, t - 1), 0.0, Pow(0.1, t - 1));
    }
  }

  /** The number of whole seasons in t steps. */
  function Seasons(t: nat, s: nat): nat
    requires s >= 1
  {
    if t < s then 0 else 1 + Seasons(t - s, s)
  }

  lemma {:induction false} SeasonsIsQuotient(t: nat, s: nat)
    requires s >= 1
    ensures Seasons(t, s) == t / s
  {
    if t >= s {
      SeasonsIsQuotient(t - s, s);
      QuotientStep(t, s);
    } else {
      assert t / s == 0;
    }
  }

  lemma QuotientStep(t: nat, s: nat)
    requires 1 <= s <= t
    ensures t / s == (t - s) / s + 1
  {
    var q, r := (t - s) / s, (t - s) % s;
    assert t == (q + 1) * s + r;
    var gap := t / s - (q + 1);
    assert t - (t / s) * s == t % s;
    assert gap * s == r - t % s;
    assert gap == 0;
  }

  lemma {:induction false} SeasonsStep(t: nat, s: nat)
    requires s >= 1 && t >= 1
    ensures Seasons(t - 1, s) <= Seasons(t, s) <= Seasons(t - 1, s) + 1
  {
    if t - 1 >= s {
      SeasonsStep(t - s, s);
    }
  }

  /** With the seasonal term on, the weight falls to at most 0.4 of itself per season. */
  lemma {:induction false} SeasonalDecay(P: nat, s: nat, t: nat)
    requires P > 0 && s >= 1
    ensures 0.0 < Weight(P, s, t) <= Pow(0.4, Seasons(t, s))
    decreases t
  {
    hide Damping, Mul;
    WeightBounds(P, s, t);
    if t >= s {
      var k := Seasons(t - s, s);
      SeasonalDecay(P, s, t - 1);
      SeasonalDecay(P, s, t - s);
      SeasonsStep(t, s);
      PowPositive(0.4, k);
      PowStep(k);
      assert Weight(P, s, t - 1) <= Pow(0.4, k);
      StepRange(Damping(t), Weight(P, s, t - 1), Weight(P, s, t - s), Pow(0.4, k));
    }
  }

  lemma PowStep(k: nat)
    ensures Pow(0.4, k + 1) == 0.4 * Pow(0.4, k)
  {
  }

  // ----- the exact solution

  /** A point at fraction w of the way from base to x, with both ends inside the clamps, is inside. */
  lemma ClampIdle(base: real, x: real, w: real)
    requires 0.0 <= base <= CEILING && 0.0 <= x <= CEILING && x <= base * 2.0 + 100.0
    requires 0.0 <= w <= 1.0
    ensures Clamped(base + Mul(w, x - base), base) == base + Mul(w, x - base)
  {
    Fraction(w, 1.0, x - base);
  }

  predicate Between(a: real, x: real, b: real) {
    a <= x <= b || b <= x <= a
  }

  lemma Fraction(w: real, c: real, delta: real)
    requires 0.0 <= w <= c <= 1.0
    ensures Abs(Mul(w, delta)) <= Mul(c, Abs(delta))
    ensures Between(0.0, Mul(w, delta), delta)
  {
    Shrinks(w, Abs(delta));
    Ordered(Abs(delta), w, c);
    Negate(w, delta);
  }

  lemma FirstInside(first: real, base: real)
    requires 0.0 <= base <= CEILING
    ensures 0.0 <= Clamped(first, base) <= CEILING && Clamped(first, base) <= base * 2.0 + 100.0
  {
  }

  /** The predictions so far lie on the line through base and the first of them. */
  ghost predicate OnLine(preds: seq<real>, base: real, P: nat, s: int, delta: real) {
    forall i | 0 <= i < |preds| :: preds[i] == base + Mul(Weight(P, s, i), delta)
  }

  /** The step formula stays on the line. */
  lemma StepOnLine(preds: seq<real>, base: real, P: nat, s: int, delta: real)
    requires |preds| >= 1 && OnLine(preds, base, P, s, delta)
    ensures Unclamped(preds, base, P, s) == base + Mul(Weight(P, s, |preds|), delta)
  {
    hide Mul, Damped, SeasonalPull, Damping;
    var t := |preds|;
    var d, w1 := Damping(t), Weight(P, s, t - 1);
    var w2 := if Seasonal(P, s, t) then Weight(P, s, t - s) else 0.0;
    var x2 := if Seasonal(P, s, t) then preds[t - s] else base;
    TimesZero(delta);
    Recombine(base, d, w1, w2, delta, preds[t - 1], x2);
  }

  lemma Recombine(base: real, d: real, w1: real, w2: real, delta: real, x1: real, x2: real)
    requires x1 == base + Mul(w1, delta) && x2 == base + Mul(w2, delta)
    ensures Damped(base * 0.9 + x1 * 0.1 + SeasonalPull(x2, base, d), base, d)
         == base + Mul(Mul(d, 0.1 * w1 + 0.3 * Mul(d, w2)), delta)
    ensures Damped(base * 0.9 + x1 * 0.1, base, d) == base + Mul(Mul(d, 0.1 * w1 + 0.0), delta)
  {
    var seasonal := 0.3 * Mul(d, w2);
    assert SeasonalPull(x2, base, d) == Mul(seasonal, delta);
    var w := 0.1 * w1 + seasonal;
    assert x1 * 0.1 + Mul(seasonal, delta) == 0.1 * base + Mul(w, delta);
  }

  /** For 0 <= base <= 1e9 every prediction is base plus a fixed fraction of the first prediction's
      distance from it, and no clamp acts after the first step. */
  lemma {:induction false} ExactSolution(first: real, base: real, P: nat, s: int, n: nat)
    requires 0.0 <= base <= 1000000000.0 && n >= 1
    ensures var preds := Path(first, base, P, s, n); OnLine(preds, base, P, s, preds[0] - base)
    ensures n > 1 ==> Path(first, base, P, s, n)[n - 1] == Unclamped(Path(first, base, P, s, n - 1), base, P, s)
  {
    hide Mul, Clamped, Unclamped, Damping;
    assert Weight(P, s, 0) == 1.0;
    if n == 1 {
      TimesOne(Path(first, base, P, s, 1)[0] - base);
    } else {
      ExactSolution(first, base, P, s, n - 1);
      var before := Path(first, base, P, s, n - 1);
      var delta := before[0] - base;
      StepOnLine(before, base, P, s, delta);
      PathPrefix(first, base, P, s, 1, n - 1);
      assert before[0] == before[..1][0] == Clamped(first, base);
      FirstInside(first, base);
      WeightBounds(P, s, n - 1);
      ClampIdle(base, before[0], Weight(P, s, n - 1));
    }
  }

  /** The solution as a recurrence in whole numbers: each distance from the base is a fixed fraction of the
      previous one, plus a fixed fraction of the one a season back where the seasonal term is on. */
  lemma Recurrence(first: real, base: real, P: nat, s: int, n: nat, t: nat)
    requires 0.0 <= base <= 1000000000.0 && 1 <= t < n
    ensures var preds, m := Path(first, base, P, s, n), 10.0 + (t as real);
            && (P == 0 || s <= 0 || t < s ==> Mul(m, preds[t] - base) == preds[t - 1] - base)
            && (P > 0 && 1 <= s <= t ==>
                 Mul(m, Mul(m, preds[t] - base)) == Mul(m, preds[t - 1] - base) + 30.0 * (preds[t - s] - base))
  {
    hide *;
    PathAt(first, base, P, s, n, t);
    UnclampedStep(Path(first, base, P, s, n)[..t], base, P, s, Path(first, base, P, s, n)[t]);
  }

  /** After the first step each prediction is the unclamped one. */
  lemma PathAt(first: real, base: real, P: nat, s: int, n: nat, t: nat)
    requires 0.0 <= base <= 1000000000.0 && 1 <= t < n
    ensures var preds := Path(first, base, P, s, n); preds[t] == Unclamped(preds[..t], base, P, s)
  {
    hide Path, Unclamped;
    var preds := Path(first, base, P, s, n);
    PathPrefix(first, base, P, s, t, n);
    PathPrefix(first, base, P, s, t + 1, n);
    ExactSolution(first, base, P, s, t + 1);
    assert preds[t] == preds[..t + 1][t];
  }

  lemma UnclampedStep(before: seq<real>, base: real, P: nat, s: int, y: real)
    requires |before| >= 1 && y == Unclamped(before, base, P, s)
    ensures var t := |before|;
            var m := 10.0 + (t as real);
            && (P == 0 || s <= 0 || t < s ==> Mul(m, y - base) == before[t - 1] - base)
            && (P > 0 && 1 <= s <= t ==>
                 Mul(m, Mul(m, y - base)) == Mul(m, before[t - 1] - base) + 30.0 * (before[t - s] - base))
  {
    var t := |before|;
    DampingInverse(t);
    hide Mul, Damping, Damped, SeasonalPull;
    if Seasonal(P, s, t) {
      SeasonalStep(t, Damping(t), base, before[t - 1], before[t - s], y);
    } else {
      PlainStep(t, Damping(t), base, before[t - 1], y);
    }
  }

  lemma DampingInverse(t: nat)
    ensures Mul(10.0 + (t as real), Damping(t)) == 10.0
  {
    var x := 1.0 + (t as real) * 0.1;
    assert x * (1.0 / x) == 1.0;
  }

  lemma PlainStep(t: nat, d: real, base: real, x: real, y: real)
    requires Mul(10.0 + (t as real), d) == 10.0 && y == Damped(base * 0.9 + x * 0.1, base, d)
    ensures Mul(10.0 + (t as real), y - base) == x - base
  {
    assert y - base == Mul(d, 0.1 * (x - base));
    Scaled(10.0 + (t as real), d, 0.1 * (x - base));
  }

  lemma SeasonalStep(t: nat, d: real, base: real, x: real, z: real, y: real)
    requires Mul(10.0 + (t as real), d) == 10.0
    requires y == Damped(base * 0.9 + x * 0.1 + SeasonalPull(z, base, d), base, d)
    ensures var m := 10.0 + (t as real); Mul(m, Mul(m, y - base)) == Mul(m, x - base) + 30.0 * (z - base)
  {
    var m := 10.0 + (t as real);
    var pull := Mul(d, 0.3 * (z - base));
    assert y - base == Mul(d, 0.1 * (x - base) + pull);
    Scaled(m, d, 0.1 * (x - base) + pull);
    Scaled(m, d, 0.3 * (z - base));
    assert Mul(m, (x - base) + 10.0 * pull) == Mul(m, x - base) + 10.0 * Mul(m, pull);
  }

  /** With m*d = 10, scaling by d and then by m scales by ten. */
  lemma Scaled(m: real, d: real, v: real)
    requires Mul(m, d) == 10.0
    ensures Mul(m, Mul(d, v)) == 10.0 * v
  {
    Associate(m, d, v);
  }

  /** A first value inside the clamps is the first prediction. */
  lemma FirstKept(first: real, base: real, P: nat, s: int, n: nat)
    requires n >= 1 && 0.0 <= first <= 1000000000.0 && first <= base * 2.0 + 100.0
    ensures Path(first, base, P, s, n)[0] == first
  {
    PathPrefix(first, base, P, s, 1, n);
    assert Path(first, base, P, s, n)[0] == Path(first, base, P, s, n)[..1][0];
  }

  // ----- and for which bases that is so

  lemma SecondStep(first: real, base: real, P: nat, s: int)
    ensures var p0 := Clamped(first, base);
            && Path(first, base, P, s, 2) == [p0, Clamped(base + Mul(Weight(P, s, 1), p0 - base), base)]
            && 0.0 < Weight(P, s, 1) <= 0.4
  {
    hide Mul, Clamped, Unclamped, Damping;
    var p0 := Clamped(first, base);
    assert Weight(P, s, 0) == 1.0;
    TimesOne(p0 - base);
    assert Path(first, base, P, s, 1) == [p0];
    StepOnLine([p0], base, P, s, p0 - base);
    StepRange(Damping(1), 1.0, 1.0, 1.0);
  }

  lemma StrictFraction(w: real, delta: real)
    requires 0.0 < w <= 0.4
    ensures delta > 0.0 ==> 0.0 < Mul(w, delta) < delta
    ensures delta < 0.0 ==> delta < Mul(w, delta) < 0.0
  {
    if delta > 0.0 {
      Product0(w, delta);
      Product0(1.0 - w, delta);
    } else if delta < 0.0 {
      Product0(w, -delta);
      Product0(1.0 - w, -delta);
    }
  }

  /** Below zero (except at -100) or above 1e9 some first step leaves the line at once. */
  lemma OffLine(base: real, P: nat, s: int) returns (first: real)
    requires base < 0.0 || base > CEILING
    requires base != -100.0
    ensures var preds := Path(first, base, P, s, 2); !OnLine(preds, base, P, s, preds[0] - base)
  {
    first := if base < 0.0 then 0.0 else base;
    var p0, w := Clamped(first, base), Weight(P, s, 1);
    SecondStep(first, base, P, s);
    StrictFraction(w, p0 - base);
    hide Mul, Weight, Path;
    var preds := Path(first, base, P, s, 2);
    assert preds[1] == p0;
    assert preds[1] != base + Mul(w, p0 - base);
  }

  /** At -100 the upper cap equals the base and pins every prediction to it. */
  lemma {:induction false} PinnedPath(first: real, P: nat, s: int, n: nat)
    requires n >= 1
    ensures forall i | 0 <= i < n :: Path(first, -100.0, P, s, n)[i] == -100.0
  {
    if n > 1 {
      PinnedPath(first, P, s, n - 1);
    }
  }

  /** The forecast follows its weights for every first step and horizon exactly when
      0 <= base <= 1e9 (or the base is -100, where all predictions equal it). */
  lemma ExactSolutionIff(base: real, P: nat, s: int)
    ensures (forall first: real, n: nat | n >= 1 ::
              OnLine(Path(first, base, P, s, n), base, P, s, Path(first, base, P, s, n)[0] - base))
            <==> 0.0 <= base <= 1000000000.0 || base == -100.0
  {
    hide OnLine, Path, Weight;
    if 0.0 <= base <= CEILING {
      forall first: real, n: nat | n >= 1
        ensures OnLine(Path(first, base, P, s, n), base, P, s, Path(first, base, P, s, n)[0] - base)
      {
        ExactSolution(first, base, P, s, n);
      }
    } else if base == -100.0 {
      forall first: real, n: nat | n >= 1
        ensures OnLine(Path(first, base, P, s, n), base, P, s, Path(first, base, P, s, n)[0] - base)
      {
        PinnedPath(first, P, s, n);
        PinnedOnLine(Path(first, base, P, s, n), base, P, s);
      }
    } else {
      var first := OffLine(base, P, s);
    }
  }

  lemma PinnedOnLine(preds: seq<real>, base: real, P: nat, s: int)
    requires |preds| >= 1 && forall i | 0 <= i < |preds| :: preds[i] == base
    ensures OnLine(preds, base, P, s, preds[0] - base)
  {
    hide Weight;
    forall i | 0 <= i < |preds| ensures preds[i] == base + Mul(Weight(P, s, i), preds[0] - base) {
      assert preds[0] - base == 0.0;
      TimesZero(Weight(P, s, i));
    }
  }

  /** Every prediction lies between base and the first prediction, and decays towards base: by 0.4
      per season with the seasonal term on, by 0.1 per step without it. */
  lemma Stability(first: real, base: real, P: nat, s: int, n: nat, t: nat)
    requires 0.0 <= base <= 1000000000.0 && t < n
    ensures var preds := Path(first, base, P, s, n);
            && Between(base, preds[t], preds[0])
            && (P > 0 && s >= 1 ==> Abs(preds[t] - base) <= Mul(Pow(0.4, Seasons(t, s)), Abs(preds[0] - base)))
            && (P == 0 || s <= 0 ==> Abs(preds[t] - base) <= Mul(Pow(0.1, t), Abs(preds[0] - base)))
  {
    hide Mul, Path, Pow, Weight, Seasons;
    var preds := Path(first, base, P, s, n);
    ExactSolution(first, base, P, s, n);
    WeightBounds(P, s, t);
    var w, delta := Weight(P, s, t), preds[0] - base;
    assert preds[t] == base + Mul(w, delta);
    Fraction(w, 1.0, delta);
    if P > 0 && s >= 1 {
      SeasonalDecay(P, s, t);
      PowPositive(0.4, Seasons(t, s));
      Fraction(w, Pow(0.4, Seasons(t, s)), delta);
    } else {
      PlainDecay(P, s, t);
      PowPositive(0.1, t);
      Fraction(w, Pow(0.1, t), delta);
    }
  }

  /** The documented non-negativity holds exactly for base >= -50: below that the upper cap, applied
      after the zero clamp, is itself negative. */
  lemma NonNegativeIff(first: real, base: real, P: nat, s: int, n: nat, t: nat)
    requires t < n
    ensures Path(first, base, P, s, n)[t] >= 0.0 <==> base >= -50.0
  {
    PathPrefix(first, base, P, s, t + 1, n);
    assert Path(first, base, P, s, n)[t] == Path(first, base, P, s, n)[..t + 1][t];
  }
}
