/** Levinson-Durbin applied to sample autocorrelations: it never fails, its coefficients are the
    unique least-squares predictor, and autocorrelations are at most one in size. */
module AutoRegression {
  import opened RealSums
  import opened TimeSeries
  import opened Levinson
  import opened PredictionError

  /** The delay of the a-th copy at stride s. */
  function Lag(a: nat, s: nat): nat {
    a * s
  }

  /** Copies of the zero-padded series delayed by 0, s, 2s, ... */
  function Delays(y: seq<real>, s: nat): Lags {
    (a, t) => if a < 0 then 0.0 else At(y, t - Lag(a, s))
  }

  function Delayed(y: seq<real>, lag: int): int -> real {
    t => At(y, t - lag)
  }

  /** Every time at which a filter of order p can see the series. */
  function Span(y: seq<real>, s: nat, p: nat): nat {
    |y| + Lag(p, s)
  }

  /** The autocorrelations at lags 0, s, 2s, ..., p*s of a series with deviations y. */
  function Acf(y: seq<real>, s: nat, p: nat): (r: seq<real>)
    requires Cov(y, 0) != 0.0
    ensures |r| == p + 1
    ensures forall k | 0 <= k <= p :: r[k] == Cov(y, Lag(k, s)) / Cov(y, 0)
  {
    seq(p + 1, k requires 0 <= k <= p => Cov(y, Lag(k, s)) / Cov(y, 0))
  }

  // ----- inner products of delayed copies are autocovariances

  lemma PaddedProduct(y: seq<real>, k: nat, i: int)
    requires i < 0 || i >= |y| - k
    ensures LagTerm(y, k)(i) == 0.0
  {
  }

  lemma DelayedShift(y: seq<real>, la: nat, lb: nat, n: nat)
    requires lb <= la
    ensures Inner(n, Delayed(y, la), Delayed(y, lb)) == Sum(0 - la, n - la, LagTerm(y, la - lb))
  {
    hide Mul, Sum, At;
    var f, g := LagTerm(y, la - lb), Product(Delayed(y, la), Delayed(y, lb));
    forall t | 0 <= t < n ensures g(t) == f(t + (0 - la)) {
    }
    SumShift(0, n, 0 - la, f, g);
  }

  lemma EmptySum(lo: int, hi: int, f: int -> real)
    ensures hi <= lo ==> Sum(lo, hi, f) == Sum(lo, lo, f) == 0.0
  {
  }

  lemma PaddedCov(y: seq<real>, k: nat, lo: int, hi: int)
    requires lo <= 0 && |y| <= hi
    ensures Sum(lo, hi, LagTerm(y, k)) == Cov(y, k)
  {
    hide Mul, Sum;
    var f := LagTerm(y, k);
    forall i | i < 0 || i >= |y| - k ensures f(i) == 0.0 {
      PaddedProduct(y, k, i);
    }
    var top := if k <= |y| then |y| - k else 0;
    SumSplit(lo, 0, hi, f);
    SumSplit(0, top, hi, f);
    SumZero(lo, 0, f);
    SumZero(top, hi, f);
    EmptySum(0, |y| - k, f);
  }

  lemma DelayedOrdered(y: seq<real>, la: nat, lb: nat, n: nat)
    requires lb <= la && |y| + la <= n
    ensures Inner(n, Delayed(y, la), Delayed(y, lb)) == Cov(y, la - lb)
  {
    hide *;
    DelayedShift(y, la, lb, n);
    PaddedCov(y, la - lb, 0 - la, n - la);
  }

  lemma DelayedInner(y: seq<real>, la: nat, lb: nat, n: nat)
    requires |y| + la <= n && |y| + lb <= n
    ensures Inner(n, Delayed(y, la), Delayed(y, lb)) == Cov(y, AbsInt(la - lb))
  {
    if lb <= la {
      DelayedOrdered(y, la, lb, n);
    } else {
      DelayedOrdered(y, lb, la, n);
      InnerSymmetric(n, Delayed(y, la), Delayed(y, lb));
    }
  }

  lemma LagOrder(a: nat, p: nat, s: nat)
    requires a <= p
    ensures Lag(a, s) <= Lag(p, s)
  {
  }

  lemma LagDistance(a: nat, b: nat, s: nat)
    ensures AbsInt(Lag(b, s) - Lag(a, s)) == Lag(AbsInt(b - a), s)
  {
    assert b * s - a * s == (b - a) * s;
  }

  lemma DelaysAt(y: seq<real>, s: nat, a: nat, lag: nat)
    requires lag == Lag(a, s)
    ensures forall t :: Column(Delays(y, s), a)(t) == Delayed(y, lag)(t)
  {
    hide At;
    forall t ensures Column(Delays(y, s), a)(t) == Delayed(y, lag)(t) {
      assert Delays(y, s)(a, t) == At(y, t - lag);
    }
  }

  lemma ColumnInner(y: seq<real>, s: nat, n: nat, a: nat, la: nat, b: nat, lb: nat)
    requires la == Lag(a, s) && lb == Lag(b, s) && |y| + la <= n && |y| + lb <= n
    ensures Inner(n, Column(Delays(y, s), b), Column(Delays(y, s), a)) == Cov(y, AbsInt(lb - la))
  {
    hide *;
    DelayedInner(y, lb, la, n);
    DelaysAt(y, s, a, la);
    DelaysAt(y, s, b, lb);
    InnerExt(n, Column(Delays(y, s), b), Delayed(y, lb), Column(Delays(y, s), a), Delayed(y, la));
  }

  lemma GramEntry(y: seq<real>, s: nat, p: nat, a: nat, b: nat)
    requires Cov(y, 0) != 0.0 && a <= p && b <= p
    ensures Inner(Span(y, s, p), Column(Delays(y, s), b), Column(Delays(y, s), a))
         == Mul(Cov(y, 0), At(Acf(y, s, p), AbsInt(b - a)))
  {
    hide Lag, Mul, Sum, Cov, Inner, Column, Delays, At, Acf;
    LagOrder(a, p, s);
    LagOrder(b, p, s);
    var n, la, lb, k := Span(y, s, p), Lag(a, s), Lag(b, s), AbsInt(b - a);
    LagDistance(a, b, s);
    ColumnInner(y, s, n, a, la, b, lb);
    AcfTimesC0(y, s, p, k);
  }

  lemma DelaysToeplitz(y: seq<real>, s: nat, p: nat)
    requires Cov(y, 0) != 0.0
    ensures Toeplitz(Span(y, s, p), Delays(y, s), Cov(y, 0), Acf(y, s, p), p)
  {
    hide Span, Delays, Cov, Acf, Inner, Column, Mul, AbsInt, At;
    forall a, b | 0 <= a <= p && 0 <= b <= p
      ensures Inner(Span(y, s, p), Column(Delays(y, s), b), Column(Delays(y, s), a))
           == Mul(Cov(y, 0), At(Acf(y, s, p), AbsInt(b - a)))
    {
      GramEntry(y, s, p, a, b);
    }
  }

  lemma AcfTimesC0(y: seq<real>, s: nat, p: nat, k: nat)
    requires Cov(y, 0) != 0.0 && k <= p
    ensures Mul(Cov(y, 0), At(Acf(y, s, p), k)) == Cov(y, Lag(k, s))
  {
    Cancel(Cov(y, 0), Cov(y, Lag(k, s)));
  }

  // ----- positivity

  ghost predicate LeadsAt(x: seq<real>, i: nat) {
    i < |x| && x[i] != 0.0 && forall j | 0 <= j < i :: x[j] == 0.0
  }

  lemma {:induction false} FirstNonZero(x: seq<real>, n: nat) returns (i: nat)
    requires n < |x| && x[n] != 0.0
    ensures LeadsAt(x, i)
    decreases n
  {
    if j :| 0 <= j < n && x[j] != 0.0 {
      i := FirstNonZero(x, j);
    } else {
      i := n;
    }
  }

  lemma LaterLag(a: nat, d: nat, s: nat)
    requires s >= 1 && d < a
    ensures Lag(d, s) < Lag(a, s)
  {
  }

  lemma QuietTap(y: seq<real>, s: nat, D: seq<real>, d0: nat, t0: nat, a: nat)
    requires s >= 1 && LeadsAt(D, d0) && LeadsAt(y, t0) && a < |D| && a != d0
    ensures Tap(D, Delays(y, s), t0 + Lag(d0, s))(a) == 0.0
  {
    var t := t0 + Lag(d0, s);
    var L := Delays(y, s);
    assert Tap(D, L, t)(a) == Mul(At(D, a), L(a, t));
    if a < d0 {
      assert At(D, a) == 0.0;
    } else {
      LaterLag(a, d0, s);
      assert L(a, t) == At(y, t - Lag(a, s)) == 0.0;
    }
  }

  /** The product of the two leading entries survives at the sum of their positions. */
  lemma LeadingTap(y: seq<real>, s: nat, D: seq<real>, d0: nat, t0: nat)
    requires s >= 1 && LeadsAt(D, d0) && LeadsAt(y, t0)
    ensures Filtered(D, Delays(y, s))(t0 + Lag(d0, s)) == Mul(At(D, d0), At(y, t0)) != 0.0
  {
    var t := t0 + Lag(d0, s);
    var L := Delays(y, s);
    var f := Tap(D, L, t);
    NonZeroProduct(At(D, d0), At(y, t0));
    hide Mul, Sum;
    assert L(d0, t) == At(y, t0);
    assert f(d0) == Mul(At(D, d0), At(y, t0));
    SumSplit(0, d0, |D|, f);
    SumFirst(d0, |D|, f);
    forall a | 0 <= a < |D| && a != d0 ensures f(a) == 0.0 {
      QuietTap(y, s, D, d0, t0, a);
    }
    SumZero(0, d0, f);
    SumZero(d0 + 1, |D|, f);
  }

  lemma NonZeroProduct(a: real, b: real)
    requires a != 0.0 && b != 0.0
    ensures Mul(a, b) != 0.0
  {
    assert a * b * (1.0 / b) == a;
  }

  lemma EnergyPositive(y: seq<real>, s: nat, D: seq<real>, d: nat)
    requires s >= 1 && Cov(y, 0) != 0.0 && d < |D| && D[d] != 0.0
    ensures Energy(Span(y, s, |D| - 1), D, Delays(y, s)) > 0.0
  {
    SomeNonZero(y);
    var t :| 0 <= t < |y| && y[t] != 0.0;
    var t0 := FirstNonZero(y, t);
    var d0 := FirstNonZero(D, d);
    LeadingTap(y, s, D, d0, t0);
    LagOrder(d0, |D| - 1, s);
    EnergyNonNegative(Span(y, s, |D| - 1), Filtered(D, Delays(y, s)));
  }

  lemma SomeNonZero(y: seq<real>)
    requires Cov(y, 0) != 0.0
    ensures exists t | 0 <= t < |y| :: y[t] != 0.0
  {
    if forall t | 0 <= t < |y| :: y[t] == 0.0 {
      SumZero(0, |y|, LagTerm(y, 0));
    }
  }

  /** The variance left by a Yule-Walker solution is positive on every series that is not all zero. */
  lemma VariancePositive(y: seq<real>, s: nat, phi: seq<real>, v: real, p: nat)
    requires s >= 1 && Cov(y, 0) != 0.0 && Solves(phi, v, Acf(y, s, p), p)
    ensures v > 0.0
  {
    hide Mul, Sum, Cov, Acf, Span, Delays, Energy, Toeplitz, Lag, Lhs;
    DelaysToeplitz(y, s, p);
    Optimal(Span(y, s, p), Delays(y, s), Cov(y, 0), Acf(y, s, p), phi, v, p, phi);
    EnergyPositive(y, s, ErrorFilter(phi), 0);
    CovZeroNonNegative(y);
    PositiveFactor(Cov(y, 0), v);
  }

  lemma PositiveFactor(a: real, b: real)
    requires a > 0.0 && Mul(a, b) > 0.0
    ensures b > 0.0
  {
  }

  /** An order k solution only reads the first k+1 autocorrelations. */
  lemma SolvesPrefix(y: seq<real>, s: nat, p: nat, k: nat, phi: seq<real>, v: real)
    requires Cov(y, 0) != 0.0 && k <= p && Solves(phi, v, Acf(y, s, p), k)
    ensures Solves(phi, v, Acf(y, s, k), k)
  {
    hide Mul, Sum;
    var r, r' := Acf(y, s, p), Acf(y, s, k);
    forall j | 0 <= j <= k ensures At(r', j) == At(r, j) {
      assert r'[j] == r[j];
    }
    forall i | 0 <= i <= k ensures Lhs(phi, r', k, i) == Lhs(phi, r, k, i) {
      forall j | 1 <= j < k + 1 ensures Term(phi, r', i)(j) == Term(phi, r, i)(j) {
        }
      SumExt(1, k + 1, Term(phi, r', i), Term(phi, r, i));
    }
  }

  /** Levinson-Durbin never fails on the autocorrelations of a series that is not constant: the
      variance stays positive at every stage, for every order and every stride. */
  lemma {:induction false} NeverFails(y: seq<real>, s: nat, p: nat, k: nat)
    requires s >= 1 && Cov(y, 0) != 0.0 && k <= p
    ensures Run(Acf(y, s, p), k).Fitted? && Run(Acf(y, s, p), k).v > 0.0
    decreases k
  {
    hide Mul, Sum, Acf, Cov, Shrink, Kappa, NextRow, Solves;
    var r := Acf(y, s, p);
    if k == 0 {
      PositiveAcf0(y, s, p);
    } else {
      NeverFails(y, s, p, k - 1);
      var prev := Run(r, k - 1);
      RunSolves(r, k - 1);
      NextSolves(prev.phi, prev.v, r, k);
      var kappa := Kappa(prev.phi, prev.v, r, k);
      SolvesPrefix(y, s, p, k, NextRow(prev.phi, kappa, k), Shrink(prev.v, kappa));
      VariancePositive(y, s, NextRow(prev.phi, kappa, k), Shrink(prev.v, kappa), k);
      assert Run(r, k) == Step(prev.phi, prev.v, r, k);
    }
  }

  lemma PositiveAcf0(y: seq<real>, s: nat, p: nat)
    requires Cov(y, 0) != 0.0
    ensures At(Acf(y, s, p), 0) == 1.0
  {
    hide Mul, Sum, Cov;
    assert Lag(0, s) == 0;
    assert Acf(y, s, p)[0] == Cov(y, 0) / Cov(y, 0);
  }

  /** Every reflection coefficient of such a run is strictly inside (-1, 1). */
  lemma ReflectionInside(y: seq<real>, s: nat, p: nat, k: nat)
    requires s >= 1 && Cov(y, 0) != 0.0 && 1 <= k <= p
    ensures Run(Acf(y, s, p), k).Fitted? && -1.0 < Run(Acf(y, s, p), k).phi[k] < 1.0
  {
    var r := Acf(y, s, p);
    NeverFails(y, s, p, k - 1);
    NeverFails(y, s, p, k);
    var prev := Run(r, k - 1);
    assert Run(r, k) == Step(prev.phi, prev.v, r, k);
    StrictShrink(prev.v, Kappa(prev.phi, prev.v, r, k));
  }

  lemma StrictShrink(v: real, kappa: real)
    requires v > 0.0 && Shrink(v, kappa) > 0.0
    ensures -1.0 < kappa < 1.0
  {
    var q := Mul(kappa, kappa);
    assert q < 1.0;
  }

  /** The coefficients found are the unique minimiser of the zero-padded squared prediction error
      over all coefficient vectors of the same order and stride. */
  lemma UniqueLeastSquares(y: seq<real>, s: nat, p: nat, psi: seq<real>)
    requires s >= 1 && Cov(y, 0) != 0.0 && |psi| == p + 1 && psi[0] == 0.0
    ensures var fit := Run(Acf(y, s, p), p);
            && fit.Fitted?
            && Energy(Span(y, s, p), ErrorFilter(fit.phi), Delays(y, s)) == Mul(Cov(y, 0), fit.v)
            && (psi == fit.phi || Energy(Span(y, s, p), ErrorFilter(fit.phi), Delays(y, s))
                                < Energy(Span(y, s, p), ErrorFilter(psi), Delays(y, s)))
  {
    hide Mul, Sum;
    var n, L, r := Span(y, s, p), Delays(y, s), Acf(y, s, p);
    NeverFails(y, s, p, p);
    var fit := Run(r, p);
    RunSolves(r, p);
    DelaysToeplitz(y, s, p);
    Optimal(n, L, Cov(y, 0), r, fit.phi, fit.v, p, psi);
    if psi != fit.phi {
      var a :| 0 <= a <= p && psi[a] != fit.phi[a];
      var D := Gap(ErrorFilter(psi), ErrorFilter(fit.phi));
      assert D[a] != 0.0;
      EnergyPositive(y, s, D, a);
    }
  }

  // ----- autocorrelations are at most one in size

  lemma InnerBound(n: nat, f: int -> real, g: int -> real)
    ensures 2.0 * Inner(n, f, g) <= Inner(n, f, f) + Inner(n, g, g)
  {
    var minus := t => g(t) - f(t);
    hide *;
    Polarise(n, f, g, minus);
    EnergyNonNegative(n, minus);
  }

  lemma CauchySchwarz(y: seq<real>, k: nat)
    ensures -Cov(y, 0) <= Cov(y, k) <= Cov(y, 0)
  {
    hide *;
    var n := |y| + k;
    var f, g := Delayed(y, k), Delayed(y, 0);
    DelayedOrdered(y, k, k, n);
    DelayedOrdered(y, 0, 0, n);
    DelayedOrdered(y, k, 0, n);
    InnerBound(n, f, g);
    var f' := t => -f(t);
    InnerBound(n, f', g);
    NegatedInner(n, f, f', g);
  }

  lemma NegatedInner(n: nat, f: int -> real, f': int -> real, g: int -> real)
    requires forall t :: f'(t) == -f(t)
    ensures Inner(n, f', g) == -Inner(n, f, g)
    ensures Inner(n, f', f') == Inner(n, f, f)
  {
    hide Mul, Sum;
    forall t ensures Product(f', g)(t) == Mul(-1.0, Product(f, g)(t)) && Product(f', f')(t) == Product(f, f)(t) {
      Negate(f(t), g(t));
      Negate(f(t), f(t));
      MinusOne(Product(f, g)(t));
    }
    SumScale(0, n, -1.0, Product(f, g), Product(f', g));
    SumExt(0, n, Product(f', f'), Product(f, f));
    MinusOne(Inner(n, f, g));
  }

  /** |autocorr| <= 1 at every lag of every series, with the value 1 at lag 0 exactly when the series
      is not constant. */
  lemma AutocorrBound(s: seq<real>, lag: int)
    ensures -1.0 <= Autocorr(s, lag) <= 1.0
    ensures Autocorr(s, 0) == 1.0 <==> !Constant(s)
  {
    var y := Deviations(s);
    CovZeroNonNegative(y);
    DegenerateIffConstant(s);
    hide Cov, Deviations, Mean, Constant;
    if Cov(y, 0) != 0.0 {
      NotEmpty(s);
      SelfQuotient(Cov(y, 0));
      if 0 <= lag < |s| {
        CauchySchwarz(y, lag);
        RatioBound(Cov(y, lag), Cov(y, 0));
      }
    }
  }

  lemma NotEmpty(s: seq<real>)
    requires Cov(Deviations(s), 0) != 0.0
    ensures |s| > 0
  {
  }

  lemma RatioBound(a: real, c: real)
    requires c > 0.0 && -c <= a <= c
    ensures -1.0 <= a / c <= 1.0
  {
  }
}
