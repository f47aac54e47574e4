/** The squared prediction error of an autoregressive filter, and its link to the Yule-Walker
    equations: orthogonality, the energy identity and optimality. The lagged copies of the series are
    any family of columns whose inner products form the Toeplitz matrix c0 * r[|a - b|]. */
module PredictionError {
  import opened RealSums
  import opened Levinson

  /** Lags(a, t): the a-th lagged copy of a series at time t. */
  type Lags = (int, int) -> real

  function Column(L: Lags, a: int): int -> real {
    t => L(a, t)
  }

  function Product(f: int -> real, g: int -> real): int -> real {
    t => Mul(f(t), g(t))
  }

  function Inner(n: nat, f: int -> real, g: int -> real): real {
    Sum(0, n, Product(f, g))
  }

  function Tap(A: seq<real>, L: Lags, t: int): int -> real {
    a => Mul(At(A, a), L(a, t))
  }

  /** The filter A applied at time t: A[0]*L(0,t) + ... + A[p]*L(p,t). */
  function Filtered(A: seq<real>, L: Lags): int -> real {
    t => Sum(0, |A|, Tap(A, L, t))
  }

  /** The sum of squared prediction errors of the filter over n time steps. */
  function Energy(n: nat, A: seq<real>, L: Lags): real {
    Inner(n, Filtered(A, L), Filtered(A, L))
  }

  /** The prediction-error filter of the coefficients phi[1..]: current value minus its prediction. */
  function ErrorFilter(phi: seq<real>): (A: seq<real>)
    requires |phi| >= 1
    ensures |A| == |phi| && A[0] == 1.0
  {
    seq(|phi|, a requires 0 <= a < |phi| => if a == 0 then 1.0 else -phi[a])
  }

  /** The columns 0..p have the Gram matrix c0 * r[|a - b|]. */
  ghost predicate Toeplitz(n: nat, L: Lags, c0: real, r: seq<real>, p: nat) {
    forall a, b | 0 <= a <= p && 0 <= b <= p ::
      Inner(n, Column(L, b), Column(L, a)) == Mul(c0, At(r, AbsInt(b - a)))
  }

  lemma InnerExt(n: nat, f: int -> real, f': int -> real, g: int -> real, g': int -> real)
    requires forall t :: f(t) == f'(t)
    requires forall t :: g(t) == g'(t)
    ensures Inner(n, f, g) == Inner(n, f', g')
  {
    hide Mul, Sum;
    SumExt(0, n, Product(f, g), Product(f', g'));
  }

  lemma InnerSymmetric(n: nat, f: int -> real, g: int -> real)
    ensures Inner(n, f, g) == Inner(n, g, f)
  {
    forall t ensures Product(f, g)(t) == Product(g, f)(t) {
      Commute(f(t), g(t));
    }
    SumExt(0, n, Product(f, g), Product(g, f));
  }

  lemma EnergyNonNegative(n: nat, f: int -> real)
    ensures Inner(n, f, f) >= 0.0
    ensures forall t | 0 <= t < n :: f(t) != 0.0 ==> Inner(n, f, f) > 0.0
  {
    forall t ensures Product(f, f)(t) >= 0.0 {
      Square(f(t));
    }
    SumNonNegative(0, n, Product(f, f));
    forall t | 0 <= t < n && f(t) != 0.0 ensures Inner(n, f, f) > 0.0 {
      SumDominatesTerm(0, n, Product(f, f), t);
      Square(f(t));
    }
  }

  // ----- inner products distribute over filter taps

  function Cell(f: int -> real, A: seq<real>, L: Lags): (int, int) -> real {
    (a, t) => Mul(At(A, a), Mul(f(t), L(a, t)))
  }

  function Weighted(n: nat, f: int -> real, A: seq<real>, L: Lags): int -> real {
    a => Mul(At(A, a), Inner(n, f, Column(L, a)))
  }

  lemma CellRow(n: nat, f: int -> real, A: seq<real>, L: Lags, a: int)
    ensures Weighted(n, f, A, L)(a) == Sum(0, n, t => Cell(f, A, L)(a, t))
  {
    hide Mul, Sum;
    var cells := t => Cell(f, A, L)(a, t);
    forall t | 0 <= t < n ensures cells(t) == Mul(At(A, a), Product(f, Column(L, a))(t)) {
      assert Cell(f, A, L)(a, t) == Mul(At(A, a), Mul(f(t), L(a, t)));
    }
    SumScale(0, n, At(A, a), Product(f, Column(L, a)), cells);
    SumExt(0, n, cells, t => Cell(f, A, L)(a, t));
  }

  lemma CellColumn(f: int -> real, A: seq<real>, L: Lags, t: int)
    ensures Product(f, Filtered(A, L))(t) == Sum(0, |A|, a => Cell(f, A, L)(a, t))
  {
    hide Mul, Sum;
    var cells := a => Cell(f, A, L)(a, t);
    forall a | 0 <= a < |A| ensures cells(a) == Mul(f(t), Tap(A, L, t)(a)) {
      assert Cell(f, A, L)(a, t) == Mul(At(A, a), Mul(f(t), L(a, t)));
      Swap3(At(A, a), f(t), L(a, t));
    }
    SumScale(0, |A|, f(t), Tap(A, L, t), cells);
    SumExt(0, |A|, cells, a => Cell(f, A, L)(a, t));
  }

  lemma InnerFiltered(n: nat, f: int -> real, A: seq<real>, L: Lags)
    ensures Inner(n, f, Filtered(A, L)) == Sum(0, |A|, Weighted(n, f, A, L))
  {
    forall a { CellRow(n, f, A, L, a); }
    forall t { CellColumn(f, A, L, t); }
    SumSwap(0, |A|, 0, n, Cell(f, A, L), Weighted(n, f, A, L), Product(f, Filtered(A, L)));
  }

  // ----- the Yule-Walker equations say the error is orthogonal to the lags it was predicted from

  lemma ErrorTap(n: nat, L: Lags, c0: real, r: seq<real>, phi: seq<real>, p: nat, a: nat, b: nat)
    requires |phi| == p + 1 && b <= p && a <= p && Toeplitz(n, L, c0, r, p)
    ensures Weighted(n, Column(L, b), ErrorFilter(phi), L)(a)
         == if a == 0 then Mul(c0, At(r, b)) else Mul(-c0, Term(phi, r, b)(a))
  {
    var A, x := ErrorFilter(phi), At(r, AbsInt(b - a));
    assert Weighted(n, Column(L, b), A, L)(a) == Mul(At(A, a), Mul(c0, x)) by {
      hide Mul, Sum, At, ErrorFilter, Inner;
    }
    if a > 0 {
      assert At(A, a) == -At(phi, a);
      assert Term(phi, r, b)(a) == Mul(At(phi, a), x) by { hide Mul, At; }
      hide At, ErrorFilter, Sum, Weighted, Term;
      NegateSwap(At(phi, a), c0, x);
    }
  }

  lemma NegateSwap(x: real, c: real, r: real)
    ensures Mul(-x, Mul(c, r)) == Mul(-c, Mul(x, r))
  {
  }

  /** The error's inner product with the b-th lag is c0 times the slack of the b-th equation. */
  lemma ErrorAgainstLag(n: nat, L: Lags, c0: real, r: seq<real>, phi: seq<real>, p: nat, b: nat)
    requires |phi| == p + 1 && b <= p && Toeplitz(n, L, c0, r, p)
    ensures Inner(n, Column(L, b), Filtered(ErrorFilter(phi), L)) == Mul(c0, At(r, b)) - Mul(c0, Lhs(phi, r, p, b))
  {
    hide Mul, Sum, At, Term, Weighted, Inner, ErrorFilter, Toeplitz;
    var w := Weighted(n, Column(L, b), ErrorFilter(phi), L);
    InnerFiltered(n, Column(L, b), ErrorFilter(phi), L);
    forall a | 0 <= a < p + 1 ensures w(a) == if a == 0 then Mul(c0, At(r, b)) else Mul(-c0, Term(phi, r, b)(a)) {
      ErrorTap(n, L, c0, r, phi, p, a, b);
    }
    SumFirst(0, p + 1, w);
    SumScale(1, p + 1, -c0, Term(phi, r, b), w);
    Negate(c0, Lhs(phi, r, p, b));
  }

  /** Against any filter B of the same order, the error of the Yule-Walker solution has inner product
      B[0] * c0 * v. With B the solution itself this is the energy identity; with B[0] == 1 it is
      what makes the solution the best predictor. */
  lemma ErrorAgainstFilter(n: nat, L: Lags, c0: real, r: seq<real>, phi: seq<real>, v: real, p: nat, B: seq<real>)
    requires Solves(phi, v, r, p) && |B| == p + 1 && Toeplitz(n, L, c0, r, p)
    ensures Inner(n, Filtered(ErrorFilter(phi), L), Filtered(B, L)) == Mul(B[0], Mul(c0, v))
  {
    hide Mul, Sum, At, Inner, Column, Filtered, ErrorFilter, Toeplitz, Lhs;
    var e := Filtered(ErrorFilter(phi), L);
    var w := Weighted(n, e, B, L);
    InnerFiltered(n, e, B, L);
    forall b | 0 <= b <= p ensures w(b) == if b == 0 then Mul(At(B, 0), Mul(c0, v)) else 0.0 {
      ErrorAgainstLag(n, L, c0, r, phi, p, b);
      InnerSymmetric(n, e, Column(L, b));
      Distribute(c0, v, Lhs(phi, r, p, 0));
      TimesZero(At(B, b));
    }
    SumFirst(0, p + 1, w);
    SumZero(1, p + 1, w);
    AtIndex(B, 0);
  }

  lemma AtIndex(s: seq<real>, i: nat)
    requires i < |s|
    ensures At(s, i) == s[i]
  {
  }

  // ----- optimality

  function Gap(B: seq<real>, A: seq<real>): (D: seq<real>)
    requires |A| == |B|
    ensures |D| == |A|
  {
    seq(|A|, a requires 0 <= a < |A| => B[a] - A[a])
  }

  lemma FilteredGap(A: seq<real>, B: seq<real>, L: Lags, t: int)
    requires |A| == |B|
    ensures Filtered(B, L)(t) == Filtered(Gap(B, A), L)(t) + Filtered(A, L)(t)
  {
    var D := Gap(B, A);
    forall a | 0 <= a < |A| ensures Tap(B, L, t)(a) == Tap(D, L, t)(a) + Tap(A, L, t)(a) {
      assert At(B, a) == At(D, a) + At(A, a);
      Distribute(L(a, t), At(D, a), At(A, a));
    }
    SumAdd(0, |A|, Tap(D, L, t), Tap(A, L, t), Tap(B, L, t));
  }

  function Combined(f: int -> real, g: int -> real): int -> real {
    t => f(t) + g(t)
  }

  /** The energy of g = h + e, expanded. */
  lemma Polarise(n: nat, e: int -> real, g: int -> real, h: int -> real)
    requires forall t | 0 <= t < n :: g(t) == h(t) + e(t)
    ensures Inner(n, g, g) + Inner(n, e, e) == Inner(n, h, h) + Inner(n, e, g) + Inner(n, e, g)
  {
    var left := Combined(Product(g, g), Product(e, e));
    var twice := Combined(Product(e, g), Product(e, g));
    forall t | 0 <= t < n ensures left(t) == Product(h, h)(t) + twice(t) {
      ExpandSquare(h(t), e(t), g(t));
    }
    SumAdd(0, n, Product(h, h), twice, left);
    SumAdd(0, n, Product(e, g), Product(e, g), twice);
    SumAdd(0, n, Product(g, g), Product(e, e), left);
  }

  lemma ExpandSquare(a: real, b: real, c: real)
    requires c == a + b
    ensures Mul(c, c) + Mul(b, b) == Mul(a, a) + Mul(b, c) + Mul(b, c)
  {
  }

  /** Among all predictors of the same order, the Yule-Walker solution has the least squared error,
      which is c0 * v; the excess of any other is the energy of the difference of the two. */
  lemma Optimal(n: nat, L: Lags, c0: real, r: seq<real>, phi: seq<real>, v: real, p: nat, psi: seq<real>)
    requires Solves(phi, v, r, p) && Toeplitz(n, L, c0, r, p) && |psi| == p + 1
    ensures Energy(n, ErrorFilter(phi), L) == Mul(c0, v)
    ensures Energy(n, ErrorFilter(psi), L)
         == Mul(c0, v) + Energy(n, Gap(ErrorFilter(psi), ErrorFilter(phi)), L)
  {
    var A, B := ErrorFilter(phi), ErrorFilter(psi);
    ErrorAgainstFilter(n, L, c0, r, phi, v, p, A);
    ErrorAgainstFilter(n, L, c0, r, phi, v, p, B);
    forall t { FilteredGap(A, B, L, t); }
    Polarise(n, Filtered(A, L), Filtered(B, L), Filtered(Gap(B, A), L));
  }
}
