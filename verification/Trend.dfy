/** pkg/models/baseline.go: trend detection by linear regression. */
module Trend {
  import opened RealSums
  import opened TimeSeries
  import opened PredictionError

  // ----- sums over 0, 1, ..., n-1

  function X(): int -> real {
    i => i as real
  }

  function SumX(n: nat): real {
    Sum(0, n, X())
  }

  function SumXX(n: nat): real {
    Inner(n, X(), X())
  }

  function SumY(w: seq<real>): real {
    Sum(0, |w|, Entry(w))
  }

  function SumXY(w: seq<real>): real {
    Inner(|w|, X(), Entry(w))
  }

  function Denominator(n: nat): real {
    Mul(n as real, SumXX(n)) - Mul(SumX(n), SumX(n))
  }

  /** The regression slope per data point. */
  function Slope(w: seq<real>): real
    requires |w| >= 2
  {
    DenominatorPositive(|w|);
    (Mul(|w| as real, SumXY(w)) - Mul(SumX(|w|), SumY(w))) / Denominator(|w|)
  }

  function Intercept(w: seq<real>): real
    requires |w| >= 2
  {
    (SumY(w) - Mul(Slope(w), SumX(|w|))) / (|w| as real)
  }

  lemma {:induction false} ClosedForms(n: nat)
    ensures var m := n as real;
            && 2.0 * SumX(n) == Mul(m, m - 1.0)
            && 6.0 * SumXX(n) == Mul(Mul(m, m - 1.0), 2.0 * m - 1.0)
  {
    var m := n as real;
    if n == 0 {
      TimesZero(-1.0);
    } else {
      ClosedForms(n - 1);
      assert Product(X(), X())(n - 1) == Mul(m - 1.0, m - 1.0);
      hide Mul;
      NextSum(m);
      NextSquares(m);
    }
  }

  lemma NextSum(m: real)
    ensures Mul(m - 1.0, m - 2.0) + 2.0 * (m - 1.0) == Mul(m, m - 1.0)
  {
  }

  lemma NextSquares(m: real)
    ensures Mul(Mul(m - 1.0, m - 2.0), 2.0 * m - 3.0) + 6.0 * Mul(m - 1.0, m - 1.0)
         == Mul(Mul(m, m - 1.0), 2.0 * m - 1.0)
  {
  }

  /** The regression denominator never vanishes on two or more points, so its zero guard is dead code. */
  lemma DenominatorPositive(n: nat)
    requires n >= 2
    ensures Denominator(n) > 0.0
  {
    ClosedForms(n);
    hide SumX, SumXX, Mul;
    PositivePolynomial(n as real, SumX(n), SumXX(n));
  }

  /** With u = m(m-1) the determinant is u*m*(m+1)/12. */
  lemma PositivePolynomial(m: real, sx: real, sxx: real)
    requires m >= 2.0 && 2.0 * sx == Mul(m, m - 1.0) && 6.0 * sxx == Mul(Mul(m, m - 1.0), 2.0 * m - 1.0)
    ensures Mul(m, sxx) - Mul(sx, sx) > 0.0
  {
    var u := Mul(m, m - 1.0);
    var w := Mul(m, u);
    Product0(m, m - 1.0);
    Product0(m, u);
    Product0(w, m + 1.0);
    hide Mul;
    MomentProduct(m, u, sxx);
    HalfSquare(u, sx);
    SquareOfProduct(m, u);
    Collect(w, m);
  }

  lemma MomentProduct(m: real, u: real, sxx: real)
    requires 6.0 * sxx == Mul(u, 2.0 * m - 1.0)
    ensures 6.0 * Mul(m, sxx) == Mul(Mul(m, u), 2.0 * m - 1.0)
  {
    Associate(m, u, 2.0 * m - 1.0);
  }

  lemma HalfSquare(u: real, sx: real)
    requires 2.0 * sx == u
    ensures 4.0 * Mul(sx, sx) == Mul(u, u)
  {
  }

  lemma SquareOfProduct(m: real, u: real)
    requires u == Mul(m, m - 1.0)
    ensures Mul(u, u) == Mul(Mul(m, u), m - 1.0)
  {
    hide Mul;
    Associate(m, m - 1.0, u);
    Associate(m, u, m - 1.0);
    Commute(m - 1.0, u);
  }

  lemma Collect(w: real, m: real)
    ensures 2.0 * Mul(w, 2.0 * m - 1.0) - 3.0 * Mul(w, m - 1.0) == Mul(w, m + 1.0)
  {
  }

  // ----- the fitted line is the least-squares line

  /** The distance of the i-th point from the line a + b*x. */
  function Offset(w: seq<real>, a: real, b: real): int -> real {
    i => At(w, i) - (a + Mul(b, i as real))
  }

  function SquaredError(w: seq<real>, a: real, b: real): real {
    Inner(|w|, Offset(w, a, b), Offset(w, a, b))
  }

  function Line(a: real, b: real): int -> real {
    i => a + Mul(b, i as real)
  }

  lemma LineSum(n: nat, a: real, b: real)
    ensures Sum(0, n, Line(a, b)) == Mul(n as real, a) + Mul(b, SumX(n))
  {
    hide Mul;
    var c, l := (i: int) => a, i => Mul(b, X()(i));
    SumConstant(n, a, c);
    SumScale(0, n, b, X(), l);
    forall i | 0 <= i < n ensures Line(a, b)(i) == c(i) + l(i) {
    }
    SumAdd(0, n, c, l, Line(a, b));
  }

  /** Offsets against a line, summed: the left-hand sides of the two normal equations. */
  lemma OffsetSum(w: seq<real>, a: real, b: real)
    ensures Sum(0, |w|, Offset(w, a, b)) == SumY(w) - Mul(|w| as real, a) - Mul(b, SumX(|w|))
  {
    hide Mul, At;
    LineSum(|w|, a, b);
    SumAdd(0, |w|, Offset(w, a, b), Line(a, b), Entry(w));
  }

  lemma OffsetMoment(w: seq<real>, a: real, b: real)
    ensures Inner(|w|, X(), Offset(w, a, b)) == SumXY(w) - Mul(a, SumX(|w|)) - Mul(b, SumXX(|w|))
  {
    var n := |w|;
    var fa, fb := i => Mul(a, X()(i)), i => Mul(b, Product(X(), X())(i));
    SumScale(0, n, a, X(), fa);
    SumScale(0, n, b, Product(X(), X()), fb);
    var line := Combined(fa, fb);
    SumAdd(0, n, fa, fb, line);
    forall i | 0 <= i < n ensures Product(X(), Entry(w))(i) == Product(X(), Offset(w, a, b))(i) + line(i) {
      MomentTerm(i as real, At(w, i), a, b);
    }
    SumAdd(0, n, Product(X(), Offset(w, a, b)), line, Product(X(), Entry(w)));
  }

  lemma MomentTerm(x: real, y: real, a: real, b: real)
    ensures Mul(x, y) == Mul(x, y - (a + Mul(b, x))) + (Mul(a, x) + Mul(b, Mul(x, x)))
  {
  }

  lemma NormalEquations(w: seq<real>)
    requires |w| >= 2
    ensures Sum(0, |w|, Offset(w, Intercept(w), Slope(w))) == 0.0
    ensures Inner(|w|, X(), Offset(w, Intercept(w), Slope(w))) == 0.0
  {
    var n, a, b := |w|, Intercept(w), Slope(w);
    OffsetSum(w, a, b);
    OffsetMoment(w, a, b);
    DenominatorPositive(n);
    hide SumX, SumXX, SumY, SumXY, Sum, Inner, Offset;
    Solve(n as real, SumX(n), SumXX(n), SumY(w), SumXY(w), a, b);
  }

  lemma Solve(n: real, sx: real, sxx: real, sy: real, sxy: real, a: real, b: real)
    requires n > 0.0
    requires Mul(n, sxx) - Mul(sx, sx) > 0.0
    requires b == (Mul(n, sxy) - Mul(sx, sy)) / (Mul(n, sxx) - Mul(sx, sx))
    requires a == (sy - Mul(b, sx)) / n
    ensures sy - Mul(n, a) - Mul(b, sx) == 0.0
    ensures sxy - Mul(a, sx) - Mul(b, sxx) == 0.0
  {
    var d := Mul(n, sxx) - Mul(sx, sx);
    assert n * a == sy - b * sx;
    assert b * d == n * sxy - sx * sy;
    var r := sxy - a * sx - b * sxx;
    assert n * r == 0.0 by {
      assert n * (a * sx) == (sy - b * sx) * sx;
      assert n * (b * sxx) == b * (n * sxx);
      assert b * d == b * (n * sxx) - b * sx * sx;
    }
    assert r == 0.0;
  }

  /** Residuals at the fitted line are orthogonal to every line. */
  lemma OrthogonalToLines(w: seq<real>, a: real, b: real)
    requires |w| >= 2
    ensures Inner(|w|, Offset(w, Intercept(w), Slope(w)), Line(a, b)) == 0.0
  {
    var n, e := |w|, Offset(w, Intercept(w), Slope(w));
    NormalEquations(w);
    hide Intercept, Slope;
    var fa, fb := i => Mul(a, e(i)), i => Mul(b, Product(X(), e)(i));
    SumScale(0, n, a, e, fa);
    SumScale(0, n, b, Product(X(), e), fb);
    forall i | 0 <= i < n ensures Product(e, Line(a, b))(i) == fa(i) + fb(i) {
      LineTerm(e(i), a, b, i as real);
    }
    SumAdd(0, n, fa, fb, Product(e, Line(a, b)));
  }

  lemma LineTerm(e: real, a: real, b: real, x: real)
    ensures Mul(e, a + Mul(b, x)) == Mul(a, e) + Mul(b, Mul(x, e))
  {
  }

  /** Any other line is worse by the energy of its difference from the fitted one. */
  lemma ExcessError(w: seq<real>, a: real, b: real)
    requires |w| >= 2
    ensures var da, db := Intercept(w) - a, Slope(w) - b;
            SquaredError(w, a, b) == SquaredError(w, Intercept(w), Slope(w)) + Inner(|w|, Line(da, db), Line(da, db))
  {
    var n, a0, b0 := |w|, Intercept(w), Slope(w);
    var e, g, h := Offset(w, a0, b0), Offset(w, a, b), Line(a0 - a, b0 - b);
    OrthogonalToLines(w, a0 - a, b0 - b);
    hide Intercept, Slope, Sum, Inner, At;
    forall i ensures g(i) == h(i) + e(i) {
      LineDifference(a0, b0, a, b, i as real);
    }
    Polarise(n, e, g, h);
    InnerAdd(n, e, h, e, g);
  }

  lemma LineDifference(a0: real, b0: real, a: real, b: real, x: real)
    ensures (a0 + Mul(b0, x)) - (a + Mul(b, x)) == (a0 - a) + Mul(b0 - b, x)
  {
  }

  lemma InnerAdd(n: nat, f: int -> real, h: int -> real, e: int -> real, g: int -> real)
    requires forall i :: g(i) == h(i) + e(i)
    ensures Inner(n, f, g) == Inner(n, f, h) + Inner(n, f, e)
  {
    forall i | 0 <= i < n ensures Product(f, g)(i) == Product(f, h)(i) + Product(f, e)(i) {
      Distribute(f(i), h(i), e(i));
    }
    SumAdd(0, n, Product(f, h), Product(f, e), Product(f, g));
  }

  /** The fitted line has the least squared error of all lines, and is the only one that does. */
  lemma BestLine(w: seq<real>, a: real, b: real)
    requires |w| >= 2
    ensures SquaredError(w, Intercept(w), Slope(w)) <= SquaredError(w, a, b)
    ensures a != Intercept(w) || b != Slope(w) ==> SquaredError(w, Intercept(w), Slope(w)) < SquaredError(w, a, b)
  {
    hide Intercept, Slope, SquaredError, Inner;
    var da, db := Intercept(w) - a, Slope(w) - b;
    ExcessError(w, a, b);
    EnergyNonNegative(|w|, Line(da, db));
    LineVanishes(da, db);
  }

  lemma LineVanishes(a: real, b: real)
    ensures Line(a, b)(0) == a && Line(a, b)(1) == a + b
  {
  }

  ghost predicate Affine(w: seq<real>, a: real, b: real) {
    forall i | 0 <= i < |w| :: w[i] == a + Mul(b, i as real)
  }

  /** On points of a line the regression returns that line's slope exactly. */
  lemma AffineSlope(w: seq<real>, a: real, b: real)
    requires |w| >= 2 && Affine(w, a, b)
    ensures Slope(w) == b
  {
    var e := Offset(w, a, b);
    forall i | 0 <= i < |w| ensures Product(e, e)(i) == 0.0 {
      assert e(i) == 0.0;
      assert Product(e, e)(i) == Mul(e(i), e(i));
    }
    SumZero(0, |w|, Product(e, e));
    BestLine(w, a, b);
    EnergyNonNegative(|w|, Offset(w, Intercept(w), Slope(w)));
  }

  // ----- detectTrend and detectMomentum

  /** The last ten points, or all when there are fewer. */
  function Window(values: seq<real>): (w: seq<real>)
    ensures |w| == if |values| < 10 then |values| else 10
  {
    values[|values| - (if |values| < 10 then |values| else 10)..]
  }

  function TrendOf(values: seq<real>): (trend: real)
    ensures |values| < 2 ==> trend == 0.0
  {
    if |values| < 2 then 0.0 else Slope(Window(values)) / 60.0
  }

  function MomentumOf(values: seq<real>): (momentum: real)
    ensures |values| < 6 ==> momentum == 0.0
  {
    if |values| < 6 then 0.0
    else
      var mid := |values| / 2;
      TrendOf(values[mid..]) - TrendOf(values[..mid])
  }

  /** The regression loop; per the source, one minute between points. */
  method DetectTrend(values: seq<real>) returns (trend: real)
    ensures trend == TrendOf(values)
  {
    if |values| < 2 {
      return 0.0;
    }
    var w := Window(values);
    hide Mul;
    var sumX, sumY, sumXY, sumX2 := 0.0, 0.0, 0.0, 0.0;
    for i := 0 to |w|
      invariant sumX == SumX(i) && sumX2 == SumXX(i)
      invariant sumY == Sum(0, i, Entry(w)) && sumXY == Inner(i, X(), Entry(w))
    {
      var x := i as real;
      sumX := sumX + x;
      sumY := sumY + w[i];
      sumXY := sumXY + Mul(x, w[i]);
      sumX2 := sumX2 + Mul(x, x);
    }
    var n := |w| as real;
    var denominator := Mul(n, sumX2) - Mul(sumX, sumX);
    var slope := if denominator == 0.0 then 0.0 else (Mul(n, sumXY) - Mul(sumX, sumY)) / denominator;
    DenominatorPositive(|w|);
    trend := slope / 60.0;
  }

  method DetectMomentum(values: seq<real>) returns (momentum: real)
    ensures momentum == MomentumOf(values)
  {
    if |values| < 6 {
      return 0.0;
    }
    var mid := |values| / 2;
    var older := DetectTrend(values[..mid]);
    var recent := DetectTrend(values[mid..]);
    momentum := recent - older;
  }

  lemma AffineSlice(values: seq<real>, a: real, b: real, lo: nat, hi: nat)
    requires lo <= hi <= |values| && Affine(values, a, b)
    ensures Affine(values[lo..hi], a + Mul(b, lo as real), b)
  {
    forall i | 0 <= i < hi - lo ensures values[lo..hi][i] == a + Mul(b, lo as real) + Mul(b, i as real) {
      assert values[lo..hi][i] == values[lo + i] == a + Mul(b, (lo + i) as real);
      Distribute(b, lo as real, i as real);
    }
  }

  lemma AffineTrend(values: seq<real>, a: real, b: real)
    requires |values| >= 2 && Affine(values, a, b)
    ensures TrendOf(values) == b / 60.0
  {
    hide Slope, Affine;
    var w := Window(values);
    var lo := |values| - |w|;
    assert w == values[lo..|values|];
    AffineSlice(values, a, b, lo, |values|);
    AffineSlope(w, a + Mul(b, lo as real), b);
  }

  /** On an affine history the momentum is exactly zero. */
  lemma AffineMomentum(values: seq<real>, a: real, b: real)
    requires Affine(values, a, b)
    ensures MomentumOf(values) == 0.0
  {
    hide TrendOf, Affine, Mul;
    if |values| >= 6 {
      var mid := |values| / 2;
      AffineSlice(values, a, b, 0, mid);
      AffineSlice(values, a, b, mid, |values|);
      assert values[..mid] == values[0..mid] && values[mid..] == values[mid..|values|];
      AffineTrend(values[..mid], a + Mul(b, 0 as real), b);
      AffineTrend(values[mid..], a + Mul(b, mid as real), b);
    }
  }

  // ----- only the end of the history counts

  /** With ten or more points the trend is that of the last ten, whatever came before. */
  lemma TrendForgets(front: seq<real>, w: seq<real>)
    requires |w| >= 10
    ensures TrendOf(front + w) == TrendOf(w) == TrendOf(w[|w| - 10..])
  {
    hide Slope;
    assert Window(front + w) == w[|w| - 10..] == Window(w) == Window(w[|w| - 10..]);
  }

  /** So a history that ends in ten or more points of a line has that line's slope as its trend. */
  lemma AffineEnd(front: seq<real>, w: seq<real>, a: real, b: real)
    requires |w| >= 10 && Affine(w, a, b)
    ensures TrendOf(front + w) == b / 60.0
  {
    TrendForgets(front, w);
    AffineTrend(w, a, b);
  }

  /** Momentum is the change of slope from the older half to the newer one. */
  lemma HalvesMomentum(older: seq<real>, newer: seq<real>, a0: real, b0: real, a1: real, b1: real)
    requires |older| + |newer| >= 6 && |older| == (|older| + |newer|) / 2
    requires Affine(older, a0, b0) && Affine(newer, a1, b1)
    ensures MomentumOf(older + newer) == (b1 - b0) / 60.0
  {
    hide TrendOf, Affine;
    var values, mid := older + newer, |older|;
    assert values[..mid] == older && values[mid..] == newer;
    AffineTrend(older, a0, b0);
    AffineTrend(newer, a1, b1);
  }
}
