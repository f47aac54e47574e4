/** Finite sums of reals over integer ranges, and zero-padded sequences. */
module RealSums {

  /** The i-th entry, with zeros outside the sequence. */
  function At(s: seq<real>, i: int): real {
    if 0 <= i < |s| then s[i] else 0.0
  }

  function Abs(x: real): real {
    if x < 0.0 then -x else x
  }

  function AbsInt(x: int): nat {
    if x < 0 then -x else x
  }

  /** A product kept as one term, so that equal factors give equal products by congruence. */
  function Mul(a: real, b: real): real {
    a * b
  }

  lemma Square(x: real)
    ensures Mul(x, x) >= 0.0
    ensures x != 0.0 ==> Mul(x, x) > 0.0
  {
    if x != 0.0 {
      assert x * (1.0 / x) == 1.0;
    }
  }

  lemma Product0(a: real, b: real)
    requires a >= 0.0 && b >= 0.0
    ensures Mul(a, b) >= 0.0
    ensures a > 0.0 && b > 0.0 ==> Mul(a, b) > 0.0
  {
  }

  /** Scaling by a non-negative factor keeps order. */
  lemma Ordered(c: real, a: real, b: real)
    requires c >= 0.0 && a <= b
    ensures Mul(c, a) <= Mul(c, b)
    ensures Mul(a, c) <= Mul(b, c)
  {
    assert c * (b - a) >= 0.0;
  }

  /** Scaling by a factor in [0, 1] moves a non-negative number towards zero. */
  lemma Shrinks(d: real, x: real)
    requires 0.0 <= d <= 1.0 && x >= 0.0
    ensures 0.0 <= Mul(d, x) <= x
    ensures d > 0.0 && x > 0.0 ==> Mul(d, x) > 0.0
  {
    Product0(d, x);
    assert (1.0 - d) * x >= 0.0;
  }

  lemma Commute(a: real, b: real)
    ensures Mul(a, b) == Mul(b, a)
  {
  }

  lemma Associate(a: real, b: real, c: real)
    ensures Mul(a, Mul(b, c)) == Mul(Mul(a, b), c)
  {
  }

  lemma Swap3(a: real, b: real, c: real)
    ensures Mul(a, Mul(b, c)) == Mul(b, Mul(a, c))
  {
  }

  lemma Distribute(a: real, b: real, c: real)
    ensures Mul(a, b + c) == Mul(a, b) + Mul(a, c)
    ensures Mul(b + c, a) == Mul(b, a) + Mul(c, a)
  {
  }

  lemma Cancel(c: real, x: real)
    requires c != 0.0
    ensures Mul(c, x / c) == x
  {
  }

  lemma CancelProduct(c: real, x: real)
    requires c != 0.0
    ensures Mul(c, x) / c == x
  {
  }

  lemma SelfQuotient(c: real)
    requires c != 0.0
    ensures c / c == 1.0
  {
  }

  lemma TimesZero(x: real)
    ensures Mul(x, 0.0) == 0.0 && Mul(0.0, x) == 0.0
  {
  }

  lemma TimesOne(x: real)
    ensures Mul(x, 1.0) == x && Mul(1.0, x) == x
  {
  }

  lemma Negate(a: real, b: real)
    ensures Mul(-a, b) == -Mul(a, b) && Mul(a, -b) == -Mul(a, b)
    ensures Mul(-a, -b) == Mul(a, b)
  {
  }

  lemma MinusOne(x: real)
    ensures Mul(-1.0, x) == -x
  {
  }

  /** f(lo) + ... + f(hi - 1), peeled at the upper end as a loop accumulates it. */
  function Sum(lo: int, hi: int, f: int -> real): real
    decreases hi - lo
  {
    if hi <= lo then 0.0 else Sum(lo, hi - 1, f) + f(hi - 1)
  }

  lemma {:induction false} SumExt(lo: int, hi: int, f: int -> real, g: int -> real)
    requires forall i | lo <= i < hi :: f(i) == g(i)
    ensures Sum(lo, hi, f) == Sum(lo, hi, g)
    decreases hi - lo
  {
    if lo < hi {
      SumExt(lo, hi - 1, f, g);
    }
  }

  lemma {:induction false} SumAdd(lo: int, hi: int, f: int -> real, g: int -> real, h: int -> real)
    requires forall i | lo <= i < hi :: h(i) == f(i) + g(i)
    ensures Sum(lo, hi, h) == Sum(lo, hi, f) + Sum(lo, hi, g)
    decreases hi - lo
  {
    if lo < hi {
      SumAdd(lo, hi - 1, f, g, h);
    }
  }

  lemma {:induction false} SumScale(lo: int, hi: int, a: real, f: int -> real, h: int -> real)
    requires forall i | lo <= i < hi :: h(i) == Mul(a, f(i))
    ensures Sum(lo, hi, h) == Mul(a, Sum(lo, hi, f))
    decreases hi - lo
  {
    if lo < hi {
      SumScale(lo, hi - 1, a, f, h);
      Distribute(a, Sum(lo, hi - 1, f), f(hi - 1));
    }
  }

  lemma {:induction false} SumSplit(lo: int, mid: int, hi: int, f: int -> real)
    requires lo <= mid <= hi
    ensures Sum(lo, hi, f) == Sum(lo, mid, f) + Sum(mid, hi, f)
    decreases hi - mid
  {
    if mid < hi {
      SumSplit(lo, mid, hi - 1, f);
    }
  }

  lemma SumFirst(lo: int, hi: int, f: int -> real)
    requires lo < hi
    ensures Sum(lo, hi, f) == f(lo) + Sum(lo + 1, hi, f)
  {
    SumSplit(lo, lo + 1, hi, f);
    assert Sum(lo, lo, f) == 0.0;
  }

  lemma {:induction false} SumShift(lo: int, hi: int, k: int, f: int -> real, g: int -> real)
    requires forall i | lo <= i < hi :: g(i) == f(i + k)
    ensures Sum(lo, hi, g) == Sum(lo + k, hi + k, f)
    decreases hi - lo
  {
    if lo < hi {
      SumShift(lo, hi - 1, k, f, g);
    }
  }

  lemma {:induction false} SumReverse(lo: int, hi: int, f: int -> real, g: int -> real)
    requires forall i | lo <= i < hi :: g(i) == f(lo + hi - 1 - i)
    ensures Sum(lo, hi, g) == Sum(lo, hi, f)
    decreases hi - lo
  {
    if lo < hi {
      SumFirst(lo, hi, f);
      var h := i => f(i + 1);
      SumShift(lo, hi - 1, 1, f, h);
      SumReverse(lo, hi - 1, h, g);
    }
  }

  lemma {:induction false} SumZero(lo: int, hi: int, f: int -> real)
    requires forall i | lo <= i < hi :: f(i) == 0.0
    ensures Sum(lo, hi, f) == 0.0
    decreases hi - lo
  {
    if lo < hi {
      SumZero(lo, hi - 1, f);
    }
  }

  lemma {:induction false} SumMonotone(lo: int, hi: int, f: int -> real, g: int -> real)
    requires forall i | lo <= i < hi :: f(i) <= g(i)
    ensures Sum(lo, hi, f) <= Sum(lo, hi, g)
    decreases hi - lo
  {
    if lo < hi {
      SumMonotone(lo, hi - 1, f, g);
    }
  }

  lemma SumNonNegative(lo: int, hi: int, f: int -> real)
    requires forall i | lo <= i < hi :: f(i) >= 0.0
    ensures Sum(lo, hi, f) >= 0.0
  {
    var zero := (i: int) => 0.0;
    SumMonotone(lo, hi, zero, f);
    SumZero(lo, hi, zero);
  }

  /** A sum of non-negative terms is at least each of them. */
  lemma SumDominatesTerm(lo: int, hi: int, f: int -> real, k: int)
    requires forall i | lo <= i < hi :: f(i) >= 0.0
    requires lo <= k < hi
    ensures Sum(lo, hi, f) >= f(k)
  {
    SumSplit(lo, k + 1, hi, f);
    SumNonNegative(lo, k, f);
    SumNonNegative(k + 1, hi, f);
  }

  /** A sum of non-negative terms vanishes only when every term does. */
  lemma SumZeroTerms(lo: int, hi: int, f: int -> real)
    requires forall i | lo <= i < hi :: f(i) >= 0.0
    requires Sum(lo, hi, f) == 0.0
    ensures forall i | lo <= i < hi :: f(i) == 0.0
  {
    forall i | lo <= i < hi ensures f(i) == 0.0 {
      SumDominatesTerm(lo, hi, f, i);
    }
  }

  lemma {:induction false} SumConstant(n: nat, c: real, f: int -> real)
    requires forall i | 0 <= i < n :: f(i) == c
    ensures Sum(0, n, f) == Mul(n as real, c)
  {
    if n > 0 {
      SumConstant(n - 1, c, f);
    }
  }

  /** Sums over a rectangle may be taken in either order. */
  lemma {:induction false} SumSwap(alo: int, ahi: int, tlo: int, thi: int, F: (int, int) -> real,
                                   rows: int -> real, cols: int -> real)
    requires forall a | alo <= a < ahi :: rows(a) == Sum(tlo, thi, t => F(a, t))
    requires forall t | tlo <= t < thi :: cols(t) == Sum(alo, ahi, a => F(a, t))
    ensures Sum(alo, ahi, rows) == Sum(tlo, thi, cols)
    decreases ahi - alo
  {
    if ahi <= alo {
      SumZero(tlo, thi, cols);
    } else {
      var last := t => F(ahi - 1, t);
      var rest := t => Sum(alo, ahi - 1, a => F(a, t));
      SumSwap(alo, ahi - 1, tlo, thi, F, rows, rest);
      forall t | tlo <= t < thi ensures cols(t) == rest(t) + last(t) {
        SumExt(alo, ahi - 1, a => F(a, t), a => F(a, t));
        assert Sum(alo, ahi, a => F(a, t)) == Sum(alo, ahi - 1, a => F(a, t)) + F(ahi - 1, t);
      }
      SumAdd(tlo, thi, rest, last, cols);
      SumExt(tlo, thi, last, t => F(ahi - 1, t));
    }
  }

  // ----- powers

  function Pow(b: real, n: nat): real {
    if n == 0 then 1.0 else Mul(b, Pow(b, n - 1))
  }

  lemma {:induction false} PowPositive(b: real, n: nat)
    requires 0.0 < b <= 1.0
    ensures 0.0 < Pow(b, n) <= 1.0
  {
    hide Mul;
    if n > 0 {
      PowPositive(b, n - 1);
      Shrinks(b, Pow(b, n - 1));
    }
  }
}
