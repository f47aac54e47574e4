/** The Levinson-Durbin recursion of pkg/models/arima.go and the Yule-Walker equations it solves. */
module Levinson {
  import opened RealSums

  /** One outcome of the recursion: the coefficient row phi[0..k] (phi[0] is unused and zero)
      with its prediction variance, or the reason the recursion gave up. */
  datatype Fit =
    | Fitted(phi: seq<real>, v: real)
    | ZeroVariance
    | NegativeVariance

  /** phi[j] * r[|i - j|], the j-th term of the i-th Yule-Walker equation. */
  function Term(phi: seq<real>, r: seq<real>, i: int): int -> real {
    j => Mul(At(phi, j), At(r, AbsInt(i - j)))
  }

  /** The left-hand side of the i-th Yule-Walker equation of order k. */
  function Lhs(phi: seq<real>, r: seq<real>, k: nat, i: int): real {
    Sum(1, k + 1, Term(phi, r, i))
  }

  ghost predicate YuleWalker(phi: seq<real>, r: seq<real>, k: nat) {
    forall i | 1 <= i <= k :: Lhs(phi, r, k, i) == At(r, i)
  }

  /** What a fitted row of order k means. */
  ghost predicate Solves(phi: seq<real>, v: real, r: seq<real>, k: nat) {
    && |phi| == k + 1
    && phi[0] == 0.0
    && YuleWalker(phi, r, k)
    && v == At(r, 0) - Lhs(phi, r, k, 0)
  }

  /** acf[k] minus the order k-1 prediction of it. */
  function Numerator(phi: seq<real>, r: seq<real>, k: nat): real
    requires k >= 1
  {
    At(r, k) - Lhs(phi, r, k - 1, k)
  }

  /** The row of order k from the row of order k-1 and the reflection coefficient. */
  function NextRow(phi: seq<real>, kappa: real, k: nat): (row: seq<real>)
    requires k >= 1 && |phi| == k
    ensures |row| == k + 1
  {
    seq(k + 1, j requires 0 <= j <= k =>
      if j == 0 then 0.0 else if j == k then kappa else phi[j] - Mul(kappa, phi[k - j]))
  }

  function Kappa(phi: seq<real>, v: real, r: seq<real>, k: nat): real
    requires k >= 1 && v != 0.0
  {
    Numerator(phi, r, k) / v
  }

  function Shrink(v: real, kappa: real): real {
    v * (1.0 - Mul(kappa, kappa))
  }

  /** One pass of the outer loop. */
  function Step(phi: seq<real>, v: real, r: seq<real>, k: nat): (fit: Fit)
    requires k >= 1 && |phi| == k
    ensures fit.Fitted? ==>
              && v != 0.0
              && fit == Fitted(NextRow(phi, Kappa(phi, v, r, k), k), Shrink(v, Kappa(phi, v, r, k)))
    ensures fit.Fitted? ==> fit.v >= 0.0
  {
    if v == 0.0 then ZeroVariance
    else
      var kappa := Kappa(phi, v, r, k);
      if Shrink(v, kappa) < 0.0 then NegativeVariance else Fitted(NextRow(phi, kappa, k), Shrink(v, kappa))
  }

  function Run(r: seq<real>, k: nat): (fit: Fit)
    ensures fit.Fitted? ==> |fit.phi| == k + 1
  {
    if k == 0 then Fitted([0.0], At(r, 0)) else
      var fit := Run(r, k - 1);
      if fit.Fitted? then Step(fit.phi, fit.v, r, k) else fit
  }

  /** phi[k - j] * r[|i - j|]: the i-th equation's terms with the coefficients reversed. */
  function MirrorTerm(phi: seq<real>, r: seq<real>, k: nat, i: int): int -> real {
    j => Mul(At(phi, k - j), At(r, AbsInt(i - j)))
  }

  function Scaled(a: real, f: int -> real): int -> real {
    j => Mul(a, f(j))
  }

  lemma NextTerm(phi: seq<real>, r: seq<real>, kappa: real, k: nat, i: nat, j: nat)
    requires |phi| == k && i <= k && 1 <= j < k
    ensures Term(phi, r, i)(j)
         == Term(NextRow(phi, kappa, k), r, i)(j) + Scaled(kappa, MirrorTerm(phi, r, k, i))(j)
  {
    var x, b := At(r, AbsInt(i - j)), At(phi, k - j);
    var row := NextRow(phi, kappa, k);
    assert At(phi, j) == At(row, j) + Mul(kappa, b);
    Distribute(x, At(row, j), Mul(kappa, b));
    Swap3(kappa, b, x);
    Associate(kappa, b, x);
  }

  /** Reversing the coefficients turns the i-th left-hand side into the (k-i)-th. */
  lemma MirrorLhs(phi: seq<real>, r: seq<real>, k: nat, i: nat)
    requires k >= 1 && |phi| == k && i <= k
    ensures Sum(1, k, MirrorTerm(phi, r, k, i)) == Lhs(phi, r, k - 1, k - i)
  {
    forall j | 1 <= j < k ensures MirrorTerm(phi, r, k, i)(j) == Term(phi, r, k - i)(1 + k - 1 - j) {
      assert AbsInt(i - j) == AbsInt(k - i - (k - j));
    }
    SumReverse(1, k, Term(phi, r, k - i), MirrorTerm(phi, r, k, i));
  }

  /** Every left-hand side of the new row, from the old row's: the reversal step of the recursion. */
  lemma NextLhs(phi: seq<real>, r: seq<real>, kappa: real, k: nat, i: nat)
    requires k >= 1 && |phi| == k && i <= k
    ensures Lhs(NextRow(phi, kappa, k), r, k, i)
         == Lhs(phi, r, k - 1, i) + Mul(kappa, At(r, k - i)) - Mul(kappa, Lhs(phi, r, k - 1, k - i))
  {
    var row, mirror := NextRow(phi, kappa, k), MirrorTerm(phi, r, k, i);
    forall j | 1 <= j < k ensures Term(phi, r, i)(j) == Term(row, r, i)(j) + Scaled(kappa, mirror)(j) {
      NextTerm(phi, r, kappa, k, i, j);
    }
    SumAdd(1, k, Term(row, r, i), Scaled(kappa, mirror), Term(phi, r, i));
    SumScale(1, k, kappa, mirror, Scaled(kappa, mirror));
    MirrorLhs(phi, r, k, i);
    assert Term(row, r, i)(k) == Mul(kappa, At(r, k - i));
  }

  lemma NextSolves(phi: seq<real>, v: real, r: seq<real>, k: nat)
    requires k >= 1 && v != 0.0 && Solves(phi, v, r, k - 1)
    ensures Solves(NextRow(phi, Kappa(phi, v, r, k), k), Shrink(v, Kappa(phi, v, r, k)), r, k)
  {
    var num := Numerator(phi, r, k);
    var kappa := Kappa(phi, v, r, k);
    var row := NextRow(phi, kappa, k);
    forall i | 1 <= i < k ensures Lhs(row, r, k, i) == At(r, i) {
      NextLhs(phi, r, kappa, k, i);
      assert Lhs(phi, r, k - 1, k - i) == At(r, k - i);
    }
    NextLhs(phi, r, kappa, k, k);
    NextLhs(phi, r, kappa, k, 0);
    Residual(v, kappa, num, At(r, 0), Lhs(phi, r, k - 1, 0), At(r, k), Lhs(phi, r, k - 1, k));
  }

  lemma Residual(v: real, kappa: real, num: real, r0: real, l0: real, rk: real, lk: real)
    requires v != 0.0 && kappa == num / v && v == r0 - l0 && num == rk - lk
    ensures Mul(kappa, r0) - Mul(kappa, l0) == num
    ensures Shrink(v, kappa) == v - Mul(kappa, rk) + Mul(kappa, lk)
  {
    assert kappa * v == num;
  }

  /** Whenever the recursion succeeds, on any acf at all, its coefficients solve all k Yule-Walker
      equations and v is the variance they leave. */
  lemma {:induction false} RunSolves(r: seq<real>, k: nat)
    requires Run(r, k).Fitted?
    ensures Solves(Run(r, k).phi, Run(r, k).v, r, k)
  {
    if k > 0 {
      RunSolves(r, k - 1);
      NextSolves(Run(r, k - 1).phi, Run(r, k - 1).v, r, k);
    }
  }

  /** A successful run with acf[0] > 0 had reflection coefficients in [-1, 1] and a positive,
      non-increasing variance at every earlier stage. */
  lemma {:induction false} ReflectionBound(r: seq<real>, p: nat, k: nat)
    requires Run(r, p).Fitted? && At(r, 0) > 0.0 && k <= p
    ensures Run(r, k).Fitted? && 0.0 <= Run(r, p).v <= Run(r, k).v <= At(r, 0)
    ensures k < p ==> Run(r, k).v > 0.0
    ensures k >= 1 ==> -1.0 <= Run(r, k).phi[k] <= 1.0
    decreases p
  {
    if p > 0 {
      var prev := Run(r, p - 1);
      ReflectionBound(r, p - 1, if k < p then k else p - 1);
      ReflectionBound(r, p - 1, p - 1);
      var kappa := Kappa(prev.phi, prev.v, r, p);
      assert Run(r, p) == Step(prev.phi, prev.v, r, p);
      assert Run(r, p).phi[p] == kappa;
      ShrinkFactor(prev.v, kappa);
    }
  }

  lemma ShrinkFactor(v: real, kappa: real)
    requires v > 0.0 && Shrink(v, kappa) >= 0.0
    ensures -1.0 <= kappa <= 1.0
    ensures Shrink(v, kappa) <= v
  {
    var s := Mul(kappa, kappa);
    assert s <= 1.0;
    Square(kappa);
  }

  /** The first k entries of row i of the table. */
  ghost predicate HoldsRow(phi: array2<real>, i: nat, row: seq<real>)
    requires i < phi.Length0 && |row| <= phi.Length1
    reads phi
  {
    forall j | 0 <= j < |row| :: phi[i, j] == row[j]
  }

  /** The inner loop that subtracts the order k-1 prediction from acf[k]. */
  method PredictionGap(acf: seq<real>, phi: array2<real>, k: nat, ghost row: seq<real>) returns (num: real)
    requires 1 <= k < |acf| && k < phi.Length0 && k < phi.Length1
    requires |row| == k && HoldsRow(phi, k - 1, row)
    ensures num == Numerator(row, acf, k)
  {
    num := acf[k];
    for j := 1 to k
      invariant num == At(acf, k) - Sum(1, j, Term(row, acf, k))
    {
      num := num - Mul(phi[k - 1, j], acf[k - j]);
    }
  }

  /** The inner loop that fills row k of the table from row k-1. */
  method FillRow(phi: array2<real>, k: nat, kappa: real, ghost row: seq<real>)
    requires 1 <= k < phi.Length0 && k < phi.Length1 && phi[k, 0] == 0.0
    requires |row| == k && HoldsRow(phi, k - 1, row)
    modifies phi
    ensures HoldsRow(phi, k, NextRow(row, kappa, k))
    ensures forall i, j | 0 <= i < phi.Length0 && i != k && 0 <= j < phi.Length1 :: phi[i, j] == old(phi[i, j])
  {
    hide Mul;
    phi[k, k] := kappa;
    for j := 1 to k
      invariant phi[k, k] == kappa && phi[k, 0] == 0.0
      invariant forall l | 1 <= l < j :: phi[k, l] == row[l] - Mul(kappa, row[k - l])
      invariant forall i, l | 0 <= i < phi.Length0 && i != k && 0 <= l < phi.Length1 :: phi[i, l] == old(phi[i, l])
    {
      phi[k, j] := phi[k - 1, j] - Mul(phi[k, k], phi[k - 1, k - j]);
    }
  }

  /** The source's loop over the table phi[k][j]: it returns exactly the fitted coefficients,
      or fails exactly when the recursion does. */
  method LevinsonDurbin(acf: seq<real>, p: nat) returns (fit: Fit, coeffs: seq<real>)
    requires p == 0 || p < |acf|
    ensures p == 0 ==> fit.Fitted? && coeffs == []
    ensures p > 0 ==> fit == Run(acf, p)
    ensures p > 0 && fit.Fitted? ==> coeffs == fit.phi[1..]
  {
    if p == 0 {
      return Fitted([0.0], 0.0), [];
    }
    var phi := new real[p + 1, p + 1]((i, j) => 0.0);
    var v := acf[0];
    ghost var row := [0.0];
    for k := 1 to p + 1
      invariant |row| == k && Run(acf, k - 1) == Fitted(row, v)
      invariant HoldsRow(phi, k - 1, row)
      invariant forall i | k <= i <= p :: phi[i, 0] == 0.0
    {
      var num := PredictionGap(acf, phi, k, row);
      if v == 0.0 {
        FailureLasts(acf, k, p);
        return ZeroVariance, [];
      }
      var kappa := num / v;
      FillRow(phi, k, kappa, row);
      v := Shrink(v, kappa);
      if v < 0.0 {
        FailureLasts(acf, k, p);
        return NegativeVariance, [];
      }
      row := NextRow(row, kappa, k);
    }
    coeffs := seq(p, i requires 0 <= i < p reads phi => phi[p, i + 1]);
    fit := Fitted([0.0] + coeffs, v);
    assert row == [0.0] + coeffs;
  }

  lemma {:induction false} FailureLasts(r: seq<real>, k: nat, p: nat)
    requires k <= p && !Run(r, k).Fitted?
    ensures Run(r, p) == Run(r, k)
  {
    if k < p {
      FailureLasts(r, k, p - 1);
    }
  }
}
