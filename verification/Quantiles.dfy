/** The quantile forecasts every built-in model emits beside its point forecast. */
module Quantiles {
  import opened RealSums

  /** A square root on the non-negative reals. */
  ghost predicate IsSqrt(sqrt: real -> real) {
    forall x: real | x >= 0.0 :: sqrt(x) >= 0.0 && Mul(sqrt(x), sqrt(x)) == x
  }

  type QuantileMap = map<real, seq<real>>

  /** The normal z-score of each emitted level. */
  const Z_SCORES: map<real, real> := map[0.50 := 0.0, 0.75 := 0.674, 0.90 := 1.282, 0.95 := 1.645]

  /** max(0, v + z * sigma * h) */
  function Shifted(v: real, z: real, sigma: real, h: real): real {
    var x := v + z * Mul(sigma, h);
    if x < 0.0 then 0.0 else x
  }

  /** The forecasts at one level; spread[i] widens the band at step i. */
  function Level(values: seq<real>, z: real, sigma: real, spread: seq<real>): (qs: seq<real>)
    requires |spread| == |values|
    ensures |qs| == |values|
  {
    seq(|values|, i requires 0 <= i < |values| => Shifted(values[i], z, sigma, spread[i]))
  }

  function Emitted(values: seq<real>, sigma: real, spread: seq<real>): QuantileMap
    requires |spread| == |values|
  {
    if sigma > 0.0 then map q | q in Z_SCORES :: Level(values, Z_SCORES[q], sigma, spread) else map[]
  }

  predicate NonNegative(s: seq<real>) {
    forall i | 0 <= i < |s| :: s[i] >= 0.0
  }

  /** sqrt(1 + i/10) for each step: ARIMA and SARIMA widen the band with the horizon. */
  function Spread(sqrt: real -> real, n: nat): (h: seq<real>)
    ensures |h| == n
  {
    seq(n, i requires 0 <= i < n => sqrt(1.0 + (i as real) * 0.1))
  }

  /** The baseline band does not widen with the horizon. */
  function Flat(n: nat): (h: seq<real>)
    ensures |h| == n
  {
    seq(n, _ => 1.0)
  }

  lemma SpreadNonNegative(sqrt: real -> real, n: nat)
    requires IsSqrt(sqrt)
    ensures NonNegative(Spread(sqrt, n)) && NonNegative(Flat(n))
  {
  }

  lemma ShiftedMonotone(v: real, z: real, z': real, sigma: real, h: real)
    requires z <= z' && sigma >= 0.0 && h >= 0.0
    ensures Shifted(v, z, sigma, h) <= Shifted(v, z', sigma, h)
  {
    Product0(sigma, h);
    Ordered(Mul(sigma, h), z, z');
  }

  /** A higher emitted level is nowhere below a lower one, and all levels are as long as the forecast. */
  lemma LevelsOrdered(values: seq<real>, sigma: real, spread: seq<real>, q: real, q': real)
    requires |spread| == |values| && NonNegative(spread)
    requires q in Emitted(values, sigma, spread) && q' in Emitted(values, sigma, spread) && q <= q'
    ensures var m := Emitted(values, sigma, spread);
            && |m[q]| == |m[q']| == |values|
            && forall i | 0 <= i < |values| :: 0.0 <= m[q][i] <= m[q'][i]
  {
    var m := Emitted(values, sigma, spread);
    forall i | 0 <= i < |values| ensures 0.0 <= m[q][i] <= m[q'][i] {
      ShiftedMonotone(values[i], Z_SCORES[q], Z_SCORES[q'], sigma, spread[i]);
    }
  }

  /** The widened band, squared. */
  lemma SpreadSquared(sqrt: real -> real, n: nat, i: nat)
    requires IsSqrt(sqrt) && i < n
    ensures Mul(Spread(sqrt, n)[i], Spread(sqrt, n)[i]) == 1.0 + (i as real) / 10.0
  {
  }

  /** The four levels and their normal z-scores: each shifts a forecast that stays non-negative by z * sigma
      times the band's width. Without spread there are none. */
  lemma EmittedLevels(values: seq<real>, sigma: real, spread: seq<real>, i: nat)
    requires |spread| == |values| && NonNegative(spread) && i < |values|
    ensures var m := Emitted(values, sigma, spread);
            if sigma <= 0.0 then m == map[]
            else
              var unit := Mul(sigma, spread[i]);
              && m.Keys == {0.50, 0.75, 0.90, 0.95}
              && (forall q | q in m :: |m[q]| == |values|)
              && (values[i] >= 0.0 ==>
                   && m[0.50][i] == values[i] && m[0.75][i] == values[i] + 0.674 * unit
                   && m[0.90][i] == values[i] + 1.282 * unit && m[0.95][i] == values[i] + 1.645 * unit)
  {
    if sigma > 0.0 {
      Product0(sigma, spread[i]);
      hide Mul;
      var m := Emitted(values, sigma, spread);
      assert Z_SCORES.Keys == {0.50, 0.75, 0.90, 0.95};
      assert m.Keys == Z_SCORES.Keys;
      forall q | q in m ensures m[q][i] == Shifted(values[i], Z_SCORES[q], sigma, spread[i]) {
      }
    }
  }

  /** The median level repeats a non-negative point forecast. */
  lemma MedianIsForecast(values: seq<real>, sigma: real, spread: seq<real>)
    requires |spread| == |values| && NonNegative(values) && sigma > 0.0
    ensures 0.50 in Emitted(values, sigma, spread) && Emitted(values, sigma, spread)[0.50] == values
  {
    var m := Emitted(values, sigma, spread);
    assert Z_SCORES[0.50] == 0.0;
    hide Mul;
    forall i | 0 <= i < |values| ensures m[0.50][i] == values[i] {
      assert m[0.50][i] == Shifted(values[i], 0.0, sigma, spread[i]);
      NoShift(values[i], sigma, spread[i]);
    }
  }

  lemma NoShift(v: real, sigma: real, h: real)
    requires v >= 0.0
    ensures Shifted(v, 0.0, sigma, h) == v
  {
    hide Mul;
  }

  /** The emission loop over levels and steps. */
  method Emit(values: seq<real>, sigma: real, spread: seq<real>) returns (m: QuantileMap)
    requires |spread| == |values|
    ensures m == Emitted(values, sigma, spread)
  {
    hide Shifted;
    m := map[];
    if sigma > 0.0 {
      var pending := Z_SCORES.Keys;
      while pending != {}
        invariant pending <= Z_SCORES.Keys
        invariant m == map q | q in Z_SCORES && q !in pending :: Level(values, Z_SCORES[q], sigma, spread)
      {
        var q :| q in pending;
        var qs := [];
        for i := 0 to |values|
          invariant |qs| == i
          invariant forall j | 0 <= j < i :: qs[j] == Shifted(values[j], Z_SCORES[q], sigma, spread[j])
        {
          qs := qs + [Shifted(values[i], Z_SCORES[q], sigma, spread[i])];
        }
        assert qs == Level(values, Z_SCORES[q], sigma, spread);
        m := m[q := qs];
        pending := pending - {q};
      }
    }
  }
}
