/** pkg/models/baseline.go: seasonal patterns and the baseline forecast. */
module Baseline {
  import opened Prelude
  import opened RealSums
  import opened TimeSeries
  import opened Quantiles
  import opened Models
  import opened Trend

  datatype Pattern = Pattern(mean: real, max: real, min: real, count: nat, stddev: real)

  datatype Lookup = Missing | Found(pattern: Pattern)

  /** What a pattern says about the values it summarises. */
  ghost predicate Summarises(p: Pattern, values: seq<real>) {
    && |values| == p.count > 0
    && p.min in values && p.max in values
    && (forall i | 0 <= i < |values| :: p.min <= values[i] <= p.max)
    && p.mean == Mean(values)
    && p.min <= p.mean <= p.max
    && p.stddev >= 0.0
    && (if |values| == 1 then p.stddev == 0.0
        else Mul(p.stddev, p.stddev) == Cov(Deviations(values), 0) / ((|values| - 1) as real))
  }

  lemma MeanBetween(values: seq<real>, lo: real, hi: real)
    requires |values| > 0 && forall i | 0 <= i < |values| :: lo <= values[i] <= hi
    ensures lo <= Mean(values) <= hi
  {
    var n := |values|;
    var l, h := (i: int) => lo, (i: int) => hi;
    SumMonotone(0, n, l, Entry(values));
    SumMonotone(0, n, Entry(values), h);
    SumConstant(n, lo, l);
    SumConstant(n, hi, h);
    hide Sum;
    MeanOrder(n as real, lo, Sum(0, n, Entry(values)), hi);
  }

  lemma MeanOrder(n: real, lo: real, total: real, hi: real)
    requires n > 0.0 && Mul(n, lo) <= total <= Mul(n, hi)
    ensures lo <= total / n <= hi
  {
    var m := total / n;
    assert n * m == total;
    if m < lo {
      Product0(n, lo - m);
    }
    if m > hi {
      Product0(n, m - hi);
    }
  }

  method ComputeSeasonalPattern(values: seq<real>, sqrt: real -> real) returns (r: Lookup)
    requires IsSqrt(sqrt)
    ensures r.Missing? <==> |values| == 0
    ensures r.Found? ==> Summarises(r.pattern, values)
  {
    if |values| == 0 {
      return Missing;
    }
    var sum, lo, hi := 0.0, values[0], values[0];
    for i := 0 to |values|
      invariant sum == Sum(0, i, Entry(values))
      invariant lo in values && hi in values
      invariant forall j | 0 <= j < i :: lo <= values[j] <= hi
    {
      sum := sum + values[i];
      if values[i] < lo {
        lo := values[i];
      }
      if values[i] > hi {
        hi := values[i];
      }
    }
    var mean := sum / (|values| as real);
    assert mean == Mean(values);
    hide Mean, Cov, Deviations, Sum;
    MeanBetween(values, lo, hi);
    var variance := LaggedProducts(values, mean, 0);
    var stddev := 0.0;
    if |values| > 1 {
      CovZeroNonNegative(Deviations(values));
      QuotientNonNegative(variance, (|values| - 1) as real);
      stddev := sqrt(variance / ((|values| - 1) as real));
    }
    r := Found(Pattern(mean, hi, lo, |values|, stddev));
  }

  // ----- Predict

  /** A trained model: patterns by minute of hour and hour of day, and the residual spread. */
  datatype Model = Model(
    stepSec: int, horizon: int, minutes: map<int, Pattern>, hours: map<int, Pattern>, sigma: real)

  /** Conversion of a real to an integer, dropping the fraction. */
  function Truncate(x: real): (r: int)
    ensures x >= 0.0 ==> 0 <= r && r as real <= x < (r + 1) as real
    ensures x < 0.0 ==> r <= 0 && (r - 1) as real < x <= r as real
  {
    if x >= 0.0 then x.Floor else -((-x).Floor)
  }

  function FieldOr(row: Row, key: string, default: int): int {
    if key in row then Truncate(row[key]) else default
  }

  function PatternValue(p: Pattern, momentum: real): real {
    if momentum > 0.0 && p.max > p.mean then 0.7 * p.mean + 0.3 * p.max else p.mean
  }

  /** Which of n buckets of `unit` seconds is current some seconds ahead. */
  function Bucket(now: int, secondsAhead: int, unit: nat, n: nat): int
    requires unit > 0 && n > 0
  {
    TruncRem(now + TruncDiv(secondsAhead, unit), n)
  }

  /** Minute patterns are preferred; hour patterns are the fallback. */
  function PatternAt(m: Model, minute: int, hour: int, secondsAhead: int): Lookup {
    var futureMinute, futureHour := Bucket(minute, secondsAhead, 60, 60), Bucket(hour, secondsAhead, 3600, 24);
    if minute >= 0 && |m.minutes| > 0 && futureMinute in m.minutes then Found(m.minutes[futureMinute])
    else if hour >= 0 && |m.hours| > 0 && futureHour in m.hours then Found(m.hours[futureHour])
    else Missing
  }

  function Ratio(x: real, u: real): real
    requires u != 0.0
  {
    x / u
  }

  /** The weight of the seasonal value. With base == -1 the source divides by zero: the infinity has the
      seasonal value's sign, and zero over zero compares false with everything. */
  function SeasonalWeight(base: real, seasonal: real): (w: real)
    ensures 0.5 <= w <= 0.8
  {
    if base + 1.0 == 0.0 then
      if seasonal > 0.0 then 0.8 else if seasonal < 0.0 then 0.6 else 0.5
    else
      var ratio := Ratio(seasonal, base + 1.0);
      if ratio > 1.5 then 0.8 else if ratio > 1.2 then 0.7 else if ratio < 0.8 then 0.6 else 0.5
  }

  function Mix(w: real, base: real, seasonal: real): real {
    (1.0 - w) * base + w * seasonal
  }

  function Blend(base: real, seasonal: real): real {
    Mix(SeasonalWeight(base, seasonal), base, seasonal)
  }

  function Extrapolated(current: real, trend: real, momentum: real, t: real): real {
    current + Mul(trend, t) + Mul(0.5 * momentum, Mul(t, t)) / 60.0
  }

  function Clamp0(x: real): real {
    if x < 0.0 then 0.0 else x
  }

  /** The forecast `secondsAhead` seconds past the last value. */
  function ForecastAt(m: Model, values: seq<real>, minute: int, hour: int, secondsAhead: int): real
    requires |values| > 0
  {
    var momentum := MomentumOf(values);
    var base := Extrapolated(values[|values| - 1], TrendOf(values), momentum, secondsAhead as real);
    var at := PatternAt(m, minute, hour, secondsAhead);
    Clamp0(if at.Found? then Blend(base, PatternValue(at.pattern, momentum)) else base)
  }

  /** A negative step is not rejected; only a zero one stops the division. */
  function Steps(m: Model): (n: nat)
    requires m.stepSec != 0
    ensures n >= 1 && (m.stepSec > 0 ==> m.horizon < (n + 1) * m.stepSec)
    ensures m.horizon >= m.stepSec > 0 ==> n * m.stepSec <= m.horizon
  {
    var n := TruncDiv(m.horizon, m.stepSec);
    if n <= 0 then 1 else n
  }

  function PresentValues(rows: seq<Row>): seq<real> {
    if rows == [] then []
    else
      var n := |rows| - 1;
      PresentValues(rows[..n]) + if "value" in rows[n] then [rows[n]["value"]] else []
  }

  /** Seconds from the last value to forecast step i. */
  function Ahead(m: Model, i: nat): int {
    (i + 1) * m.stepSec
  }

  method ExtractPresent(rows: seq<Row>) returns (values: seq<real>)
    ensures values == PresentValues(rows)
  {
    values := [];
    for i := 0 to |rows|
      invariant values == PresentValues(rows[..i])
    {
      assert rows[..i + 1][..i] == rows[..i];
      if "value" in rows[i] {
        values := values + [rows[i]["value"]];
      }
    }
    assert rows[..|rows|] == rows;
  }

  method FollowTrend(m: Model, values: seq<real>, minute: int, hour: int) returns (forecast: seq<real>)
    requires m.stepSec != 0 && |values| > 0
    ensures |forecast| == Steps(m)
    ensures forall i | 0 <= i < Steps(m) :: forecast[i] == ForecastAt(m, values, minute, hour, Ahead(m, i))
  {
    hide MomentumOf, TrendOf, Blend, PatternAt, Extrapolated, PatternValue, Ahead;
    var current := values[|values| - 1];
    var trend := DetectTrend(values);
    var momentum := DetectMomentum(values);
    forecast := [];
    for i := 0 to Steps(m)
      invariant |forecast| == i
      invariant forall j | 0 <= j < i :: forecast[j] == ForecastAt(m, values, minute, hour, Ahead(m, j))
    {
      var base := Extrapolated(current, trend, momentum, Ahead(m, i) as real);
      var at := PatternAt(m, minute, hour, Ahead(m, i));
      var final := base;
      if at.Found? {
        final := Blend(base, PatternValue(at.pattern, momentum));
      }
      if final < 0.0 {
        final := 0.0;
      }
      forecast := forecast + [final];
    }
  }

  datatype Outcome = NoFeatures | NoValues | DividedByZero | Forecasted(values: seq<real>, quantiles: QuantileMap)

  method Predict(m: Model, rows: seq<Row>) returns (outcome: Outcome)
    ensures outcome.NoFeatures? <==> |rows| == 0
    ensures outcome.NoValues? <==> |rows| > 0 && PresentValues(rows) == []
    ensures outcome.DividedByZero? <==> |rows| > 0 && PresentValues(rows) != [] && m.stepSec == 0
    ensures outcome.Forecasted? ==>
      var values, last := PresentValues(rows), rows[|rows| - 1];
      var minute, hour := FieldOr(last, "minute", -1), FieldOr(last, "hour", -1);
      && |outcome.values| == Steps(m)
      && (forall i | 0 <= i < Steps(m) :: outcome.values[i] == ForecastAt(m, values, minute, hour, Ahead(m, i)))
      && outcome.quantiles == Emitted(outcome.values, m.sigma, Flat(Steps(m)))
  {
    hide PresentValues, ForecastAt, Steps, Ahead, Emitted, FieldOr;
    if |rows| == 0 {
      return NoFeatures;
    }
    var values := ExtractPresent(rows);
    if |values| == 0 {
      return NoValues;
    }
    if m.stepSec == 0 {
      return DividedByZero;
    }
    var last := rows[|rows| - 1];
    var forecast := FollowTrend(m, values, FieldOr(last, "minute", -1), FieldOr(last, "hour", -1));
    var quantiles := Emit(forecast, m.sigma, Flat(Steps(m)));
    outcome := Outcome.Forecasted(forecast, quantiles);
  }

  // ----- what the forecast satisfies

  /** Whatever the ratio, the blend lies between the extrapolation and the seasonal value. */
  lemma BlendBetween(base: real, seasonal: real)
    ensures base <= Blend(base, seasonal) <= seasonal || seasonal <= Blend(base, seasonal) <= base
  {
    var w, d := SeasonalWeight(base, seasonal), seasonal - base;
    hide SeasonalWeight;
    BlendForm(base, seasonal, w);
    Shrinks(w, Abs(d));
    if d < 0.0 {
      Negate(w, d);
    }
  }

  /** Upward momentum lifts the seasonal value towards the observed maximum, never past it. */
  lemma PatternValueBetween(p: Pattern, values: seq<real>, momentum: real)
    requires Summarises(p, values)
    ensures p.mean <= PatternValue(p, momentum) <= p.max
    ensures momentum <= 0.0 ==> PatternValue(p, momentum) == p.mean
    ensures momentum > 0.0 ==> 10.0 * PatternValue(p, momentum) == 7.0 * p.mean + 3.0 * p.max
  {
  }

  lemma BlendForm(base: real, seasonal: real, w: real)
    ensures Mix(w, base, seasonal) == base + Mul(w, seasonal - base)
  {
  }

  /** On an affine history of two or more points and no applicable pattern, the forecast is exactly the
      non-negative part of the same line continued (minutes being the unit of the history). */
  lemma AffineForecast(m: Model, values: seq<real>, a: real, b: real, minute: int, hour: int, secondsAhead: int)
    requires |values| >= 2 && Affine(values, a, b) && PatternAt(m, minute, hour, secondsAhead).Missing?
    ensures ForecastAt(m, values, minute, hour, secondsAhead)
         == Clamp0(a + Mul(b, ((|values| - 1) as real) + (secondsAhead as real) / 60.0))
  {
    var n, t := |values|, secondsAhead as real;
    assert values[n - 1] == a + Mul(b, (n - 1) as real);
    AffineTrend(values, a, b);
    AffineMomentum(values, a, b);
    hide MomentumOf, TrendOf, PatternAt, Affine;
    ContinueLine(a, b, (n - 1) as real, t);
  }

  lemma ContinueLine(a: real, b: real, n: real, t: real)
    ensures Extrapolated(a + Mul(b, n), b / 60.0, 0.0, t) == a + Mul(b, n + t / 60.0)
  {
    assert Mul(b / 60.0, t) == Mul(b, t / 60.0);
    Distribute(b, n, t / 60.0);
    assert Mul(0.5 * 0.0, Mul(t, t)) == 0.0;
  }

  /** With a 60-second step, step i of the forecast is point n + i of the line. */
  lemma AffineMinutes(m: Model, values: seq<real>, a: real, b: real, minute: int, hour: int, i: nat)
    requires m.stepSec == 60 && m.minutes == map[] && m.hours == map[]
    requires |values| >= 2 && Affine(values, a, b)
    ensures ForecastAt(m, values, minute, hour, Ahead(m, i)) == Clamp0(a + Mul(b, (|values| + i) as real))
  {
    hide Affine, ForecastAt, Mul;
    AffineForecast(m, values, a, b, minute, hour, Ahead(m, i));
    assert ((|values| - 1) as real) + (((i + 1) * 60) as real) / 60.0 == (|values| + i) as real;
  }

  /** The extrapolation is the parabola through the last value with the trend as its slope there and the
      momentum, per minute, as its curvature. */
  lemma ParabolaIsTrendAndMomentum(current: real, trend: real, momentum: real, t: real)
    ensures var after, before := Extrapolated(current, trend, momentum, t), Extrapolated(current, trend, momentum, -t);
            && after - before == 2.0 * Mul(trend, t)
            && 60.0 * (after + before - 2.0 * current) == Mul(momentum, Mul(t, t))
  {
    Negate(trend, t);
    Negate(t, t);
    var square := Mul(t, t);
    assert Mul(0.5 * momentum, square) == 0.5 * Mul(momentum, square);
    hide Mul;
  }

  /** Which share the seasonal value gets, without the ratio: for a base above -1 it depends on where the
      seasonal value lies among 0.8, 1.2 and 1.5 times base + 1. */
  lemma BlendBands(base: real, seasonal: real)
    requires base > -1.0
    ensures var unit, r := base + 1.0, 10.0 * Blend(base, seasonal);
            && (seasonal > 1.5 * unit ==> r == 2.0 * base + 8.0 * seasonal)
            && (1.2 * unit < seasonal <= 1.5 * unit ==> r == 3.0 * base + 7.0 * seasonal)
            && (0.8 * unit <= seasonal <= 1.2 * unit ==> r == 5.0 * base + 5.0 * seasonal)
            && (seasonal < 0.8 * unit ==> r == 4.0 * base + 6.0 * seasonal)
  {
    WeightBands(base, seasonal);
    assert 10.0 * Mix(0.8, base, seasonal) == 2.0 * base + 8.0 * seasonal;
    assert 10.0 * Mix(0.7, base, seasonal) == 3.0 * base + 7.0 * seasonal;
    assert 10.0 * Mix(0.6, base, seasonal) == 4.0 * base + 6.0 * seasonal;
    assert 10.0 * Mix(0.5, base, seasonal) == 5.0 * base + 5.0 * seasonal;
    hide Mix, SeasonalWeight;
  }

  lemma WeightBands(base: real, seasonal: real)
    requires base > -1.0
    ensures var unit, w := base + 1.0, SeasonalWeight(base, seasonal);
            && (seasonal > 1.5 * unit ==> w == 0.8) && (1.2 * unit < seasonal <= 1.5 * unit ==> w == 0.7)
            && (0.8 * unit <= seasonal <= 1.2 * unit ==> w == 0.5) && (seasonal < 0.8 * unit ==> w == 0.6)
  {
    RatioIff(seasonal, base + 1.0, 1.5);
    RatioIff(seasonal, base + 1.0, 1.2);
    RatioIff(seasonal, base + 1.0, 0.8);
    hide Ratio;
  }

  lemma RatioIff(x: real, u: real, b: real)
    requires u > 0.0
    ensures Ratio(x, u) > b <==> x > b * u
    ensures Ratio(x, u) < b <==> x < b * u
  {
    var a := Ratio(x, u);
    assert a * u == x;
    if a > b {
      Product0(a - b, u);
    } else if a < b {
      Product0(b - a, u);
    }
  }

  /** Minute patterns are read at the current minute and move on by one minute per 60 seconds, around the
      hour; they are preferred to hour patterns. */
  lemma MinuteLookup(m: Model, minute: int, hour: int, secondsAhead: nat)
    requires minute >= 0
    ensures minute < 60 && minute in m.minutes ==> PatternAt(m, minute, hour, 0) == Found(m.minutes[minute])
    ensures m.hours == map[] ==>
      PatternAt(m, minute, hour, secondsAhead + 60) == PatternAt(m, (minute + 1) % 60, hour, secondsAhead)
  {
    MinuteBucket(minute, secondsAhead);
    hide Bucket;
  }

  /** Hour patterns stand in where there is no minute pattern, one hour per 3600 seconds, around the day. */
  lemma HourLookup(m: Model, minute: int, hour: int, secondsAhead: nat)
    requires hour >= 0 && m.minutes == map[]
    ensures hour < 24 && hour in m.hours ==> PatternAt(m, minute, hour, 0) == Found(m.hours[hour])
    ensures PatternAt(m, minute, hour, secondsAhead + 3600) == PatternAt(m, minute, (hour + 1) % 24, secondsAhead)
  {
    HourBucket(hour, secondsAhead);
    hide Bucket;
  }

  lemma BucketIs(now: nat, secondsAhead: nat, unit: nat, n: nat)
    requires unit > 0 && n > 0
    ensures Bucket(now, secondsAhead, unit, n) == (now + secondsAhead / unit) % n
  {
    RemIsMod(now + secondsAhead / unit, n);
    hide TruncRem;
  }

  lemma RemIsMod(a: nat, n: nat)
    requires n > 0
    ensures TruncRem(a, n) == a % n
  {
  }

  lemma MinuteBucket(minute: nat, secondsAhead: nat)
    ensures minute < 60 ==> Bucket(minute, 0, 60, 60) == minute
    ensures Bucket(minute, secondsAhead + 60, 60, 60) == Bucket((minute + 1) % 60, secondsAhead, 60, 60)
  {
    hide Bucket;
    BucketIs(minute, 0, 60, 60);
    BucketIs(minute, secondsAhead + 60, 60, 60);
    BucketIs((minute + 1) % 60, secondsAhead, 60, 60);
    NextWrap(minute, secondsAhead / 60, 60);
  }

  lemma HourBucket(hour: nat, secondsAhead: nat)
    ensures hour < 24 ==> Bucket(hour, 0, 3600, 24) == hour
    ensures Bucket(hour, secondsAhead + 3600, 3600, 24) == Bucket((hour + 1) % 24, secondsAhead, 3600, 24)
  {
    hide Bucket;
    BucketIs(hour, 0, 3600, 24);
    BucketIs(hour, secondsAhead + 3600, 3600, 24);
    BucketIs((hour + 1) % 24, secondsAhead, 3600, 24);
    NextWrap(hour, secondsAhead / 3600, 24);
  }

  lemma NextWrap(now: int, q: int, n: int)
    requires n == 60 || n == 24
    ensures (now + q + 1) % n == ((now + 1) % n + q) % n
  {
    if n == 60 {
      var t := (now + 1) / 60;
      assert now + 1 == 60 * t + (now + 1) % 60;
      Wrap60((now + 1) % 60 + q, t);
    } else {
      var t := (now + 1) / 24;
      assert now + 1 == 24 * t + (now + 1) % 24;
      Wrap24((now + 1) % 24 + q, t);
    }
  }

  lemma Wrap60(x: int, t: int)
    ensures (x + 60 * t) % 60 == x % 60
  {
  }

  lemma Wrap24(x: int, t: int)
    ensures (x + 24 * t) % 24 == x % 24
  {
  }

  /** The values are those of the rows that have one, in order. */
  lemma {:induction false} PresentConcat(a: seq<Row>, b: seq<Row>)
    ensures PresentValues(a + b) == PresentValues(a) + PresentValues(b)
    decreases |b|
  {
    if b == [] {
      assert a + b == a;
    } else {
      var n := |b| - 1;
      PresentConcat(a, b[..n]);
      assert (a + b)[..|a| + n] == a + b[..n];
    }
  }

  lemma PresentSingle(row: Row)
    ensures PresentValues([row]) == if "value" in row then [row["value"]] else []
  {
    assert [row][..0] == [];
  }

  /** Forecast steps are one model step apart, the first one step ahead. */
  lemma AheadSteps(m: Model, i: nat)
    ensures Ahead(m, 0) == m.stepSec && Ahead(m, i + 1) - Ahead(m, i) == m.stepSec
  {
  }

  lemma SpikeBlend(base: real, p: Pattern, momentum: real)
    requires base >= 0.0 && p.mean > 1.5 * (base + 1.0) && p.max >= p.mean
    ensures var seasonal := if momentum > 0.0 then 0.7 * p.mean + 0.3 * p.max else p.mean;
            10.0 * Clamp0(Blend(base, PatternValue(p, momentum))) == 2.0 * base + 8.0 * seasonal > 0.0
  {
    BlendBands(base, PatternValue(p, momentum));
    hide Blend;
  }

  /** The extrapolation a forecast starts from. */
  function BaseAt(values: seq<real>, secondsAhead: int): real
    requires |values| > 0
  {
    Extrapolated(values[|values| - 1], TrendOf(values), MomentumOf(values), secondsAhead as real)
  }

  /** Where a pattern applies it is blended in: a pattern mean of more than 1.5 times base + 1, on a base that is
      not negative, gets a share of eight tenths, lifted towards the pattern's maximum while momentum is up. */
  lemma SpikeForecast(m: Model, values: seq<real>, minute: int, hour: int, secondsAhead: int)
    requires |values| > 0 && PatternAt(m, minute, hour, secondsAhead).Found?
    requires var base, p := BaseAt(values, secondsAhead), PatternAt(m, minute, hour, secondsAhead).pattern;
             base >= 0.0 && p.mean > 1.5 * (base + 1.0) && p.max >= p.mean
    ensures var base, p := BaseAt(values, secondsAhead), PatternAt(m, minute, hour, secondsAhead).pattern;
            var seasonal := if MomentumOf(values) > 0.0 then 0.7 * p.mean + 0.3 * p.max else p.mean;
            10.0 * ForecastAt(m, values, minute, hour, secondsAhead) == 2.0 * base + 8.0 * seasonal > 0.0
  {
    var base, p := BaseAt(values, secondsAhead), PatternAt(m, minute, hour, secondsAhead).pattern;
    var seasonal := PatternValue(p, MomentumOf(values));
    assert ForecastAt(m, values, minute, hour, secondsAhead) == Clamp0(Blend(base, seasonal));
    hide *;
    SpikeBlend(base, p, MomentumOf(values));
  }
}
