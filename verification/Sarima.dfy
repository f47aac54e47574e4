/** pkg/models/sarima.go: the SARIMA model object. */
module Sarima {
  import opened RealSums
  import opened TimeSeries
  import opened AutoRegression
  import opened Fitting
  import opened DampedForecast
  import opened Quantiles
  import opened Models

  function SeasonalDiff1(x: seq<real>, s: nat): seq<real>
    requires s <= |x|
  {
    seq(|x| - s, i requires 0 <= i < |x| - s => x[i + s] - x[i])
  }

  function SeasonalDiff(x: seq<real>, D: nat, s: int): seq<real>
    decreases D
  {
    if D == 0 || s <= 0 || |x| <= s then x else SeasonalDiff(SeasonalDiff1(x, s), D - 1, s)
  }

  method SeasonalDifference(x: seq<real>, D: nat, s: int) returns (result: seq<real>)
    ensures result == SeasonalDiff(x, D, s)
    decreases D
  {
    if D == 0 || s <= 0 || |x| <= s {
      return x;
    }
    result := [];
    for i := 0 to |x| - s
      invariant |result| == i
      invariant forall k | 0 <= k < i :: result[k] == x[k + s] - x[k]
    {
      result := result + [x[i + s] - x[i]];
    }
    assert result == SeasonalDiff1(x, s);
    if D > 1 {
      result := SeasonalDifference(result, D - 1, s);
    } else {
      assert SeasonalDiff(result, 0, s) == result;
    }
  }

  function DiffEntry(x: seq<real>): int -> real
    requires |x| >= 1
  {
    Entry(Diff1(x))
  }

  /** A seasonal difference is the sum of the ordinary differences of one season. */
  lemma {:induction false} SeasonalDiffSums(x: seq<real>, s: nat, i: nat)
    requires i + s < |x|
    ensures SeasonalDiff1(x, s)[i] == Sum(i, i + s, DiffEntry(x))
  {
    DiffTelescopes(x, i, i + s);
  }

  /** It vanishes exactly on series that repeat with the season. */
  lemma SeasonalDiffZeroIff(x: seq<real>, s: nat)
    requires s <= |x|
    ensures (forall i | 0 <= i < |x| - s :: SeasonalDiff1(x, s)[i] == 0.0)
       <==> forall i | 0 <= i < |x| - s :: x[i] == x[i + s]
  {
    assert forall i | 0 <= i < |x| - s :: SeasonalDiff1(x, s)[i] == x[i + s] - x[i];
  }

  function Max(a: nat, b: nat): nat {
    if a > b then a else b
  }

  datatype Orders = Orders(p: nat, d: nat, q: nat, P: nat, D: nat, Q: nat, s: int) {
    /** What the constructor accepts after defaulting zero orders to one. */
    ghost predicate Valid() {
      && p >= 1 && 1 <= d <= 2 && q >= 1 && D <= 1
      && (P > 0 || D > 0 || Q > 0 ==> s > 0)
    }

    /** The season as a stride; a season of zero or less never reaches a seasonal loop. */
    function Season(): nat {
      if s > 0 then s else 1
    }

    /** s*P when there is a season. */
    function SeasonalSpan(k: nat): nat {
      if s > 0 then Lag(k, s) else 0
    }

    function MinPoints(): nat {
      var nonSeasonal := Max(p + d, q + d);
      var seasonal :=
        if s > 0 then
          var m := Max(SeasonalSpan(P) + SeasonalSpan(D), SeasonalSpan(Q) + SeasonalSpan(D));
          if D > 0 || P > 0 || Q > 0 then Max(m, 2 * s) else m
        else 0;
      Max(Max(nonSeasonal, seasonal), 20)
    }

    function Stationary(values: seq<real>): seq<real> {
      var x := Diff(values, d);
      if D > 0 && s > 0 then SeasonalDiff(x, D, s) else x
    }

    /** Where the residuals start. */
    function Start(): nat {
      Max(p, SeasonalSpan(P))
    }

    function ErrorsNeeded(): nat {
      Max(q, SeasonalSpan(Q))
    }

    /** How many residuals training on n values yields. */
    function ResidualCount(n: nat): nat {
      var m := n - d - SeasonalSpan(D);
      if m <= Start() then 0 else m - Start()
    }

    lemma StationaryLength(values: seq<real>)
      requires Valid() && |values| >= MinPoints()
      ensures |Stationary(values)| == |values| - d - SeasonalSpan(D)
    {
      DiffLength(values, d);
      if D > 0 && s > 0 {
        OneSeason(s);
        var x := Diff(values, d);
        assert |x| > s by {
          assert |values| >= 20 && |values| >= 2 * s;
        }
        assert SeasonalDiff(SeasonalDiff1(x, s), 0, s) == SeasonalDiff1(x, s);
      } else if s > 0 {
        NoSeason(s);
      }
    }
  }

  lemma OneSeason(s: nat)
    ensures Lag(1, s) == s
  {
  }

  lemma NoSeason(s: nat)
    ensures Lag(0, s) == 0
  {
  }

  datatype Fitted = Fitted(
    arCoeffs: seq<real>, maCoeffs: seq<real>, seasonalARCoeffs: seq<real>, seasonalMACoeffs: seq<real>,
    mean: real, lastValues: seq<real>, lastErrors: seq<real>, residualStdDev: real)

  ghost predicate SeasonalArFitted(o: Orders, centered: seq<real>, sar: seq<real>) {
    && |sar| == o.P
    && (o.P > 0 && o.s > 0 && Constant(centered) ==> sar == Fallback(o.P, 0.3))
    && (o.P > 0 && o.s > 0 && !Constant(centered) ==> LeastSquares(centered, o.s, sar))
  }

  ghost predicate SeasonalMaFitted(o: Orders, e: seq<real>, sma: seq<real>) {
    && |sma| == (if |e| == 0 then 0 else o.Q)
    && forall i | 0 <= i < |sma| :: sma[i] == Autocorr(e, Lag(i + 1, o.Season()))
  }

  /** The residuals of a fit. */
  function Errors(f: Fitted, o: Orders, values: seq<real>): seq<real> {
    Residuals(Deviations(o.Stationary(values)), f.arCoeffs, f.seasonalARCoeffs, o.Season(), o.Start())
  }

  ghost predicate FitsSeries(f: Fitted, o: Orders, stationary: seq<real>) {
    && f.mean == Mean(stationary)
    && ArFitted(Deviations(stationary), o.p, f.arCoeffs)
    && SeasonalArFitted(o, Deviations(stationary), f.seasonalARCoeffs)
  }

  ghost predicate FitsErrors(f: Fitted, o: Orders, e: seq<real>) {
    && MaFitted(e, o.q, f.maCoeffs)
    && SeasonalMaFitted(o, e, f.seasonalMACoeffs)
    && ResidualSpread(e, f.residualStdDev)
  }

  /** The last n entries, or all when there are fewer. */
  function LastOf(x: seq<real>, n: nat): (r: seq<real>)
    ensures |r| == if n <= |x| then n else |x|
  {
    if n <= |x| then x[|x| - n..] else x
  }

  /** The last values, and the last errors when there are enough; otherwise the errors stored before
      (`kept`) stay. */
  predicate KeepsTail(f: Fitted, o: Orders, values: seq<real>, e: seq<real>, kept: seq<real>) {
    && f.lastValues == LastOf(values, o.Start())
    && f.lastErrors == (if |e| >= o.ErrorsNeeded() then LastOf(e, o.ErrorsNeeded()) else kept)
  }

  /** What training on these values leaves. */
  ghost predicate Describes(f: Fitted, o: Orders, values: seq<real>, kept: seq<real>) {
    && FitsSeries(f, o, o.Stationary(values))
    && FitsErrors(f, o, Errors(f, o, values))
    && KeepsTail(f, o, values, Errors(f, o, values), kept)
  }

  method FitSeasonal(stationary: seq<real>, o: Orders)
    returns (m: real, centered: seq<real>, ar: seq<real>, sar: seq<real>)
    requires o.Valid()
    ensures m == Mean(stationary) && centered == Deviations(stationary)
    ensures ArFitted(centered, o.p, ar) && SeasonalArFitted(o, centered, sar)
  {
    hide Mean, Deviations, Variance, LeastSquares, Fallback, Constant;
    m, centered, ar := FitCentred(stationary, o.p);
    sar := [];
    if o.P > 0 && o.s > 0 {
      sar := FitSeasonalAR(centered, o.P, o.s);
      CentredTwice(stationary);
    }
  }

  method FitSeasonalErrors(e: seq<real>, o: Orders) returns (sma: seq<real>)
    requires o.Valid()
    ensures SeasonalMaFitted(o, e, sma)
  {
    hide Autocorr;
    sma := [];
    if o.Q > 0 && o.s > 0 {
      sma := FitSeasonalMA(e, o.Q, o.s);
    }
  }

  lemma EnoughValues(o: Orders, n: nat)
    requires o.Valid() && n >= o.MinPoints()
    ensures o.Start() <= n
  {
  }

  lemma ArLengths(o: Orders, centered: seq<real>, ar: seq<real>, sar: seq<real>)
    requires o.Valid() && ArFitted(centered, o.p, ar) && SeasonalArFitted(o, centered, sar)
    ensures |ar| == o.p && |sar| == o.P
    ensures Lag(|sar|, o.Season()) <= o.Start()
  {
  }

  method MakeStationary(values: seq<real>, o: Orders) returns (stationary: seq<real>)
    ensures stationary == o.Stationary(values)
  {
    stationary := Difference(values, o.d);
    if o.D > 0 && o.s > 0 {
      stationary := SeasonalDifference(stationary, o.D, o.s);
    }
  }

  method Tail(values: seq<real>, e: seq<real>, o: Orders, kept: seq<real>)
    returns (lastValues: seq<real>, lastErrors: seq<real>)
    requires o.Start() <= |values| && o.ErrorsNeeded() > 0
    ensures lastValues == LastOf(values, o.Start())
    ensures lastErrors == if |e| >= o.ErrorsNeeded() then LastOf(e, o.ErrorsNeeded()) else kept
  {
    hide Orders.Start, Orders.ErrorsNeeded;
    lastValues := values[|values| - o.Start()..];
    lastErrors := kept;
    if o.ErrorsNeeded() > 0 && o.ErrorsNeeded() <= |e| {
      lastErrors := e[|e| - o.ErrorsNeeded()..];
    }
  }

  /** The autoregressive half of the fit, with the residuals it leaves. */
  method FitSeries(values: seq<real>, o: Orders)
    returns (mean: real, ar: seq<real>, sar: seq<real>, e: seq<real>)
    requires o.Valid()
    ensures mean == Mean(o.Stationary(values))
    ensures ArFitted(Deviations(o.Stationary(values)), o.p, ar)
    ensures SeasonalArFitted(o, Deviations(o.Stationary(values)), sar)
    ensures e == Residuals(Deviations(o.Stationary(values)), ar, sar, o.Season(), o.Start())
  {
    SeasonPositive(o);
    hide Mean, Deviations, ArFitted, SeasonalArFitted, Residuals, Lag, Orders.Stationary, Orders.Season, Orders.Start;
    var stationary := MakeStationary(values, o);
    var centered;
    mean, centered, ar, sar := FitSeasonal(stationary, o);
    ArLengths(o, centered, ar, sar);
    e := ComputeResiduals(centered, ar, sar, o.Season(), o.Start());
  }

  /** The moving-average half. */
  method FitMoving(e: seq<real>, o: Orders, sqrt: real -> real) returns (ma: seq<real>, sma: seq<real>, sigma: real)
    requires o.Valid() && IsSqrt(sqrt)
    ensures MaFitted(e, o.q, ma) && SeasonalMaFitted(o, e, sma) && ResidualSpread(e, sigma)
  {
    hide MaFitted, SeasonalMaFitted, ResidualSpread, IsSqrt;
    ma := FitErrors(e, o.q);
    sma := FitSeasonalErrors(e, o);
    sigma := ComputeSpread(e, sqrt);
  }

  method Fit(values: seq<real>, o: Orders, kept: seq<real>, sqrt: real -> real) returns (f: Fitted)
    requires o.Valid() && |values| >= o.MinPoints() && IsSqrt(sqrt)
    ensures Describes(f, o, values, kept)
  {
    EnoughValues(o, |values|);
    ErrorsPositive(o);
    hide *;
    var mean, ar, sar, e := FitSeries(values, o);
    var ma, sma, sigma := FitMoving(e, o, sqrt);
    var lastValues, lastErrors := Tail(values, e, o, kept);
    f := Fitted(ar, ma, sar, sma, mean, lastValues, lastErrors, sigma);
    Assembled(f, o, values, e, kept);
  }

  lemma Assembled(f: Fitted, o: Orders, values: seq<real>, e: seq<real>, kept: seq<real>)
    requires f.mean == Mean(o.Stationary(values))
    requires ArFitted(Deviations(o.Stationary(values)), o.p, f.arCoeffs)
    requires SeasonalArFitted(o, Deviations(o.Stationary(values)), f.seasonalARCoeffs)
    requires e == Residuals(Deviations(o.Stationary(values)), f.arCoeffs, f.seasonalARCoeffs, o.Season(), o.Start())
    requires MaFitted(e, o.q, f.maCoeffs) && SeasonalMaFitted(o, e, f.seasonalMACoeffs)
    requires ResidualSpread(e, f.residualStdDev)
    requires f.lastValues == LastOf(values, o.Start())
    requires f.lastErrors == if |e| >= o.ErrorsNeeded() then LastOf(e, o.ErrorsNeeded()) else kept
    ensures Describes(f, o, values, kept)
  {
    hide Mean, Deviations, ArFitted, SeasonalArFitted, MaFitted, SeasonalMaFitted, ResidualSpread, Residuals, LastOf,
         Orders.Stationary, Orders.Season, Orders.Start, Orders.ErrorsNeeded;
  }

  lemma ErrorsPositive(o: Orders)
    requires o.Valid()
    ensures o.ErrorsNeeded() >= 1
  {
  }

  lemma SeasonPositive(o: Orders)
    requires o.Valid()
    ensures o.Season() >= 1 && o.p <= o.Start()
  {
  }

  // ----- over a whole history of training runs

  /** The number of stored errors after training runs that yielded these residual counts, given that a
      run stores errors only when it has at least `need` of them. */
  function StoredErrors(counts: seq<nat>, need: nat): nat {
    if counts == [] then 0
    else if counts[|counts| - 1] >= need then need
    else StoredErrors(counts[..|counts| - 1], need)
  }

  /** Errors are in store exactly when some run so far had enough residuals. */
  lemma {:induction false} StoredIff(counts: seq<nat>, need: nat)
    requires need >= 1
    ensures StoredErrors(counts, need) == if exists i | 0 <= i < |counts| :: counts[i] >= need then need else 0
  {
    if counts != [] {
      var front := counts[..|counts| - 1];
      StoredIff(front, need);
      assert forall i | 0 <= i < |front| :: front[i] == counts[i];
    }
  }

  /** The last run had no residual at all, but an earlier one had at least `need`. */
  ghost predicate StaleErrors(counts: seq<nat>, need: nat) {
    && |counts| >= 1
    && counts[|counts| - 1] == 0
    && exists i | 0 <= i < |counts| - 1 :: counts[i] >= need
  }

  lemma StaleIff(counts: seq<nat>, need: nat)
    requires need >= 1 && |counts| >= 1
    ensures var k := |counts| - 1;
            StaleErrors(counts, need) <==> !(counts[k] > 0 || StoredErrors(counts[..k], need) == 0)
  {
    var k := |counts| - 1;
    StoredIff(counts[..k], need);
    assert forall i | 0 <= i < k :: counts[..k][i] == counts[i];
  }

  /** The last published run had no residual at all, but it, an earlier one or the run now under way had
      at least `need`. */
  ghost predicate TornErrors(counts: seq<nat>, next: nat, need: nat) {
    && |counts| >= 1
    && counts[|counts| - 1] == 0
    && (next >= need || exists i | 0 <= i < |counts| :: counts[i] >= need)
  }

  lemma TornIff(counts: seq<nat>, next: nat, need: nat)
    requires need >= 1 && |counts| >= 1
    ensures TornErrors(counts, next, need)
       <==> counts[|counts| - 1] == 0 && StoredErrors(counts + [next], need) != 0
  {
    assert (counts + [next])[..|counts|] == counts;
    StoredIff(counts, need);
  }

  /** Which history lengths are accepted, one requirement at a time. */
  lemma AcceptedIff(o: Orders, n: nat)
    requires o.Valid()
    ensures n >= o.MinPoints() <==>
      && n >= 20 && n >= o.p + o.d && n >= o.q + o.d
      && (o.s > 0 ==> n >= o.s * (o.P + o.D) && n >= o.s * (o.Q + o.D))
      && (o.P > 0 || o.D > 0 || o.Q > 0 ==> n >= 2 * o.s)
  {
    if o.s > 0 {
      SpanSum(o.s, o.P, o.D);
      SpanSum(o.s, o.Q, o.D);
    }
    hide Lag;
  }

  lemma SpanSum(s: nat, j: nat, k: nat)
    ensures Lag(j, s) + Lag(k, s) == s * (j + k)
  {
  }

  /** Some accepted history yields no residual exactly when the shortest one does. */
  lemma NoResidualsIff(o: Orders)
    ensures (exists n: nat | n >= o.MinPoints() :: o.ResidualCount(n) == 0)
       <==> o.MinPoints() <= o.d + o.SeasonalSpan(o.D) + o.Start()
  {
    if o.MinPoints() <= o.d + o.SeasonalSpan(o.D) + o.Start() {
      assert o.ResidualCount(o.MinPoints()) == 0;
    }
  }

  /** SARIMA(1,1,1)(1,1,1,10): training on 40 values stores errors, retraining on 20 leaves no residual,
      and the errors are stale. In the other order they are torn while the second run is under way. */
  lemma StaleExample()
    ensures var o := Orders(1, 1, 1, 1, 1, 1, 10);
            && o.Valid() && o.MinPoints() == 20
            && StaleErrors([o.ResidualCount(40), o.ResidualCount(20)], o.ErrorsNeeded())
            && TornErrors([o.ResidualCount(20)], o.ResidualCount(40), o.ErrorsNeeded())
  {
    var o := Orders(1, 1, 1, 1, 1, 1, 10);
    OneSeason(10);
    assert o.SeasonalSpan(1) == 10 && o.ErrorsNeeded() == 10;
    var counts := [o.ResidualCount(40), o.ResidualCount(20)];
    assert counts[0] == 19 && counts[1] == 0;
  }

  /** last is the final n entries of x, in order. */
  ghost predicate EndsAlike(last: seq<real>, x: seq<real>, n: int) {
    |last| == n <= |x| && forall i | 0 <= i < n :: last[i] == x[|x| - n + i]
  }

  lemma LastOfEnds(x: seq<real>, n: nat)
    requires n <= |x|
    ensures EndsAlike(LastOf(x, n), x, n)
  {
  }

  lemma BaseOfEnd(last: seq<real>, x: seq<real>, n: nat)
    requires EndsAlike(last, x, n) && n >= 1
    ensures Base(last) == x[|x| - 1]
  {
  }

  /** Training keeps the last max(p, sP) values, so Predict starts from the last of them, and the last
      max(q, sQ) residuals when there are that many. */
  lemma TailKept(f: Fitted, o: Orders, values: seq<real>, kept: seq<real>)
    requires o.Valid() && |values| >= o.MinPoints() && Describes(f, o, values, kept)
    ensures EndsAlike(f.lastValues, values, if o.s * o.P > o.p then o.s * o.P else o.p)
    ensures Base(f.lastValues) == values[|values| - 1]
    ensures var e, need := Errors(f, o, values), if o.s * o.Q > o.q then o.s * o.Q else o.q;
            if |e| >= need then EndsAlike(f.lastErrors, e, need) else f.lastErrors == kept
  {
    EnoughValues(o, |values|);
    TailLengths(o);
    var e := Errors(f, o, values);
    assert KeepsTail(f, o, values, e, kept);
    assert o.p >= 1;
    hide *;
    KeptTail(f, o, values, e, kept);
    BaseOfEnd(f.lastValues, values, o.Start());
  }

  lemma KeptTail(f: Fitted, o: Orders, values: seq<real>, e: seq<real>, kept: seq<real>)
    requires o.Start() <= |values| && KeepsTail(f, o, values, e, kept)
    ensures EndsAlike(f.lastValues, values, o.Start())
    ensures if |e| >= o.ErrorsNeeded() then EndsAlike(f.lastErrors, e, o.ErrorsNeeded()) else f.lastErrors == kept
  {
    hide LastOf, EndsAlike, Orders.Start, Orders.ErrorsNeeded;
    LastOfEnds(values, o.Start());
    if |e| >= o.ErrorsNeeded() {
      LastOfEnds(e, o.ErrorsNeeded());
    }
  }

  lemma TailLengths(o: Orders)
    requires o.Valid()
    ensures o.p <= o.Start() == if o.s * o.P > o.p then o.s * o.P else o.p
    ensures o.ErrorsNeeded() == if o.s * o.Q > o.q then o.s * o.Q else o.q
  {
    SpanIsProduct(o, o.P);
    SpanIsProduct(o, o.Q);
    hide Orders.SeasonalSpan;
  }

  lemma SpanIsProduct(o: Orders, k: nat)
    requires k > 0 ==> o.s > 0
    ensures o.SeasonalSpan(k) == if o.s * k > 0 then o.s * k else 0
  {
  }

  // ----- which states Predict can read

  /** The lengths a run with this many residuals leaves. */
  predicate HasLengths(f: Fitted, o: Orders, count: nat) {
    && |f.lastValues| == o.Start() && |f.arCoeffs| == o.p && |f.seasonalARCoeffs| == o.P
    && |f.maCoeffs| == (if count == 0 then 0 else o.q)
    && |f.seasonalMACoeffs| == (if count == 0 then 0 else o.Q)
  }

  /** Whether the first prediction step only reads coefficients that exist. */
  predicate Safe(f: Fitted, o: Orders) {
    && Min(o.p, |f.lastValues|) <= |f.arCoeffs|
    && SeasonSafe(f.seasonalARCoeffs, f.lastValues, o.P, o.Season())
    && Min(o.q, |f.lastErrors|) <= |f.maCoeffs|
    && SeasonSafe(f.seasonalMACoeffs, f.lastErrors, o.Q, o.Season())
  }

  /** Only the lengths matter: Predict is safe when the last run had residuals or no error is stored. */
  lemma SafeByLengths(f: Fitted, o: Orders, count: nat)
    requires o.Valid() && HasLengths(f, o, count)
    ensures Safe(f, o) <==> count > 0 || |f.lastErrors| == 0
  {
    hide Lag, Orders.Start;
  }

  lemma FittedLengths(f: Fitted, o: Orders, values: seq<real>, kept: seq<real>)
    requires o.Valid() && |values| >= o.MinPoints() && Describes(f, o, values, kept)
    ensures var c := o.ResidualCount(|values|);
            && HasLengths(f, o, c)
            && |f.lastErrors| == (if c >= o.ErrorsNeeded() then o.ErrorsNeeded() else |kept|)
  {
    EnoughValues(o, |values|);
    o.StationaryLength(values);
    assert |Errors(f, o, values)| == o.ResidualCount(|values|);
    hide Residuals, Deviations, Mean, Autocorr, LeastSquares, Lag, ResidualSpread, Variance, LastOf, Errors, Fallback,
         Constant, Orders.Stationary, Orders.ResidualCount, Orders.MinPoints, Orders.Start, Orders.ErrorsNeeded,
         Orders.Season;
  }

  /** What holds between training runs with these residual counts: errors are stored exactly when some run
      had enough of them, and the coefficients have the lengths of the last run. */
  ghost predicate Consistent(f: Fitted, o: Orders, counts: seq<nat>) {
    && |f.lastErrors| == StoredErrors(counts, o.ErrorsNeeded())
    && (counts != [] ==> HasLengths(f, o, counts[|counts| - 1]))
  }

  /** Between training runs Predict's indices leave their slices exactly when the last run had no
      residual at all but an earlier one had at least max(q, s*Q); so never after the first. */
  lemma SafeIff(f: Fitted, o: Orders, counts: seq<nat>)
    requires o.Valid() && Consistent(f, o, counts) && counts != []
    ensures Safe(f, o) <==> !StaleErrors(counts, o.ErrorsNeeded())
  {
    hide HasLengths, Safe, StaleErrors, Orders.Valid, Orders.ErrorsNeeded;
    ErrorsPositive(o);
    SafeByLengths(f, o, counts[|counts| - 1]);
    StaleIff(counts, o.ErrorsNeeded());
  }

  lemma StoredNext(counts: seq<nat>, c: nat, need: nat)
    ensures StoredErrors(counts + [c], need) == if c >= need then need else StoredErrors(counts, need)
  {
    assert (counts + [c])[..|counts|] == counts;
  }

  /** A run leaves a consistent state. */
  lemma ConsistentNext(f: Fitted, o: Orders, values: seq<real>, kept: seq<real>, counts: seq<nat>)
    requires o.Valid() && |values| >= o.MinPoints() && Describes(f, o, values, kept)
    requires |kept| == StoredErrors(counts, o.ErrorsNeeded())
    ensures Consistent(f, o, counts + [o.ResidualCount(|values|)])
  {
    hide Describes, HasLengths, StoredErrors, Orders.Valid, Orders.ErrorsNeeded, Orders.ResidualCount, Orders.MinPoints;
    FittedLengths(f, o, values, kept);
    StoredNext(counts, o.ResidualCount(|values|), o.ErrorsNeeded());
  }

  lemma KeptErrors(f: Fitted, o: Orders, counts: seq<nat>)
    requires Consistent(f, o, counts)
    ensures |f.lastErrors| == StoredErrors(counts, o.ErrorsNeeded())
  {
  }

  /** The state while a run has stored its tail but not yet its coefficients. */
  function Torn(published: Fitted, f: Fitted): Fitted {
    published.(lastValues := f.lastValues, lastErrors := f.lastErrors)
  }

  /** A Predict in that state leaves its slices exactly when the published run had no residual while it,
      an earlier one or the run under way has stored errors. */
  lemma TornSafeIff(published: Fitted, f: Fitted, o: Orders, values: seq<real>, counts: seq<nat>)
    requires o.Valid() && Consistent(published, o, counts) && counts != []
    requires |values| >= o.MinPoints() && Describes(f, o, values, published.lastErrors)
    ensures Safe(Torn(published, f), o) <==> !TornErrors(counts, o.ResidualCount(|values|), o.ErrorsNeeded())
  {
    FittedLengths(f, o, values, published.lastErrors);
    assert HasLengths(Torn(published, f), o, counts[|counts| - 1]);
    hide Describes, HasLengths, Safe, TornErrors, StoredErrors, Orders.Valid, Orders.ErrorsNeeded, Orders.ResidualCount,
         Orders.MinPoints;
    ErrorsPositive(o);
    SafeByLengths(Torn(published, f), o, counts[|counts| - 1]);
    StoredNext(counts, o.ResidualCount(|values|), o.ErrorsNeeded());
    TornIff(counts, o.ResidualCount(|values|), o.ErrorsNeeded());
  }

  class SarimaModel {
    const metric: string
    const stepSec: int
    const horizonSec: int
    const o: Orders

    var trained: bool
    var arCoeffs: seq<real>
    var maCoeffs: seq<real>
    var seasonalARCoeffs: seq<real>
    var seasonalMACoeffs: seq<real>
    var mean: real
    var lastValues: seq<real>
    var lastErrors: seq<real>
    var residualStdDev: real

    /** How many residuals each successful training run so far has had. */
    ghost var counts: seq<nat>

    ghost predicate Configured() {
      0 < stepSec <= horizonSec && o.Valid()
    }

    /** What every sequence of Train calls keeps. */
    ghost predicate Valid()
      reads this
    {
      Configured() && Consistent(State(), o, counts) && (trained <==> counts != [])
    }

    constructor (metric: string, stepSec: int, horizonSec: int, orders: Orders)
      requires metric != "" && 0 < stepSec <= horizonSec && orders.d <= 2 && orders.D <= 1
      requires orders.P > 0 || orders.D > 0 || orders.Q > 0 ==> orders.s > 0
      ensures Valid() && !trained && counts == []
      ensures this.metric == metric && this.stepSec == stepSec && this.horizonSec == horizonSec
      ensures o == orders.(p := if orders.p == 0 then 1 else orders.p,
                           d := if orders.d == 0 then 1 else orders.d,
                           q := if orders.q == 0 then 1 else orders.q)
    {
      this.metric, this.stepSec, this.horizonSec := metric, stepSec, horizonSec;
      o := orders.(p := if orders.p == 0 then 1 else orders.p,
                   d := if orders.d == 0 then 1 else orders.d,
                   q := if orders.q == 0 then 1 else orders.q);
      trained := false;
      arCoeffs, maCoeffs, seasonalARCoeffs, seasonalMACoeffs := [], [], [], [];
      mean, lastValues, lastErrors, residualStdDev := 0.0, [], [], 0.0;
      counts := [];
    }

    /** The fitted fields as one value. */
    function State(): Fitted
      reads this
    {
      Fitted(arCoeffs, maCoeffs, seasonalARCoeffs, seasonalMACoeffs, mean, lastValues, lastErrors, residualStdDev)
    }

    /** `kept` are the errors that were stored before training. */
    ghost predicate TrainedOn(values: seq<real>, kept: seq<real>)
      reads this
    {
      |values| >= o.MinPoints() && trained && Describes(State(), o, values, kept)
    }

    /** The first two assignments of Train, made before it takes the lock. */
    method StoreTail(f: Fitted)
      modifies this`lastValues, this`lastErrors
      ensures State() == Torn(old(State()), f)
    {
      lastValues := f.lastValues;
      lastErrors := f.lastErrors;
    }

    /** The assignments under the lock. */
    method Publish(f: Fitted, ghost count: nat)
      requires lastValues == f.lastValues && lastErrors == f.lastErrors
      modifies this
      ensures trained && State() == f && counts == old(counts) + [count]
    {
      trained, mean, residualStdDev := true, f.mean, f.residualStdDev;
      arCoeffs, maCoeffs := f.arCoeffs, f.maCoeffs;
      seasonalARCoeffs, seasonalMACoeffs := f.seasonalARCoeffs, f.seasonalMACoeffs;
      counts := counts + [count];
    }

    method Train(cancelled: bool, rows: seq<Row>, sqrt: real -> real) returns (outcome: TrainOutcome)
      requires Valid() && IsSqrt(sqrt)
      modifies this
      ensures Valid()
      ensures outcome.TrainCancelled? <==> cancelled
      ensures outcome.MissingValue? <==> !cancelled && !AllHaveValue(rows)
      ensures outcome.TooFewPoints? <==> !cancelled && AllHaveValue(rows) && |rows| < o.MinPoints()
      ensures outcome.Trained? ==> TrainedOn(Values(rows), old(lastErrors))
      ensures outcome.Trained? ==> counts == old(counts) + [o.ResidualCount(|rows|)]
      ensures !outcome.Trained? ==> unchanged(this)
    {
      hide Values, Describes, Orders.MinPoints, Orders.ResidualCount, IsSqrt, Consistent, AllHaveValue, Orders.Valid;
      if cancelled {
        return TrainCancelled;
      }
      var missing, values := ExtractValues(rows);
      if missing != -1 {
        return MissingValue(missing);
      }
      if |values| < o.MinPoints() {
        return TooFewPoints(o.MinPoints());
      }
      var f := Fit(values, o, lastErrors, sqrt);
      ghost var kept := lastErrors;
      KeptErrors(State(), o, counts);
      ConsistentNext(f, o, values, kept, counts);
      StoreTail(f);
      Publish(f, o.ResidualCount(|values|));
      outcome := Trained;
    }

    function First(): real
      reads this
    {
      var ar := TailSum(arCoeffs, lastValues, o.p);
      var sar := SeasonSum(seasonalARCoeffs, lastValues, o.P, o.Season());
      var ma := TailSum(maCoeffs, lastErrors, o.q);
      var sma := SeasonSum(seasonalMACoeffs, lastErrors, o.Q, o.Season());
      Base(lastValues) + (ar + sar + ma + sma) * 0.1
    }

    /** The first step moves a tenth of the way by which all four predictors together leave the last value. */
    lemma FirstStep()
      ensures 10.0 * (First() - Base(lastValues))
           == TailSum(arCoeffs, lastValues, o.p) + SeasonSum(seasonalARCoeffs, lastValues, o.P, o.Season())
              + TailSum(maCoeffs, lastErrors, o.q) + SeasonSum(seasonalMACoeffs, lastErrors, o.Q, o.Season())
    {
    }

    method Predict(cancelled: bool, sqrt: real -> real) returns (outcome: PredictOutcome)
      requires Configured() && IsSqrt(sqrt)
      ensures outcome.PredictCancelled? <==> cancelled
      ensures outcome.NotTrained? <==> !cancelled && !trained
      ensures outcome.IndexOutOfRange? <==> !cancelled && trained && !Safe(State(), o)
      ensures outcome.Forecasted? ==>
        var n := StepCount(horizonSec, stepSec);
        && outcome.values == Path(First(), Base(lastValues), o.P, o.s, n)
        && outcome.quantiles == Emitted(outcome.values, residualStdDev, Spread(sqrt, n))
    {
      hide TailSum, SeasonSum, SeasonSafe, Path, Emitted;
      if cancelled {
        return PredictCancelled;
      }
      if !trained {
        return NotTrained;
      }
      var n := StepCount(horizonSec, stepSec);
      var base := Base(lastValues);
      var ok, arPred := TailDot(arCoeffs, lastValues, o.p);
      if !ok {
        return IndexOutOfRange;
      }
      var seasonalARPred;
      ok, seasonalARPred := SeasonDot(seasonalARCoeffs, lastValues, o.P, o.Season());
      if !ok {
        return IndexOutOfRange;
      }
      var maPred;
      ok, maPred := TailDot(maCoeffs, lastErrors, o.q);
      if !ok {
        return IndexOutOfRange;
      }
      var seasonalMAPred;
      ok, seasonalMAPred := SeasonDot(seasonalMACoeffs, lastErrors, o.Q, o.Season());
      if !ok {
        return IndexOutOfRange;
      }
      var values := FollowPath(base + (arPred + seasonalARPred + maPred + seasonalMAPred) * 0.1, base, o.P, o.s, n);
      var quantiles := Emit(values, residualStdDev, Spread(sqrt, n));
      outcome := Forecasted(values, quantiles);
    }
  }
}
