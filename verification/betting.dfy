/**
 The betting capital process of betting.py: the null means `mu_t` (constant
 `m`, or the without-replacement mean of what is left of a finite
 population), the truncation of the bets, the cumulative products of the
 factors `1 + lambda (x - mu)` and `1 - lambda (x - mu)`, their
 theta-combination, and the weighted sum over several betting strategies.
 The bet functions are higher-order parameters in the source; here each
 strategy enters as the bets it produces for the data and null mean at hand.
 */
module Betting {
  import opened Results
  import opened Floats
  import opened Sequences
  import opened Calculus

  /** `mu_t(x, m, N)`: entry `t` is `(N m - S_t) / (N - t)`, where `S_t` sums the first `t`
      observations, i.e. the mean of the population that has not been drawn yet. */
  function WithoutReplacementMeans(x: seq<real>, m: real, n: nat): (mu: seq<real>)
    requires |x| <= n
    ensures |mu| == |x|
    ensures |x| > 0 ==> mu[0] == m
    ensures forall t :: 0 <= t < |x| ==> (n as real) * m == Sum(x[..t]) + ((n - t) as real) * mu[t]
  {
    seq(|x|, t requires 0 <= t < |x| => RemainingMean(x, m, n, t))
  }

  /** `(N m - S_t) / (N - t)`: the mean of what is left of a population of size `N` and mean `m`
      once the first `t` observations are drawn. */
  function RemainingMean(x: seq<real>, m: real, n: nat, t: nat): (mu: real)
    requires t < |x| <= n
    ensures (n as real) * m == Sum(x[..t]) + ((n - t) as real) * mu
  {
    ((n as real) * m - Sum(x[..t])) / ((n - t) as real)
  }

  /** The null means of `betting_mart`: without a population size every entry is `m`. */
  function NullMeans(x: seq<real>, m: real, population: Option<nat>): (mu: seq<real>)
    requires population.Some? ==> |x| <= population.value
    ensures |mu| == |x|
    ensures population.None? ==> forall t :: 0 <= t < |x| ==> mu[t] == m
    ensures population.Some? ==> mu == WithoutReplacementMeans(x, m, population.value)
  {
    match population
    case None => seq(|x|, _ => m)
    case Some(n) => WithoutReplacementMeans(x, m, n)
  }

  /** The value put in place of an infinite truncation (a zero divisor). */
  const InfiniteTruncation: real := 1000.0

  /** `trunc_scale / d`, with the infinity of a zero divisor replaced by 1000. */
  function TruncationLimit(scale: real, d: real): (r: real)
    requires 0.0 < scale
    ensures d != 0.0 ==> r * d == scale
    ensures d == 0.0 ==> r == InfiniteTruncation
    ensures 0.0 < d ==> 0.0 < r
  {
    if d == 0.0 then InfiniteTruncation else scale / d
  }

  datatype Truncation = Truncation(upper: real, lower: real)

  /** `upper_trunc` and `lower_trunc`: `trunc_scale / mu` and `trunc_scale / (1 - mu)` with
      `m_trunc`, else `trunc_scale` for both. */
  function Truncations(mu: real, scale: real, mTrunc: bool): (tr: Truncation)
    requires 0.0 < scale
    ensures !mTrunc ==> tr.upper == scale && tr.lower == scale
    ensures mTrunc && 0.0 < mu < 1.0 ==> tr.upper * mu == scale && tr.lower * (1.0 - mu) == scale
    ensures 0.0 < mu < 1.0 ==> 0.0 < tr.upper && 0.0 < tr.lower
  {
    if mTrunc then Truncation(TruncationLimit(scale, mu), TruncationLimit(scale, 1.0 - mu))
    else Truncation(scale, scale)
  }

  /** `np.minimum(hi, np.maximum(lo, b))`. */
  function Clamp(lo: real, hi: real, b: real): (r: real)
    ensures r <= hi
    ensures lo <= hi ==> lo <= r
    ensures lo <= b <= hi ==> r == b
    ensures r == b || r == lo || r == hi
  {
    var raised := if lo < b then b else lo;
    if raised < hi then raised else hi
  }

  /** A bet of the positive capital process, clamped to `[-lower_trunc, upper_trunc]`. */
  function PositiveBet(tr: Truncation, b: real): (r: real)
    ensures 0.0 <= tr.upper && 0.0 <= tr.lower ==> -tr.lower <= r <= tr.upper
  {
    Clamp(-tr.lower, tr.upper, b)
  }

  /** A bet of the negative capital process, clamped to `[-upper_trunc, lower_trunc]`. */
  function NegativeBet(tr: Truncation, b: real): (r: real)
    ensures 0.0 <= tr.upper && 0.0 <= tr.lower ==> -tr.upper <= r <= tr.lower
  {
    Clamp(-tr.upper, tr.lower, b)
  }

  /** The settings `betting_mart` shares with its callers. */
  datatype Settings = Settings(population: Option<nat>, convexComb: bool, theta: real, truncScale: real, mTrunc: bool)

  predicate Admissible(st: Settings, x: seq<real>) {
    0.0 < st.truncScale && (st.population.Some? ==> |x| <= st.population.value)
  }

  /** `1 + lambda (x - mu)` for the clamped positive bet `lambda`. */
  function PositiveFactor(x: real, mu: real, b: real, scale: real, mTrunc: bool): real
    requires 0.0 < scale
  {
    1.0 + PositiveBet(Truncations(mu, scale, mTrunc), b) * (x - mu)
  }

  /** `1 - lambda (x - mu)` for the clamped negative bet `lambda`. */
  function NegativeFactor(x: real, mu: real, b: real, scale: real, mTrunc: bool): real
    requires 0.0 < scale
  {
    1.0 - NegativeBet(Truncations(mu, scale, mTrunc), b) * (x - mu)
  }

  /** `1 + lambda_t (x_t - mu_t)` with the clamped positive bets. */
  function PositiveFactors(x: seq<real>, mu: seq<real>, bets: seq<real>, st: Settings): (f: seq<real>)
    requires |mu| == |x| && |bets| == |x| && 0.0 < st.truncScale
    ensures |f| == |x|
  {
    seq(|x|, i requires 0 <= i < |x| => PositiveFactor(x[i], mu[i], bets[i], st.truncScale, st.mTrunc))
  }

  /** `1 - lambda_t (x_t - mu_t)` with the clamped negative bets. */
  function NegativeFactors(x: seq<real>, mu: seq<real>, bets: seq<real>, st: Settings): (f: seq<real>)
    requires |mu| == |x| && |bets| == |x| && 0.0 < st.truncScale
    ensures |f| == |x|
  {
    seq(|x|, i requires 0 <= i < |x| => NegativeFactor(x[i], mu[i], bets[i], st.truncScale, st.mTrunc))
  }

  /** The theta-combination of the positive and negative capital. */
  function Combine(theta: real, convexComb: bool, pos: real, neg: real): (c: real)
    ensures theta == 1.0 ==> c == pos
    ensures theta == 0.0 ==> c == neg
    ensures theta != 1.0 && theta != 0.0 && !convexComb ==>
      theta * pos <= c && (1.0 - theta) * neg <= c && (c == theta * pos || c == (1.0 - theta) * neg)
    ensures theta != 1.0 && theta != 0.0 && convexComb ==> c == theta * pos + (1.0 - theta) * neg
  {
    if theta == 1.0 then theta * pos
    else if theta == 0.0 then (1.0 - theta) * neg
    else if convexComb then theta * pos + (1.0 - theta) * neg
    else if theta * pos <= (1.0 - theta) * neg then (1.0 - theta) * neg
    else theta * pos
  }

  /** With `theta` in `[0, 1]`, the convex combination lies between the positive and the negative
      capital. */
  lemma CombineConvexBetween(theta: real, pos: real, neg: real)
    requires 0.0 <= theta <= 1.0
    ensures var c := Combine(theta, true, pos, neg); pos <= c <= neg || neg <= c <= pos
  {
    if theta != 1.0 && theta != 0.0 {
      ConvexBetween(theta, pos, neg);
    }
  }

  /** A convex combination lies between its two ends. */
  lemma ConvexBetween(theta: real, a: real, b: real)
    requires 0.0 <= theta <= 1.0
    ensures a <= theta * a + (1.0 - theta) * b <= b || b <= theta * a + (1.0 - theta) * b <= a
  {
    var c := theta * a + (1.0 - theta) * b;
    assert c - a == (1.0 - theta) * (b - a);
    assert b - c == theta * (b - a);
    if a <= b {
      NonnegativeProduct(1.0 - theta, b - a);
      NonnegativeProduct(theta, b - a);
    } else {
      NonnegativeProduct(1.0 - theta, a - b);
      NonnegativeProduct(theta, a - b);
    }
  }

  /** With `theta` in `[0, 1]`, combining nonnegative capital gives nonnegative capital. */
  lemma CombineNonnegative(theta: real, convexComb: bool, pos: real, neg: real)
    requires 0.0 <= theta <= 1.0 && 0.0 <= pos && 0.0 <= neg
    ensures 0.0 <= Combine(theta, convexComb, pos, neg)
  {
    NonnegativeProduct(theta, pos);
    NonnegativeProduct(1.0 - theta, neg);
  }

  /** `capital_process_positive`: the running product of the positive factors. */
  function PositiveCapitalProcess(x: seq<real>, m: real, positive: seq<real>, st: Settings): (c: seq<real>)
    requires |positive| == |x| && Admissible(st, x)
    ensures |c| == |x|
  {
    CumProd(PositiveFactors(x, NullMeans(x, m, st.population), positive, st))
  }

  /** `capital_process_negative`: the running product of the negative factors. */
  function NegativeCapitalProcess(x: seq<real>, m: real, negative: seq<real>, st: Settings): (c: seq<real>)
    requires |negative| == |x| && Admissible(st, x)
    ensures |c| == |x|
  {
    CumProd(NegativeFactors(x, NullMeans(x, m, st.population), negative, st))
  }

  /** The capital process before `betting_mart`'s assertion: the combination of the two cumulative
      products, and `+inf` wherever `mu_t` leaves `(0, 1)`. */
  function CapitalProcess(x: seq<real>, m: real, positive: seq<real>, negative: seq<real>, st: Settings)
    : (c: seq<Float>)
    requires |positive| == |x| && |negative| == |x| && Admissible(st, x)
    ensures |c| == |x|
    ensures forall t :: 0 <= t < |x| ==>
      (c[t].PosInf? <==> !(0.0 < NullMeans(x, m, st.population)[t] < 1.0)) && (c[t].PosInf? || c[t].Num?)
    ensures forall t {:trigger PositiveCapitalProcess(x, m, positive, st)[t]} ::
      0 <= t < |x| && 0.0 < NullMeans(x, m, st.population)[t] < 1.0 ==>
        c[t] == Num(Combine(st.theta, st.convexComb,
                            PositiveCapitalProcess(x, m, positive, st)[t], NegativeCapitalProcess(x, m, negative, st)[t]))
  {
    var mu := NullMeans(x, m, st.population);
    var pos := PositiveCapitalProcess(x, m, positive, st);
    var neg := NegativeCapitalProcess(x, m, negative, st);
    seq(|x|, t requires 0 <= t < |x| =>
      if mu[t] <= 0.0 || mu[t] >= 1.0 then PosInf
      else Num(Combine(st.theta, st.convexComb, pos[t], neg[t])))
  }

  datatype MartError = NegativeCapital | NoStrategies | MismatchedStrategies | MissingWeight

  /** `betting_mart`: the capital process, or the failure of its nonnegativity assertion. */
  function BettingMart(x: seq<real>, m: real, positive: seq<real>, negative: seq<real>, st: Settings)
    : (r: Result<seq<Float>, MartError>)
    requires |positive| == |x| && |negative| == |x| && Admissible(st, x)
    ensures r.Success? <==> forall t :: 0 <= t < |x| ==> AtLeast(CapitalProcess(x, m, positive, negative, st)[t], 0.0)
    ensures r.Success? ==> r.value == CapitalProcess(x, m, positive, negative, st)
    ensures r.Failure? ==> r.error == NegativeCapital
  {
    CheckNonnegative(CapitalProcess(x, m, positive, negative, st))
  }

  /** `if any(capital_process < 0): assert all(capital_process >= 0)` on a process without NaN. */
  function CheckNonnegative(c: seq<Float>): (r: Result<seq<Float>, MartError>)
    requires forall t :: 0 <= t < |c| ==> !c[t].NaN?
    ensures r.Success? <==> forall t :: 0 <= t < |c| ==> AtLeast(c[t], 0.0)
    ensures r.Success? ==> r.value == c
    ensures r.Failure? ==> r.error == NegativeCapital
  {
    if exists t :: 0 <= t < |c| && (c[t].NegInf? || (c[t].Num? && c[t].val < 0.0)) then Failure(NegativeCapital)
    else Success(c)
  }

  /** A bet of magnitude at most `hi` (positive side) or `lo` (negative side) against a deviation in
      `[-a, b]` loses at most `s`, when `hi * a <= s` and `lo * b <= s`. */
  lemma LossBounded(lam: real, d: real, hi: real, lo: real, a: real, b: real, s: real)
    requires 0.0 <= hi && 0.0 <= lo && 0.0 <= a && 0.0 <= b
    requires -lo <= lam <= hi && -a <= d <= b && hi * a <= s && lo * b <= s
    ensures -s <= lam * d
  {
    if 0.0 <= lam && d < 0.0 {
      NonnegativeProduct(hi - lam, -d);
      assert (hi - lam) * (-d) == lam * d - hi * d;
      NonnegativeProduct(hi, a + d);
      assert hi * (a + d) == hi * a + hi * d;
    } else if lam < 0.0 && 0.0 <= d {
      NonnegativeProduct(lo + lam, d);
      assert (lo + lam) * d == lo * d + lam * d;
      NonnegativeProduct(lo, b - d);
      assert lo * (b - d) == lo * b - lo * d;
    } else if 0.0 <= lam {
      NonnegativeProduct(lam, d);
    } else {
      NonnegativeProduct(-lam, -d);
      assert (-lam) * (-d) == lam * d;
    }
  }

  /** With `x` in `[0, 1]`, `mu` in `(0, 1)` and `trunc_scale` in `(0, 1]`, every positive factor is
      at least `1 - trunc_scale`, hence nonnegative. */
  lemma PositiveFactorFloor(x: real, mu: real, b: real, scale: real, mTrunc: bool)
    requires 0.0 <= x <= 1.0 && 0.0 < mu < 1.0 && 0.0 < scale <= 1.0
    ensures 1.0 - scale <= PositiveFactor(x, mu, b, scale, mTrunc)
  {
    var tr := Truncations(mu, scale, mTrunc);
    if mTrunc {
      LossBounded(PositiveBet(tr, b), x - mu, tr.upper, tr.lower, mu, 1.0 - mu, scale);
    } else {
      assert scale * mu <= scale by { NonnegativeProduct(scale, 1.0 - mu); }
      assert scale * (1.0 - mu) <= scale by { NonnegativeProduct(scale, mu); }
      LossBounded(PositiveBet(tr, b), x - mu, tr.upper, tr.lower, mu, 1.0 - mu, scale);
    }
  }

  /** The same floor for every negative factor. */
  lemma NegativeFactorFloor(x: real, mu: real, b: real, scale: real, mTrunc: bool)
    requires 0.0 <= x <= 1.0 && 0.0 < mu < 1.0 && 0.0 < scale <= 1.0
    ensures 1.0 - scale <= NegativeFactor(x, mu, b, scale, mTrunc)
  {
    var tr := Truncations(mu, scale, mTrunc);
    var lam := NegativeBet(tr, b);
    if !mTrunc {
      assert scale * mu <= scale by { NonnegativeProduct(scale, 1.0 - mu); }
      assert scale * (1.0 - mu) <= scale by { NonnegativeProduct(scale, mu); }
    }
    LossBounded(lam, mu - x, tr.lower, tr.upper, 1.0 - mu, mu, scale);
    assert lam * (mu - x) == -(lam * (x - mu));
  }

  /** Once the remaining population mean leaves `(0, 1)` it never returns: the data still to come
      lies in `[0, 1]`. */
  lemma {:induction false} NullMeanLeavesForGood(x: seq<real>, m: real, population: Option<nat>, i: nat, j: nat)
    requires population.Some? ==> |x| <= population.value
    requires UnitInterval(x) && i <= j < |x|
    requires !(0.0 < NullMeans(x, m, population)[i] < 1.0)
    ensures !(0.0 < NullMeans(x, m, population)[j] < 1.0)
    decreases j - i
  {
    if i < j && population.Some? {
      RemainingMeanStep(x, m, population.value, i);
      NullMeanLeavesForGood(x, m, population, i + 1, j);
    }
  }

  lemma RemainingMeanStep(x: seq<real>, m: real, n: nat, i: nat)
    requires |x| <= n && UnitInterval(x) && i + 1 < |x|
    requires !(0.0 < WithoutReplacementMeans(x, m, n)[i] < 1.0)
    ensures !(0.0 < WithoutReplacementMeans(x, m, n)[i + 1] < 1.0)
  {
    var mu := WithoutReplacementMeans(x, m, n);
    PrefixSumStep(x, i);
    assert (n as real) * m == Sum(x[..i]) + ((n - i) as real) * mu[i];
    assert (n as real) * m == Sum(x[..i + 1]) + ((n - (i + 1)) as real) * mu[i + 1];
    MeanStep((n as real) * m, Sum(x[..i]), x[i], (n - i) as real, mu[i], (n - (i + 1)) as real, mu[i + 1]);
  }

  /** One draw: from `N m = S + k mu` and `N m = (S + x) + (k - 1) mu'` with `x` in `[0, 1]` and
      `k > 1`, `mu <= 0` forces `mu' <= 0` and `mu >= 1` forces `mu' >= 1`. */
  lemma MeanStep(nm: real, s: real, x: real, k: real, mu: real, k2: real, mu2: real)
    requires 0.0 <= x <= 1.0 && 0.0 < k2 && k2 == k - 1.0
    requires nm == s + k * mu && nm == s + x + k2 * mu2
    ensures mu <= 0.0 ==> mu2 <= 0.0
    ensures 1.0 <= mu ==> 1.0 <= mu2
  {
    if mu <= 0.0 {
      NonnegativeProduct(k, -mu);
      assert k2 * (-mu2) == k * (-mu) + x;
      NonnegativeFactor(k2, -mu2);
    }
    if 1.0 <= mu {
      NonnegativeProduct(k, mu - 1.0);
      assert k2 * (mu2 - 1.0) == k * (mu - 1.0) + (1.0 - x);
      NonnegativeFactor(k2, mu2 - 1.0);
    }
  }



  /** A cumulative product over nonnegative factors is nonnegative. */
  lemma {:induction false} CumProdNonnegative(s: seq<real>, j: nat)
    requires j < |s| && forall i :: 0 <= i <= j ==> 0.0 <= s[i]
    ensures 0.0 <= CumProd(s)[j]
  {
    if j > 0 {
      CumProdNonnegative(s, j - 1);
      NonnegativeProduct(CumProd(s)[j - 1], s[j]);
    }
  }

  /** Every factor up to time `t` is nonnegative when `mu_t` is still in `(0, 1)`. */
  lemma FactorsNonnegative(x: seq<real>, m: real, positive: seq<real>, negative: seq<real>, st: Settings, t: nat)
    requires |positive| == |x| && |negative| == |x| && Admissible(st, x)
    requires UnitInterval(x) && st.truncScale <= 1.0 && t < |x|
    requires 0.0 < NullMeans(x, m, st.population)[t] < 1.0
    ensures forall i :: 0 <= i <= t ==>
      0.0 <= PositiveFactors(x, NullMeans(x, m, st.population), positive, st)[i] &&
      0.0 <= NegativeFactors(x, NullMeans(x, m, st.population), negative, st)[i]
  {
    var mu := NullMeans(x, m, st.population);
    forall i | 0 <= i <= t
      ensures 0.0 <= PositiveFactors(x, mu, positive, st)[i] && 0.0 <= NegativeFactors(x, mu, negative, st)[i]
    {
      if 0.0 < mu[i] < 1.0 {
        FactorNonnegativeAt(x, mu, positive, negative, st, i);
      } else {
        NullMeanLeavesForGood(x, m, st.population, i, t);
        assert false;
      }
    }
  }

  lemma FactorNonnegativeAt(x: seq<real>, mu: seq<real>, positive: seq<real>, negative: seq<real>, st: Settings, i: nat)
    requires |mu| == |x| && |positive| == |x| && |negative| == |x| && 0.0 < st.truncScale <= 1.0
    requires i < |x| && 0.0 <= x[i] <= 1.0 && 0.0 < mu[i] < 1.0
    ensures 0.0 <= PositiveFactors(x, mu, positive, st)[i] && 0.0 <= NegativeFactors(x, mu, negative, st)[i]
  {
    PositiveFactorFloor(x[i], mu[i], positive[i], st.truncScale, st.mTrunc);
    NegativeFactorFloor(x[i], mu[i], negative[i], st.truncScale, st.mTrunc);
  }

  /** Entry `t` of the capital process is nonnegative or `+inf`. */
  lemma CapitalNonnegativeAt(x: seq<real>, m: real, positive: seq<real>, negative: seq<real>, st: Settings, t: nat)
    requires |positive| == |x| && |negative| == |x| && Admissible(st, x)
    requires UnitInterval(x) && st.truncScale <= 1.0 && 0.0 <= st.theta <= 1.0 && t < |x|
    ensures AtLeast(CapitalProcess(x, m, positive, negative, st)[t], 0.0)
  {
    var mu := NullMeans(x, m, st.population);
    if 0.0 < mu[t] < 1.0 {
      var pf := PositiveFactors(x, mu, positive, st);
      var nf := NegativeFactors(x, mu, negative, st);
      FactorsNonnegative(x, m, positive, negative, st, t);
      CumProdNonnegative(pf, t);
      CumProdNonnegative(nf, t);
      CombineNonnegative(st.theta, st.convexComb, CumProd(pf)[t], CumProd(nf)[t]);
    }
  }

  /** The assertion of `betting_mart` never fires: for data in `[0, 1]`, `trunc_scale` in `(0, 1]`
      and `theta` in `[0, 1]`, every entry of the capital process is nonnegative or `+inf`. */
  lemma BettingMartSucceeds(x: seq<real>, m: real, positive: seq<real>, negative: seq<real>, st: Settings)
    requires |positive| == |x| && |negative| == |x| && Admissible(st, x)
    requires UnitInterval(x) && st.truncScale <= 1.0 && 0.0 <= st.theta <= 1.0
    ensures BettingMart(x, m, positive, negative, st).Success?
  {
    forall t | 0 <= t < |x|
      ensures AtLeast(CapitalProcess(x, m, positive, negative, st)[t], 0.0)
    {
      CapitalNonnegativeAt(x, m, positive, negative, st, t);
    }
  }

  /** `diversified_betting_mart`: the weighted sum of one betting martingale per strategy, the
      weights defaulting to `1/K`. A strategy list that is empty while the weights default (the
      division `1/K`), negative strategies that do not pair up with the positive ones, or a missing
      weight stop it, as does a failing component. */
  function Diversified(x: seq<real>, m: real, positive: seq<seq<real>>, negative: Option<seq<seq<real>>>,
                       weights: Option<seq<real>>, st: Settings): (r: Result<seq<Float>, MartError>)
    requires forall k :: 0 <= k < |positive| ==> |positive[k]| == |x|
    requires negative.Some? ==> forall k :: 0 <= k < |negative.value| ==> |negative.value[k]| == |x|
    requires Admissible(st, x)
    ensures weights.None? && |positive| == 0 ==> r == Failure(NoStrategies)
    ensures negative.Some? && |negative.value| != |positive| && (weights.Some? || |positive| > 0) ==>
      r == Failure(MismatchedStrategies)
    ensures r.Success? ==> |r.value| == |x|
    ensures r.Success? <==>
      (weights.Some? || |positive| > 0) && |Negatives(positive, negative)| == |positive| &&
      |positive| <= |Weights(weights, |positive|)| &&
      ComponentsSucceed(x, m, positive, Negatives(positive, negative), st, 0, |positive|)
    ensures r.Success? ==> forall t :: 0 <= t < |x| ==>
      r.value[t] == MixedCapital(x, m, positive, Negatives(positive, negative), Weights(weights, |positive|),
                                 st, |positive|, t)
  {
    var k := |positive|;
    if weights.None? && k == 0 then Failure(NoStrategies)
    else
      var w := Weights(weights, k);
      var neg := Negatives(positive, negative);
      if |neg| != k then Failure(MismatchedStrategies)
      else
        var zero := seq(|x|, _ => Num(0.0));
        AccumulateIsMixed(x, m, positive, neg, w, st, 0, zero);
        Accumulate(x, m, positive, neg, w, st, 0, zero)
  }

  /** `lambdas_weights`, by default `1/K` for each of the `K` strategies. */
  function Weights(weights: Option<seq<real>>, k: nat): (w: seq<real>)
    ensures weights.None? ==> |w| == k && forall j :: 0 <= j < k ==> 0.0 < w[j] && w[j] * (k as real) == 1.0
  {
    if weights.Some? then weights.value else seq(k, j requires 0 <= j < k => 1.0 / (k as real))
  }

  /** `lambdas_fns_negative`, by default the positive strategies. */
  function Negatives(positive: seq<seq<real>>, negative: Option<seq<seq<real>>>): seq<seq<real>> {
    if negative.Some? then negative.value else positive
  }

  /** Every component martingale of strategies `lo` up to `hi` passes its assertion. */
  predicate ComponentsSucceed(x: seq<real>, m: real, positive: seq<seq<real>>, negative: seq<seq<real>>,
                              st: Settings, lo: nat, hi: nat)
    requires hi <= |positive| && |negative| == |positive| && Admissible(st, x)
    requires forall j :: 0 <= j < |positive| ==> |positive[j]| == |x| && |negative[j]| == |x|
    decreases hi - lo
  {
    lo >= hi || (BettingMart(x, m, positive[lo], negative[lo], st).Success? &&
                 ComponentsSucceed(x, m, positive, negative, st, lo + 1, hi))
  }

  /** The reference weighted sum `sum_{j < n} w_j * capital_j(t)` of the first `n` strategies' capital
      processes, added up in strategy order with the IEEE rules of `Add` and `Scale`. */
  function MixedCapital(x: seq<real>, m: real, positive: seq<seq<real>>, negative: seq<seq<real>>,
                        w: seq<real>, st: Settings, n: nat, t: nat): Float
    requires n <= |positive| && |negative| == |positive| && n <= |w| && Admissible(st, x) && t < |x|
    requires forall j :: 0 <= j < |positive| ==> |positive[j]| == |x| && |negative[j]| == |x|
  {
    if n == 0 then Num(0.0)
    else Add(MixedCapital(x, m, positive, negative, w, st, n - 1, t),
             Scale(w[n - 1], CapitalProcess(x, m, positive[n - 1], negative[n - 1], st)[t]))
  }

  /** One more strategy adds its weighted capital to the sum. */
  lemma MixedStep(x: seq<real>, m: real, positive: seq<seq<real>>, negative: seq<seq<real>>,
                  w: seq<real>, st: Settings, k: nat, t: nat, sum: Float, capital: Float)
    requires k < |positive| && |negative| == |positive| && k < |w| && Admissible(st, x) && t < |x|
    requires forall j :: 0 <= j < |positive| ==> |positive[j]| == |x| && |negative[j]| == |x|
    requires sum == MixedCapital(x, m, positive, negative, w, st, k, t)
    requires capital == CapitalProcess(x, m, positive[k], negative[k], st)[t]
    ensures Add(sum, Scale(w[k], capital)) == MixedCapital(x, m, positive, negative, w, st, k + 1, t)
  {
  }

  /** From strategy `k` on, the loop succeeds exactly when there are enough weights and every
      remaining component succeeds. */
  lemma {:induction false} AccumulateSucceedsIff(x: seq<real>, m: real, positive: seq<seq<real>>,
                                                 negative: seq<seq<real>>, w: seq<real>, st: Settings,
                                                 k: nat, acc: seq<Float>)
    requires |negative| == |positive| && |acc| == |x| && Admissible(st, x)
    requires forall j :: 0 <= j < |positive| ==> |positive[j]| == |x| && |negative[j]| == |x|
    requires k <= |positive| && k <= |w|
    ensures Accumulate(x, m, positive, negative, w, st, k, acc).Success? <==>
      |positive| <= |w| && ComponentsSucceed(x, m, positive, negative, st, k, |positive|)
    decreases |positive| - k
  {
    if k < |positive| && k < |w| {
      var r := BettingMart(x, m, positive[k], negative[k], st);
      if r.Success? {
        var next := AddWeighted(acc, w[k], r.value);
        AccumulateSucceedsIff(x, m, positive, negative, w, st, k + 1, next);
        assert Accumulate(x, m, positive, negative, w, st, k, acc) ==
          Accumulate(x, m, positive, negative, w, st, k + 1, next);
        assert ComponentsSucceed(x, m, positive, negative, st, k, |positive|) ==
          ComponentsSucceed(x, m, positive, negative, st, k + 1, |positive|);
      }
    }
  }

  /** From strategy `k` on, with `acc` holding the weighted sum of the first `k`, the loop succeeds
      exactly when there are enough weights and every remaining component succeeds, and then
      returns the weighted sum of all of them. */
  lemma {:induction false} AccumulateIsMixed(x: seq<real>, m: real, positive: seq<seq<real>>,
                                             negative: seq<seq<real>>, w: seq<real>, st: Settings,
                                             k: nat, acc: seq<Float>)
    requires |negative| == |positive| && |acc| == |x| && Admissible(st, x)
    requires forall j :: 0 <= j < |positive| ==> |positive[j]| == |x| && |negative[j]| == |x|
    requires k <= |positive| && k <= |w|
    requires forall t :: 0 <= t < |x| ==> acc[t] == MixedCapital(x, m, positive, negative, w, st, k, t)
    ensures Accumulate(x, m, positive, negative, w, st, k, acc).Success? <==>
      |positive| <= |w| && ComponentsSucceed(x, m, positive, negative, st, k, |positive|)
    ensures Accumulate(x, m, positive, negative, w, st, k, acc).Success? ==> forall t :: 0 <= t < |x| ==>
      Accumulate(x, m, positive, negative, w, st, k, acc).value[t] ==
        MixedCapital(x, m, positive, negative, w, st, |positive|, t)
    decreases |positive| - k
  {
    AccumulateSucceedsIff(x, m, positive, negative, w, st, k, acc);
    if k < |positive| && k < |w| {
      var r := BettingMart(x, m, positive[k], negative[k], st);
      if r.Success? {
        var next := AddWeighted(acc, w[k], r.value);
        forall t | 0 <= t < |x|
          ensures next[t] == MixedCapital(x, m, positive, negative, w, st, k + 1, t)
        {
          MixedStep(x, m, positive, negative, w, st, k, t, acc[t], r.value[t]);
        }
        AccumulateIsMixed(x, m, positive, negative, w, st, k + 1, next);
        assert Accumulate(x, m, positive, negative, w, st, k, acc) ==
          Accumulate(x, m, positive, negative, w, st, k + 1, next);
      }
    } else if k == |positive| {
      assert Accumulate(x, m, positive, negative, w, st, k, acc) == Success(acc);
    }
  }

  /** The loop of `diversified_betting_mart` from strategy `k` on, `acc` holding the sum so far. */
  function Accumulate(x: seq<real>, m: real, positive: seq<seq<real>>, negative: seq<seq<real>>,
                      w: seq<real>, st: Settings, k: nat, acc: seq<Float>): (r: Result<seq<Float>, MartError>)
    requires |negative| == |positive| && |acc| == |x| && Admissible(st, x)
    requires forall j :: 0 <= j < |positive| ==> |positive[j]| == |x| && |negative[j]| == |x|
    ensures r.Success? ==> |r.value| == |x|
    ensures k < |positive| && |w| <= k ==> r == Failure(MissingWeight)
    decreases |positive| - k
  {
    if k >= |positive| then Success(acc)
    else if k >= |w| then Failure(MissingWeight)
    else match BettingMart(x, m, positive[k], negative[k], st)
      case Failure(e) => Failure(e)
      case Success(c) =>
        Accumulate(x, m, positive, negative, w, st, k + 1, AddWeighted(acc, w[k], c))
  }

  /** `mart + w * capital`, entry by entry. */
  function AddWeighted(acc: seq<Float>, w: real, capital: seq<Float>): (r: seq<Float>)
    requires |capital| == |acc|
    ensures |r| == |acc|
  {
    seq(|acc|, i requires 0 <= i < |acc| => Add(acc[i], Scale(w, capital[i])))
  }

  predicate AllAtLeastZero(s: seq<Float>) {
    forall i :: 0 <= i < |s| ==> AtLeast(s[i], 0.0)
  }

  lemma AddAtLeastZero(a: Float, b: Float)
    requires AtLeast(a, 0.0) && AtLeast(b, 0.0)
    ensures AtLeast(Add(a, b), 0.0)
  {
  }

  lemma ScaleAtLeastZero(w: real, a: Float)
    requires 0.0 < w && AtLeast(a, 0.0)
    ensures AtLeast(Scale(w, a), 0.0)
  {
    if a.Num? {
      NonnegativeProduct(w, a.val);
    }
  }

  /** With positive weights, every strategy's martingale succeeds under the hypotheses of
      `BettingMartSucceeds`, and the weighted sum stays nonnegative or `+inf`. */
  lemma {:induction false} AccumulateSucceeds(x: seq<real>, m: real, positive: seq<seq<real>>,
                                              negative: seq<seq<real>>, w: seq<real>, st: Settings,
                                              k: nat, acc: seq<Float>)
    requires |negative| == |positive| && |acc| == |x| && Admissible(st, x)
    requires forall j :: 0 <= j < |positive| ==> |positive[j]| == |x| && |negative[j]| == |x|
    requires UnitInterval(x) && st.truncScale <= 1.0 && 0.0 <= st.theta <= 1.0
    requires |positive| <= |w| && forall j :: 0 <= j < |w| ==> 0.0 < w[j]
    requires AllAtLeastZero(acc)
    ensures Accumulate(x, m, positive, negative, w, st, k, acc).Success?
    ensures AllAtLeastZero(Accumulate(x, m, positive, negative, w, st, k, acc).value)
    decreases |positive| - k
  {
    if k < |positive| {
      BettingMartSucceeds(x, m, positive[k], negative[k], st);
      var c := BettingMart(x, m, positive[k], negative[k], st).value;
      var next := AddWeighted(acc, w[k], c);
      forall i | 0 <= i < |x|
        ensures AtLeast(next[i], 0.0)
      {
        ScaleAtLeastZero(w[k], c[i]);
        AddAtLeastZero(acc[i], Scale(w[k], c[i]));
      }
      AccumulateSucceeds(x, m, positive, negative, w, st, k + 1, next);
    }
  }

  /** The diversified martingale with the default weights `1/K` succeeds and stays nonnegative. */
  lemma DiversifiedSucceeds(x: seq<real>, m: real, positive: seq<seq<real>>, negative: Option<seq<seq<real>>>,
                            st: Settings)
    requires forall k :: 0 <= k < |positive| ==> |positive[k]| == |x|
    requires negative.Some? ==> |negative.value| == |positive|
    requires negative.Some? ==> forall k :: 0 <= k < |negative.value| ==> |negative.value[k]| == |x|
    requires Admissible(st, x) && UnitInterval(x) && st.truncScale <= 1.0 && 0.0 <= st.theta <= 1.0
    requires 0 < |positive|
    ensures Diversified(x, m, positive, negative, None, st).Success?
    ensures AllAtLeastZero(Diversified(x, m, positive, negative, None, st).value)
  {
    var k := |positive|;
    var w := Weights(None, k);
    var neg := Negatives(positive, negative);
    AccumulateSucceeds(x, m, positive, neg, w, st, 0, seq(|x|, _ => Num(0.0)));
  }

  /** A single strategy with its default weight `1/1` gives back the betting martingale itself, or
      its failure. */
  lemma DiversifiedOfOne(x: seq<real>, m: real, positive: seq<real>, negative: seq<real>, st: Settings)
    requires |positive| == |x| && |negative| == |x| && Admissible(st, x)
    ensures Diversified(x, m, [positive], Some([negative]), None, st) == BettingMart(x, m, positive, negative, st)
  {
    var r := BettingMart(x, m, positive, negative, st);
    var zero := seq(|x|, _ => Num(0.0));
    var w := Weights(None, 1);
    assert [positive][0] == positive && [negative][0] == negative;
    if r.Success? {
      var c := r.value;
      var next := AddWeighted(zero, w[0], c);
      forall i | 0 <= i < |x|
        ensures next[i] == c[i]
      {
        UnitWeightKeeps(c[i]);
      }
      assert next == c;
      assert Accumulate(x, m, [positive], [negative], w, st, 0, zero) ==
        Accumulate(x, m, [positive], [negative], w, st, 1, next);
    }
  }

  lemma UnitWeightKeeps(f: Float)
    requires AtLeast(f, 0.0)
    ensures Add(Num(0.0), Scale(1.0 / (1 as real), f)) == f
  {
  }
}
