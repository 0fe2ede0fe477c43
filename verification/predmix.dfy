/**
 The predictable-mixture confidence sequences of predmix.py: the bets
 `lambda_predmix_eb` derives from a regularised running mean and variance,
 and the empirical-Bernstein and Hoeffding sequences built on weighted
 running means and margins. Divisions whose divisor the source does not keep
 away from zero go through `Floats.Div`, so that NaN and the infinities appear
 exactly where numpy produces them.
 */
module Predmix {
  import opened Results
  import opened Floats
  import opened Calculus
  import opened Sequences
  import opened Intervals

  /** The parameters of `lambda_predmix_eb`; a truncation of `None` is `math.inf`. */
  datatype EbSettings = EbSettings(
    truncation: Option<real>,
    alpha: real,
    fixedN: Option<nat>,
    priorMean: real,
    priorVariance: real,
    fakeObs: nat,
    scale: real)

  /** The ranges the parameters are documented to take that the arithmetic relies on. */
  predicate EbAdmissible(p: EbSettings) {
    0.0 < p.alpha && 0.0 < p.priorVariance && 0 < p.fakeObs && (p.fixedN.Some? ==> 0 < p.fixedN.value)
  }

  /** The defaults of `lambda_predmix_eb` for a given `alpha`. */
  function DefaultEb(alpha: real): EbSettings {
    EbSettings(None, alpha, None, 0.5, 0.25, 1, 1.0)
  }

  /** `mu_hat_t = (fake_obs * prior_mean + S_t) / (t + fake_obs)`; index `t` covers the first
      `t + 1` observations. */
  function RegularisedMean(x: seq<real>, priorMean: real, fakeObs: nat, t: nat): (mu: real)
    requires 0 < fakeObs && t < |x|
    ensures ((t + 1 + fakeObs) as real) * mu == (fakeObs as real) * priorMean + Sum(x[..t + 1])
  {
    ((fakeObs as real) * priorMean + Sum(x[..t + 1])) / ((t + 1 + fakeObs) as real)
  }

  function RegularisedMeans(x: seq<real>, priorMean: real, fakeObs: nat): (mu: seq<real>)
    requires 0 < fakeObs
    ensures |mu| == |x| && forall t :: 0 <= t < |x| ==> mu[t] == RegularisedMean(x, priorMean, fakeObs, t)
  {
    seq(|x|, t requires 0 <= t < |x| => RegularisedMean(x, priorMean, fakeObs, t))
  }

  /** `(x_t - mu_hat_t)^2`. */
  function Deviations(x: seq<real>, priorMean: real, fakeObs: nat): (d: seq<real>)
    requires 0 < fakeObs
    ensures |d| == |x| && forall i :: 0 <= i < |x| ==> 0.0 <= d[i]
  {
    seq(|x|, i requires 0 <= i < |x| => Square(x[i] - RegularisedMean(x, priorMean, fakeObs, i)))
  }

  function Square(a: real): (r: real)
    ensures 0.0 <= r
  {
    if 0.0 <= a then NonnegativeProduct(a, a); a * a
    else NonnegativeProduct(-a, -a); a * a
  }

  /** `sigma2_t = (fake_obs * prior_variance + sum of (x_i - mu_hat_i)^2) / (t + fake_obs)`; a
      positive prior variance keeps it positive. */
  function RegularisedVariance(x: seq<real>, priorMean: real, priorVariance: real, fakeObs: nat, t: nat): (s: real)
    requires 0 < fakeObs && t < |x|
    ensures ((t + 1 + fakeObs) as real) * s == (fakeObs as real) * priorVariance + Sum(Deviations(x, priorMean, fakeObs)[..t + 1])
    ensures 0.0 < priorVariance ==> 0.0 < s
  {
    var d := Deviations(x, priorMean, fakeObs)[..t + 1];
    SumNonnegative(d);
    Average((t + 1 + fakeObs) as real, fakeObs as real, priorVariance, Sum(d))
  }

  /** `(f * prior + extra) / n`, positive for positive `f` and `prior` and nonnegative `extra`. */
  function Average(n: real, f: real, prior: real, extra: real): (q: real)
    requires 0.0 < n
    ensures n * q == f * prior + extra
    ensures 0.0 < f && 0.0 < prior && 0.0 <= extra ==> 0.0 < q
  {
    if 0.0 < f && 0.0 < prior && 0.0 <= extra then
      PositiveAverage(n, f, prior, extra, (f * prior + extra) / n);
      (f * prior + extra) / n
    else (f * prior + extra) / n
  }

  function RegularisedVariances(x: seq<real>, priorMean: real, priorVariance: real, fakeObs: nat): (s: seq<real>)
    requires 0 < fakeObs
    ensures |s| == |x| && forall t :: 0 <= t < |x| ==> s[t] == RegularisedVariance(x, priorMean, priorVariance, fakeObs, t)
  {
    seq(|x|, t requires 0 <= t < |x| => RegularisedVariance(x, priorMean, priorVariance, fakeObs, t))
  }

  /** A quotient `n / d` with `0 <= n <= d` lies in `[0, 1]`. */
  lemma UnitQuotient(d: real, q: real, n: real)
    requires 0.0 < d && d * q == n && 0.0 <= n <= d
    ensures 0.0 <= q <= 1.0
  {
    NonnegativeFactor(d, q);
    assert d * (1.0 - q) == d - n;
    NonnegativeFactor(d, 1.0 - q);
  }

  /** With data and prior mean in `[0, 1]`, every regularised mean lies in `[0, 1]`. */
  lemma RegularisedMeanInUnit(x: seq<real>, priorMean: real, fakeObs: nat, t: nat)
    requires 0 < fakeObs && t < |x| && UnitInterval(x) && 0.0 <= priorMean <= 1.0
    ensures 0.0 <= RegularisedMean(x, priorMean, fakeObs, t) <= 1.0
  {
    SumBounds(x[..t + 1], 0.0, 1.0);
    NonnegativeProduct(fakeObs as real, priorMean);
    NonnegativeProduct(fakeObs as real, 1.0 - priorMean);
    UnitQuotient((t + 1 + fakeObs) as real, RegularisedMean(x, priorMean, fakeObs, t),
                 (fakeObs as real) * priorMean + Sum(x[..t + 1]));
  }

  /** A sum of nonnegative numbers is nonnegative. */
  lemma {:induction false} SumNonnegative(s: seq<real>)
    requires forall i :: 0 <= i < |s| ==> 0.0 <= s[i]
    ensures 0.0 <= Sum(s)
    decreases |s|
  {
    if |s| > 0 {
      SumNonnegative(s[..|s| - 1]);
    }
  }

  /** `(f * prior + extra) / n` is positive for positive `n`, `f` and `prior` and nonnegative `extra`. */
  lemma PositiveAverage(n: real, f: real, prior: real, extra: real, q: real)
    requires 0.0 < n && 0.0 < f && 0.0 < prior && 0.0 <= extra && n * q == f * prior + extra
    ensures 0.0 < q
  {
    PositiveProduct(f, prior);
    PositiveQuotient(n, q, f * prior + extra);
  }

  lemma PositiveQuotient(d: real, q: real, n: real)
    requires 0.0 < d && d * q == n && 0.0 < n
    ensures 0.0 < q
  {
    NonnegativeFactor(d, q);
  }

  /** `sigma2_{t-1}`: the regularised variance before observation `t`, the prior variance first. */
  function PriorVariance(x: seq<real>, p: EbSettings, t: nat): (s: real)
    requires EbAdmissible(p) && t < |x|
    ensures 0.0 < s
    ensures t == 0 ==> s == p.priorVariance
    ensures t > 0 ==> s == RegularisedVariance(x, p.priorMean, p.priorVariance, p.fakeObs, t - 1)
  {
    Shift(p.priorVariance, RegularisedVariances(x, p.priorMean, p.priorVariance, p.fakeObs))[t]
  }

  /** The divisor under the square root: `t log(1 + t) sigma2_{t-1}`, or `fixed_n sigma2_{t-1}`
      (with `t` counted from one), for the prior variance `sigma` of time `t`. */
  function BetDivisor(k: Calculus, p: EbSettings, t: nat, sigma: real): (d: real)
    requires k.Lawful() && EbAdmissible(p) && 0.0 < sigma
    ensures 0.0 < d
  {
    match p.fixedN
    case None =>
      var time := (t + 1) as real;
      PositiveProduct(time, k.ln(1.0 + time));
      PositiveProduct(time * k.ln(1.0 + time), sigma);
      time * k.ln(1.0 + time) * sigma
    case Some(n) =>
      PositiveProduct(n as real, sigma);
      (n as real) * sigma
  }

  /** `2 log(1 / alpha) / divisor`, the square of the untruncated bet. */
  function SquaredBet(k: Calculus, p: EbSettings, t: nat, sigma: real): (s: real)
    requires k.Lawful() && EbAdmissible(p) && 0.0 < sigma
    ensures s * BetDivisor(k, p, t, sigma) == 2.0 * k.ln(1.0 / p.alpha)
  {
    2.0 * k.ln(1.0 / p.alpha) / BetDivisor(k, p, t, sigma)
  }

  /** `np.sqrt` of the squared bet: NaN when it is negative (`alpha > 1`). */
  function RawBet(k: Calculus, p: EbSettings, t: nat, sigma: real): (b: Float)
    requires k.Lawful() && EbAdmissible(p) && 0.0 < sigma
    ensures b.NaN? <==> SquaredBet(k, p, t, sigma) < 0.0
    ensures b.Num? ==> 0.0 <= b.val && b.val * b.val == SquaredBet(k, p, t, sigma)
  {
    var s := SquaredBet(k, p, t, sigma);
    if s < 0.0 then NaN
    else SqrtSquare(k, s); Num(k.sqrt(s))
  }

  /** `lambdas[np.isnan(lambdas)] = 0`. */
  function CleanedBet(k: Calculus, p: EbSettings, t: nat, sigma: real): (b: real)
    requires k.Lawful() && EbAdmissible(p) && 0.0 < sigma
    ensures 0.0 <= b
    ensures RawBet(k, p, t, sigma).NaN? ==> b == 0.0
    ensures RawBet(k, p, t, sigma).Num? ==> b == RawBet(k, p, t, sigma).val
  {
    var raw := RawBet(k, p, t, sigma);
    if raw.NaN? then 0.0 else raw.val
  }

  /** `np.minimum(truncation, b)`, with `None` standing for an infinite truncation. */
  function Truncate(b: real, truncation: Option<real>): (r: real)
    ensures truncation.Some? ==> r <= truncation.value && (r == truncation.value || r == b)
    ensures truncation.None? || b <= truncation.value ==> r == b
  {
    match truncation
    case None => b
    case Some(c) => if c <= b then c else b
  }

  /** A nonnegative bet truncated, then multiplied by `scale`. With a nonnegative scale it lies
      between 0 (when the truncation level is nonnegative) and the truncation level times the scale. */
  function ScaledBet(b: real, truncation: Option<real>, scale: real): (r: real)
    requires 0.0 <= b
    ensures scale == 1.0 ==> r == Truncate(b, truncation)
    ensures 0.0 <= scale && truncation.Some? ==> r <= truncation.value * scale
    ensures 0.0 <= scale && (truncation.None? || 0.0 <= truncation.value) ==> 0.0 <= r
    ensures 0.0 < scale && 0.0 < b && (truncation.None? || 0.0 < truncation.value) ==> 0.0 < r
  {
    ScaledTruncationBounds(b, truncation, scale);
    Truncate(b, truncation) * scale
  }

  lemma ScaledTruncationBounds(b: real, truncation: Option<real>, scale: real)
    requires 0.0 <= b
    ensures 0.0 <= scale && truncation.Some? ==> Truncate(b, truncation) * scale <= truncation.value * scale
    ensures 0.0 <= scale && (truncation.None? || 0.0 <= truncation.value) ==> 0.0 <= Truncate(b, truncation) * scale
    ensures 0.0 < scale && 0.0 < b && (truncation.None? || 0.0 < truncation.value) ==> 0.0 < Truncate(b, truncation) * scale
  {
    if 0.0 <= scale && truncation.Some? {
      ScaleMonotoneRight(Truncate(b, truncation), truncation.value, scale);
    }
    if 0.0 <= scale && (truncation.None? || 0.0 <= truncation.value) {
      NonnegativeProduct(Truncate(b, truncation), scale);
    }
    if 0.0 < scale && 0.0 < b && (truncation.None? || 0.0 < truncation.value) {
      PositiveProduct(Truncate(b, truncation), scale);
    }
  }

  /** One bet of `lambda_predmix_eb` at time `t`, given the prior variance `sigma` of that time: NaN
      replaced by 0, truncated, then scaled. */
  function Bet(k: Calculus, p: EbSettings, t: nat, sigma: real): (b: real)
    requires k.Lawful() && EbAdmissible(p) && 0.0 < sigma
  {
    ScaledBet(CleanedBet(k, p, t, sigma), p.truncation, p.scale)
  }

  /** `lambda_predmix_eb`: one bet per observation, the first at the prior variance and each later
      one at the regularised variance of the observations before it. With a nonnegative scale every
      bet is at most the truncation level times the scale, and nonnegative when that level is. */
  function PredmixBets(k: Calculus, x: seq<real>, p: EbSettings): (lambdas: seq<real>)
    requires k.Lawful() && EbAdmissible(p)
    ensures |lambdas| == |x|
    ensures |x| > 0 ==> lambdas[0] == Bet(k, p, 0, p.priorVariance)
    ensures forall t :: 0 < t < |x| ==>
      lambdas[t] == Bet(k, p, t, RegularisedVariance(x, p.priorMean, p.priorVariance, p.fakeObs, t - 1))
    ensures 0.0 <= p.scale && p.truncation.Some? ==>
      forall t :: 0 <= t < |x| ==> lambdas[t] <= p.truncation.value * p.scale
    ensures 0.0 <= p.scale && (p.truncation.None? || 0.0 <= p.truncation.value) ==>
      forall t :: 0 <= t < |x| ==> 0.0 <= lambdas[t]
  {
    var lambdas := seq(|x|, t requires 0 <= t < |x| => Bet(k, p, t, PriorVariance(x, p, t)));
    forall t | 0 <= t < |x|
      ensures 0.0 <= p.scale && p.truncation.Some? ==> lambdas[t] <= p.truncation.value * p.scale
      ensures 0.0 <= p.scale && (p.truncation.None? || 0.0 <= p.truncation.value) ==> 0.0 <= lambdas[t]
    {
      BetBounds(k, p, t, PriorVariance(x, p, t));
    }
    lambdas
  }

  /** With a nonnegative scale, a bet lies between 0 (for a nonnegative truncation level) and the
      truncation level times the scale; with scale 1 it is the truncated cleaned bet. */
  lemma BetBounds(k: Calculus, p: EbSettings, t: nat, sigma: real)
    requires k.Lawful() && EbAdmissible(p) && 0.0 < sigma
    ensures p.scale == 1.0 ==> Bet(k, p, t, sigma) == Truncate(CleanedBet(k, p, t, sigma), p.truncation)
    ensures 0.0 <= p.scale && p.truncation.Some? ==> Bet(k, p, t, sigma) <= p.truncation.value * p.scale
    ensures 0.0 <= p.scale && (p.truncation.None? || 0.0 <= p.truncation.value) ==> 0.0 <= Bet(k, p, t, sigma)
  {
    var c := CleanedBet(k, p, t, sigma);
    assert Bet(k, p, t, sigma) == ScaledBet(c, p.truncation, p.scale);
  }

  /** Without truncation or scaling and with `alpha <= 1`, a bet is the nonnegative square root of
      `2 log(1 / alpha) / divisor`. */
  lemma BetIsRoot(k: Calculus, p: EbSettings, t: nat, sigma: real)
    requires k.Lawful() && EbAdmissible(p) && 0.0 < sigma
    requires p.truncation == None && p.scale == 1.0 && p.alpha <= 1.0
    ensures 0.0 <= Bet(k, p, t, sigma) && Bet(k, p, t, sigma) * Bet(k, p, t, sigma) == SquaredBet(k, p, t, sigma)
  {
    LnAtLeastOneOverAlpha(k, p.alpha);
    NonnegativeFactor(BetDivisor(k, p, t, sigma), SquaredBet(k, p, t, sigma));
    var c := CleanedBet(k, p, t, sigma);
    assert Bet(k, p, t, sigma) == ScaledBet(c, p.truncation, p.scale);
  }

  lemma LnAtLeastOneOverAlpha(k: Calculus, alpha: real)
    requires k.Lawful() && 0.0 < alpha <= 1.0
    ensures 0.0 <= k.ln(1.0 / alpha)
  {
    assert 1.0 <= 1.0 / alpha;
    LnAtLeastOne(k, 1.0 / alpha);
  }

  /** With `alpha` in `(0, 1)`, a positive scale and a positive (or no) truncation, every bet is
      positive. */
  lemma BetPositive(k: Calculus, p: EbSettings, t: nat, sigma: real)
    requires k.Lawful() && EbAdmissible(p) && 0.0 < sigma && p.alpha < 1.0 && 0.0 < p.scale
    requires p.truncation.None? || 0.0 < p.truncation.value
    ensures 0.0 < Bet(k, p, t, sigma)
  {
    LnAboveOneOverAlpha(k, p.alpha);
    CleanedBetPositive(k, p, t, sigma);
    var c := CleanedBet(k, p, t, sigma);
    assert Bet(k, p, t, sigma) == ScaledBet(c, p.truncation, p.scale);
  }

  lemma LnAboveOneOverAlpha(k: Calculus, alpha: real)
    requires k.Lawful() && 0.0 < alpha < 1.0
    ensures 0.0 < k.ln(1.0 / alpha)
  {
    assert 1.0 < 1.0 / alpha;
  }

  lemma CleanedBetPositive(k: Calculus, p: EbSettings, t: nat, sigma: real)
    requires k.Lawful() && EbAdmissible(p) && 0.0 < sigma && 0.0 < k.ln(1.0 / p.alpha)
    ensures 0.0 < CleanedBet(k, p, t, sigma)
  {
    NonnegativeFactor(BetDivisor(k, p, t, sigma), SquaredBet(k, p, t, sigma));
  }

  // ---------------------------------------------------------------------------------------------
  // predmix_empbern_cs

  /** `mu_hat_t = S_t / t`, the plain running mean. */
  function RunningMeans(x: seq<real>): (mu: seq<real>)
    ensures |mu| == |x|
    ensures forall t :: 0 <= t < |x| ==> ((t + 1) as real) * mu[t] == Sum(x[..t + 1])
  {
    seq(|x|, t requires 0 <= t < |x| => Sum(x[..t + 1]) / ((t + 1) as real))
  }

  /** The bets of `predmix_empbern_cs`: `lambda_predmix_eb` at `alpha / 2` with its truncation. */
  function EmpBernBets(k: Calculus, x: seq<real>, alpha: real, truncation: real, fixedN: Option<nat>): (lambdas: seq<real>)
    requires k.Lawful() && 0.0 < alpha && (fixedN.Some? ==> 0 < fixedN.value)
    ensures |lambdas| == |x|
    ensures forall t :: 0 <= t < |x| ==> lambdas[t] <= truncation
    ensures 0.0 < truncation && alpha < 2.0 ==> forall t :: 0 <= t < |x| ==> 0.0 < lambdas[t]
  {
    var p := EbSettings(Some(truncation), alpha / 2.0, fixedN, 0.5, 0.25, 1, 1.0);
    var lambdas := PredmixBets(k, x, p);
    forall t | 0 <= t < |x| ensures 0.0 < truncation && alpha < 2.0 ==> 0.0 < lambdas[t] {
      if 0.0 < truncation && alpha < 2.0 {
        BetPositive(k, p, t, PriorVariance(x, p, t));
      }
    }
    lambdas
  }

  /** `psi_t = (x_t - mu_hat_{t-1})^2 (-log(1 - lambda_t) - lambda_t)`. */
  function EmpBernPsi(k: Calculus, x: seq<real>, lambdas: seq<real>): (psi: seq<real>)
    requires |lambdas| == |x|
    ensures |psi| == |x|
  {
    seq(|x|, t requires 0 <= t < |x| => PsiTerm(k, x[t] - Shift(0.0, RunningMeans(x))[t], lambdas[t]))
  }

  /** `dev^2 (-log(1 - lambda) - lambda)`. */
  function PsiTerm(k: Calculus, dev: real, lambda: real): real {
    Square(dev) * (-k.ln(1.0 - lambda) - lambda)
  }

  /** `(log(2 / alpha) + cumsum(psi)) / cumsum(lambdas)`. */
  function EmpBernMargins(k: Calculus, x: seq<real>, lambdas: seq<real>, alpha: real): (margin: seq<Float>)
    requires |lambdas| == |x| && 0.0 < alpha
    ensures |margin| == |x|
  {
    var psi := EmpBernPsi(k, x, lambdas);
    seq(|x|, t requires 0 <= t < |x| => Div(k.ln(2.0 / alpha) + Sum(psi[..t + 1]), Sum(lambdas[..t + 1])))
  }

  /** `cumsum(x * lambdas) / cumsum(lambdas)`: where the bets so far sum to a nonzero total, the
      number that total times gives the weighted sum of the observations; elsewhere NaN when the
      weighted sum is also zero and an infinity when it is not. */
  function WeightedMeans(x: seq<real>, lambdas: seq<real>): (w: seq<Float>)
    requires |lambdas| == |x|
    ensures |w| == |x|
    ensures forall t :: 0 <= t < |x| && Sum(lambdas[..t + 1]) != 0.0 ==>
      w[t].Num? && w[t].val * Sum(lambdas[..t + 1]) == Sum(Weighted(x, lambdas)[..t + 1])
    ensures forall t :: 0 <= t < |x| && Sum(lambdas[..t + 1]) == 0.0 ==>
      !w[t].Num? && (w[t].NaN? <==> Sum(Weighted(x, lambdas)[..t + 1]) == 0.0)
  {
    var w := seq(|x|, t requires 0 <= t < |x| => Div(Sum(Weighted(x, lambdas)[..t + 1]), Sum(lambdas[..t + 1])));
    forall t | 0 <= t < |x|
      ensures w[t] == Div(Sum(Weighted(x, lambdas)[..t + 1]), Sum(lambdas[..t + 1]))
    {
    }
    w
  }

  /** `x * lambdas`. */
  function Weighted(x: seq<real>, lambdas: seq<real>): (r: seq<real>)
    requires |lambdas| == |x|
    ensures |r| == |x| && forall i :: 0 <= i < |x| ==> r[i] == x[i] * lambdas[i]
  {
    seq(|x|, i requires 0 <= i < |x| => x[i] * lambdas[i])
  }

  /** With data in `[0, 1]` and positive bets, every weighted mean is a number in `[0, 1]`. */
  lemma WeightedMeanInUnit(x: seq<real>, lambdas: seq<real>, t: nat)
    requires |lambdas| == |x| && t < |x| && UnitInterval(x)
    requires forall i :: 0 <= i < |x| ==> 0.0 < lambdas[i]
    ensures WeightedMeans(x, lambdas)[t].Num?
    ensures 0.0 <= WeightedMeans(x, lambdas)[t].val <= 1.0
  {
    PositiveSum(lambdas[..t + 1]);
    WeightedSumBetween(x, lambdas, t + 1);
    UnitQuotient(Sum(lambdas[..t + 1]), WeightedMeans(x, lambdas)[t].val, Sum(Weighted(x, lambdas)[..t + 1]));
  }

  lemma WeightedTermBetween(a: real, lambda: real)
    requires 0.0 <= a <= 1.0 && 0.0 <= lambda
    ensures 0.0 <= a * lambda <= lambda
  {
    NonnegativeProduct(a, lambda);
    ScaleMonotoneRight(a, 1.0, lambda);
  }

  /** With data in `[0, 1]` and nonnegative bets, the first `n` weighted observations sum to
      between 0 and the sum of the first `n` bets. */
  lemma {:induction false} WeightedSumBetween(x: seq<real>, lambdas: seq<real>, n: nat)
    requires |lambdas| == |x| && n <= |x| && UnitInterval(x)
    requires forall i :: 0 <= i < |x| ==> 0.0 <= lambdas[i]
    ensures 0.0 <= Sum(Weighted(x, lambdas)[..n]) <= Sum(lambdas[..n])
  {
    if n > 0 {
      var w := Weighted(x, lambdas);
      WeightedSumBetween(x, lambdas, n - 1);
      assert w[..n][..n - 1] == w[..n - 1];
      assert lambdas[..n][..n - 1] == lambdas[..n - 1];
      WeightedTermBetween(x[n - 1], lambdas[n - 1]);
      assert w[n - 1] == x[n - 1] * lambdas[n - 1];
      assert 0.0 <= x[n - 1] * lambdas[n - 1] <= lambdas[n - 1];
      assert 0.0 <= w[n - 1] <= lambdas[n - 1];
      assert Sum(w[..n]) == Sum(w[..n - 1]) + w[n - 1];
      assert Sum(lambdas[..n]) == Sum(lambdas[..n - 1]) + lambdas[n - 1];
    } else {
      assert Weighted(x, lambdas)[..n] == [] && lambdas[..n] == [];
    }
  }

  /** `predmix_empbern_cs`. The truncation must lie below 1, where `log(1 - lambda)` is finite. */
  function EmpBernCs(k: Calculus, x: seq<real>, alpha: real, truncation: real, runningIntersection: bool,
                     fixedN: Option<nat>): (cs: Cs)
    requires k.Lawful() && 0.0 < alpha && truncation < 1.0 && (fixedN.Some? ==> 0 < fixedN.value)
    ensures |cs.lower| == |x| && |cs.upper| == |x|
  {
    EmpBernFromBets(k, x, EmpBernBets(k, x, alpha, truncation, fixedN), alpha, runningIntersection)
  }

  /** The raw empirical-Bernstein interval clamped to `[0, 1]` and intersected on request. */
  function EmpBernFromBets(k: Calculus, x: seq<real>, lambdas: seq<real>, alpha: real, runningIntersection: bool)
    : (cs: Cs)
    requires |lambdas| == |x| && 0.0 < alpha
    ensures |cs.lower| == |x| && |cs.upper| == |x|
  {
    var raw := EmpBernRaw(k, x, lambdas, alpha);
    ClampAndIntersect(raw.lower, raw.upper, runningIntersection)
  }

  /** `weighted_mu_hat_t - margin, weighted_mu_hat_t + margin`, before clamping. */
  function EmpBernRaw(k: Calculus, x: seq<real>, lambdas: seq<real>, alpha: real): (raw: Cs)
    requires |lambdas| == |x| && 0.0 < alpha
    ensures |raw.lower| == |x| && |raw.upper| == |x|
  {
    var margin := EmpBernMargins(k, x, lambdas, alpha);
    var w := WeightedMeans(x, lambdas);
    Cs(seq(|x|, t requires 0 <= t < |x| => Sub(w[t], margin[t])),
       seq(|x|, t requires 0 <= t < |x| => Add(w[t], margin[t])))
  }

  /** For bets in `(0, 1)` and `alpha` in `(0, 2)`, the raw empirical-Bernstein interval at time `t`
      is the weighted mean minus and plus a positive margin, so it strictly brackets the mean. */
  lemma EmpBernBrackets(k: Calculus, x: seq<real>, lambdas: seq<real>, alpha: real, t: nat)
    requires k.Lawful() && 0.0 < alpha < 2.0 && |lambdas| == |x| && t < |x|
    requires forall i :: 0 <= i < |x| ==> 0.0 < lambdas[i] < 1.0
    ensures var w := WeightedMeans(x, lambdas)[t];
      var margin := EmpBernMargins(k, x, lambdas, alpha)[t];
      w.Num? && margin.Num? && 0.0 < margin.val &&
      EmpBernRaw(k, x, lambdas, alpha).lower[t] == Num(w.val - margin.val) &&
      EmpBernRaw(k, x, lambdas, alpha).upper[t] == Num(w.val + margin.val)
  {
    MarginPositive(k, x, lambdas, alpha, t);
  }

  /** Every psi term is nonnegative for `lambda < 1`, as `log(1 - lambda) <= -lambda`. */
  lemma PsiTermNonnegative(k: Calculus, dev: real, lambda: real)
    requires k.Lawful() && lambda < 1.0
    ensures 0.0 <= PsiTerm(k, dev, lambda)
  {
    LnBelowTangent(k, 1.0 - lambda);
    NonnegativeProduct(Square(dev), -k.ln(1.0 - lambda) - lambda);
  }

  lemma EmpBernPsiNonnegative(k: Calculus, x: seq<real>, lambdas: seq<real>)
    requires k.Lawful() && |lambdas| == |x| && forall i :: 0 <= i < |x| ==> lambdas[i] < 1.0
    ensures forall i :: 0 <= i < |x| ==> 0.0 <= EmpBernPsi(k, x, lambdas)[i]
  {
    forall i | 0 <= i < |x|
      ensures 0.0 <= EmpBernPsi(k, x, lambdas)[i]
    {
      PsiTermNonnegative(k, x[i] - Shift(0.0, RunningMeans(x))[i], lambdas[i]);
    }
  }

  lemma LnTwoOverAlphaPositive(k: Calculus, alpha: real)
    requires k.Lawful() && 0.0 < alpha < 2.0
    ensures 0.0 < k.ln(2.0 / alpha)
  {
    assert 1.0 < 2.0 / alpha;
  }

  /** The empirical-Bernstein margin is positive and every weighted mean finite, for `alpha` in
      `(0, 1)` and a truncation in `(0, 1)`: the raw interval strictly contains the weighted mean. */
  lemma EmpBernMarginPositive(k: Calculus, x: seq<real>, alpha: real, truncation: real, fixedN: Option<nat>, t: nat)
    requires k.Lawful() && 0.0 < alpha < 1.0 && 0.0 < truncation < 1.0 && (fixedN.Some? ==> 0 < fixedN.value)
    requires t < |x|
    ensures EmpBernMargins(k, x, EmpBernBets(k, x, alpha, truncation, fixedN), alpha)[t].Num?
    ensures 0.0 < EmpBernMargins(k, x, EmpBernBets(k, x, alpha, truncation, fixedN), alpha)[t].val
    ensures WeightedMeans(x, EmpBernBets(k, x, alpha, truncation, fixedN))[t].Num?
  {
    MarginPositive(k, x, EmpBernBets(k, x, alpha, truncation, fixedN), alpha, t);
  }

  /** For bets in `(0, 1)` and `alpha` in `(0, 2)`, every empirical-Bernstein margin is a positive
      number and every weighted mean a number. */
  lemma MarginPositive(k: Calculus, x: seq<real>, lambdas: seq<real>, alpha: real, t: nat)
    requires k.Lawful() && 0.0 < alpha < 2.0 && |lambdas| == |x| && t < |x|
    requires forall i :: 0 <= i < |x| ==> 0.0 < lambdas[i] < 1.0
    ensures EmpBernMargins(k, x, lambdas, alpha)[t].Num? && 0.0 < EmpBernMargins(k, x, lambdas, alpha)[t].val
    ensures WeightedMeans(x, lambdas)[t].Num?
  {
    var psi := EmpBernPsi(k, x, lambdas);
    EmpBernPsiNonnegative(k, x, lambdas);
    SumNonnegative(psi[..t + 1]);
    PositiveSum(lambdas[..t + 1]);
    LnTwoOverAlphaPositive(k, alpha);
    DivPositive(k.ln(2.0 / alpha) + Sum(psi[..t + 1]), Sum(lambdas[..t + 1]));
  }

  /** A nonempty sum of positive numbers is positive. */
  lemma {:induction false} PositiveSum(s: seq<real>)
    requires 0 < |s| && forall i :: 0 <= i < |s| ==> 0.0 < s[i]
    ensures 0.0 < Sum(s)
    decreases |s|
  {
    if |s| > 1 {
      PositiveSum(s[..|s| - 1]);
    } else {
      assert Sum(s) == Sum(s[..0]) + s[0];
    }
  }

  lemma DivPositive(a: real, b: real)
    requires 0.0 < a && 0.0 < b
    ensures Div(a, b).Num? && 0.0 < Div(a, b).val
  {
    NonnegativeFactor(b, Div(a, b).val);
  }

  // ---------------------------------------------------------------------------------------------
  // predmix_hoeffding_cs

  /** The default Hoeffding bet `min(1, sqrt(8 log(2 / alpha) / (t log(t + 1))))`, `t` counted from
      one; `alpha <= 2` keeps the square root real. */
  function HoeffdingDefaultBet(k: Calculus, alpha: real, t: nat): (b: real)
    requires k.Lawful() && 0.0 < alpha <= 2.0
    ensures 0.0 <= b <= 1.0
    ensures alpha < 2.0 ==> 0.0 < b
  {
    HoeffdingRootPositive(k, alpha, t);
    var root := k.sqrt(HoeffdingSquaredBet(k, alpha, t));
    if 1.0 <= root then 1.0 else root
  }

  /** `8 log(2 / alpha) / (t log(t + 1))`, `t` counted from one. */
  function HoeffdingSquaredBet(k: Calculus, alpha: real, t: nat): (s: real)
    requires k.Lawful() && 0.0 < alpha
  {
    var time := (t + 1) as real;
    PositiveProduct(time, k.ln(time + 1.0));
    8.0 * k.ln(2.0 / alpha) / (time * k.ln(time + 1.0))
  }

  lemma HoeffdingRootPositive(k: Calculus, alpha: real, t: nat)
    requires k.Lawful() && 0.0 < alpha <= 2.0
    ensures 0.0 <= k.sqrt(HoeffdingSquaredBet(k, alpha, t))
    ensures alpha < 2.0 ==> 0.0 < k.sqrt(HoeffdingSquaredBet(k, alpha, t))
  {
    var time := (t + 1) as real;
    var s := HoeffdingSquaredBet(k, alpha, t);
    PositiveProduct(time, k.ln(time + 1.0));
    assert s * (time * k.ln(time + 1.0)) == 8.0 * k.ln(2.0 / alpha);
    assert 1.0 <= 2.0 / alpha;
    LnAtLeastOne(k, 2.0 / alpha);
    NonnegativeFactor(time * k.ln(time + 1.0), s);
    SqrtSquare(k, s);
    if alpha < 2.0 {
      assert 1.0 < 2.0 / alpha;
      assert 0.0 < k.ln(2.0 / alpha);
      assert s != 0.0;
      SqrtPositive(k, s);
    }
  }

  /** The Hoeffding weighted mean, NaN (no bets placed yet) replaced by `1/2`. */
  function HoeffdingWeightedMean(x: seq<real>, lambdas: seq<real>, t: nat): (w: Float)
    requires |lambdas| == |x| && t < |x|
    ensures !w.NaN?
    ensures Sum(lambdas[..t + 1]) == 0.0 && Sum(Weighted(x, lambdas)[..t + 1]) == 0.0 ==> w == Num(0.5)
    ensures Sum(lambdas[..t + 1]) != 0.0 ==> w.Num? && w.val * Sum(lambdas[..t + 1]) == Sum(Weighted(x, lambdas)[..t + 1])
  {
    var raw := WeightedMeans(x, lambdas)[t];
    if raw.NaN? then Num(0.5) else raw
  }

  /** `(cumsum(lambdas^2) / 8 + log(2 / alpha)) / cumsum(lambdas)`. */
  function HoeffdingMargin(k: Calculus, lambdas: seq<real>, alpha: real, t: nat): Float
    requires 0.0 < alpha && t < |lambdas|
  {
    var squares := seq(|lambdas|, i requires 0 <= i < |lambdas| => Square(lambdas[i]));
    Div(Sum(squares[..t + 1]) / 8.0 + k.ln(2.0 / alpha), Sum(lambdas[..t + 1]))
  }

  /** The bets of `predmix_hoeffding_cs`: the given ones, or the default schedule. */
  function HoeffdingBets(k: Calculus, x: seq<real>, lambdaParams: Option<seq<real>>, alpha: real): (lambdas: seq<real>)
    requires k.Lawful() && 0.0 < alpha
    requires lambdaParams.Some? ==> |lambdaParams.value| == |x|
    requires lambdaParams.None? ==> alpha <= 2.0
    ensures |lambdas| == |x|
    ensures lambdaParams.Some? ==> lambdas == lambdaParams.value
    ensures lambdaParams.None? ==> forall t :: 0 <= t < |x| ==> 0.0 <= lambdas[t] <= 1.0
  {
    match lambdaParams
    case Some(given) => given
    case None => seq(|x|, t requires 0 <= t < |x| => HoeffdingDefaultBet(k, alpha, t))
  }

  /** `predmix_hoeffding_cs`. */
  function HoeffdingCs(k: Calculus, x: seq<real>, lambdaParams: Option<seq<real>>, alpha: real,
                       runningIntersection: bool): (cs: Cs)
    requires k.Lawful() && 0.0 < alpha
    requires lambdaParams.Some? ==> |lambdaParams.value| == |x|
    requires lambdaParams.None? ==> alpha <= 2.0
    ensures |cs.lower| == |x| && |cs.upper| == |x|
  {
    var raw := HoeffdingRaw(k, x, HoeffdingBets(k, x, lambdaParams, alpha), alpha);
    ClampAndIntersect(raw.lower, raw.upper, runningIntersection)
  }

  /** The Hoeffding weighted mean minus and plus the margin, before clamping. */
  function HoeffdingRaw(k: Calculus, x: seq<real>, lambdas: seq<real>, alpha: real): (raw: Cs)
    requires |lambdas| == |x| && 0.0 < alpha
    ensures |raw.lower| == |x| && |raw.upper| == |x|
  {
    Cs(seq(|x|, t requires 0 <= t < |x| => Sub(HoeffdingWeightedMean(x, lambdas, t), HoeffdingMargin(k, lambdas, alpha, t))),
       seq(|x|, t requires 0 <= t < |x| => Add(HoeffdingWeightedMean(x, lambdas, t), HoeffdingMargin(k, lambdas, alpha, t))))
  }

  /** For positive bets and `alpha` in `(0, 2)`, the raw Hoeffding interval at time `t` is the
      weighted mean minus and plus a positive margin, so it strictly brackets the mean. */
  lemma HoeffdingBrackets(k: Calculus, x: seq<real>, lambdas: seq<real>, alpha: real, t: nat)
    requires k.Lawful() && 0.0 < alpha < 2.0 && |lambdas| == |x| && t < |x|
    requires forall i :: 0 <= i < |x| ==> 0.0 < lambdas[i]
    ensures var w := HoeffdingWeightedMean(x, lambdas, t);
      var margin := HoeffdingMargin(k, lambdas, alpha, t);
      w.Num? && margin.Num? && 0.0 < margin.val &&
      HoeffdingRaw(k, x, lambdas, alpha).lower[t] == Num(w.val - margin.val) &&
      HoeffdingRaw(k, x, lambdas, alpha).upper[t] == Num(w.val + margin.val)
  {
    HoeffdingMarginPositive(k, lambdas, alpha, t);
    PositiveSum(lambdas[..t + 1]);
  }

  /** With positive bets and `alpha < 2`, the Hoeffding margin is positive, so the raw interval
      strictly contains the weighted mean. */
  lemma HoeffdingMarginPositive(k: Calculus, lambdas: seq<real>, alpha: real, t: nat)
    requires k.Lawful() && 0.0 < alpha < 2.0 && t < |lambdas|
    requires forall i :: 0 <= i < |lambdas| ==> 0.0 < lambdas[i]
    ensures HoeffdingMargin(k, lambdas, alpha, t).Num? && 0.0 < HoeffdingMargin(k, lambdas, alpha, t).val
  {
    var squares := seq(|lambdas|, i requires 0 <= i < |lambdas| => Square(lambdas[i]));
    SumNonnegative(squares[..t + 1]);
    PositiveSum(lambdas[..t + 1]);
    assert 1.0 < 2.0 / alpha;
    assert 0.0 < k.ln(2.0 / alpha);
    DivPositive(Sum(squares[..t + 1]) / 8.0 + k.ln(2.0 / alpha), Sum(lambdas[..t + 1]));
  }

  /** Every empirical-Bernstein lower bound is at least 0 and every upper bound at most 1, and the
      running intersection makes them monotone. */
  lemma EmpBernCsInUnit(k: Calculus, x: seq<real>, alpha: real, truncation: real, runningIntersection: bool,
                        fixedN: Option<nat>, i: nat, j: nat)
    requires k.Lawful() && 0.0 < alpha < 1.0 && 0.0 < truncation < 1.0 && (fixedN.Some? ==> 0 < fixedN.value)
    requires i <= j < |x|
    ensures AtLeast(EmpBernCs(k, x, alpha, truncation, runningIntersection, fixedN).lower[j], 0.0)
    ensures AtMost(EmpBernCs(k, x, alpha, truncation, runningIntersection, fixedN).upper[j], 1.0)
    ensures runningIntersection ==>
      Le(EmpBernCs(k, x, alpha, truncation, runningIntersection, fixedN).lower[i],
         EmpBernCs(k, x, alpha, truncation, runningIntersection, fixedN).lower[j]) &&
      Le(EmpBernCs(k, x, alpha, truncation, runningIntersection, fixedN).upper[j],
         EmpBernCs(k, x, alpha, truncation, runningIntersection, fixedN).upper[i])
  {
    EmpBernFromBetsInUnit(k, x, EmpBernBets(k, x, alpha, truncation, fixedN), alpha, runningIntersection, i, j);
  }

  /** For bets in `(0, 1)` and `alpha` in `(0, 2)` every empirical-Bernstein lower bound is at least
      0 and every upper bound at most 1, and the running intersection makes them monotone. */
  lemma EmpBernFromBetsInUnit(k: Calculus, x: seq<real>, lambdas: seq<real>, alpha: real, runningIntersection: bool,
                              i: nat, j: nat)
    requires k.Lawful() && 0.0 < alpha < 2.0 && |lambdas| == |x| && i <= j < |x|
    requires forall t :: 0 <= t < |x| ==> 0.0 < lambdas[t] < 1.0
    ensures AtLeast(EmpBernFromBets(k, x, lambdas, alpha, runningIntersection).lower[j], 0.0)
    ensures AtMost(EmpBernFromBets(k, x, lambdas, alpha, runningIntersection).upper[j], 1.0)
    ensures runningIntersection ==>
      Le(EmpBernFromBets(k, x, lambdas, alpha, runningIntersection).lower[i],
         EmpBernFromBets(k, x, lambdas, alpha, runningIntersection).lower[j]) &&
      Le(EmpBernFromBets(k, x, lambdas, alpha, runningIntersection).upper[j],
         EmpBernFromBets(k, x, lambdas, alpha, runningIntersection).upper[i])
  {
    var raw := EmpBernRaw(k, x, lambdas, alpha);
    forall t | 0 <= t < |x|
      ensures !raw.lower[t].NaN? && !raw.upper[t].NaN?
    {
      EmpBernBrackets(k, x, lambdas, alpha, t);
    }
    ClampAndIntersectBounds(raw.lower, raw.upper, runningIntersection, i, j);
  }

  /** With positive (or default) bets every Hoeffding lower bound is at least 0 and every upper bound
      at most 1, and the running intersection makes them monotone. */
  lemma HoeffdingCsInUnit(k: Calculus, x: seq<real>, lambdaParams: Option<seq<real>>, alpha: real,
                          runningIntersection: bool, i: nat, j: nat)
    requires k.Lawful() && 0.0 < alpha < 2.0
    requires lambdaParams.Some? ==> |lambdaParams.value| == |x|
    requires lambdaParams.Some? ==> forall t :: 0 <= t < |x| ==> 0.0 < lambdaParams.value[t]
    requires i <= j < |x|
    ensures AtLeast(HoeffdingCs(k, x, lambdaParams, alpha, runningIntersection).lower[j], 0.0)
    ensures AtMost(HoeffdingCs(k, x, lambdaParams, alpha, runningIntersection).upper[j], 1.0)
    ensures runningIntersection ==>
      Le(HoeffdingCs(k, x, lambdaParams, alpha, runningIntersection).lower[i],
         HoeffdingCs(k, x, lambdaParams, alpha, runningIntersection).lower[j]) &&
      Le(HoeffdingCs(k, x, lambdaParams, alpha, runningIntersection).upper[j],
         HoeffdingCs(k, x, lambdaParams, alpha, runningIntersection).upper[i])
  {
    var lambdas := HoeffdingBets(k, x, lambdaParams, alpha);
    forall t | 0 <= t < |x|
      ensures 0.0 < lambdas[t]
    {
      if lambdaParams.None? {
        assert lambdas[t] == HoeffdingDefaultBet(k, alpha, t);
      }
    }
    var raw := HoeffdingRaw(k, x, lambdas, alpha);
    forall t | 0 <= t < |x|
      ensures !raw.lower[t].NaN? && !raw.upper[t].NaN?
    {
      HoeffdingBrackets(k, x, lambdas, alpha, t);
    }
    ClampAndIntersectBounds(raw.lower, raw.upper, runningIntersection, i, j);
  }
}
