/**
 The mixture supermartingales of uniform_boundaries.h as one tagged variant:
 each family stores the constants its constructor derives, implements
 `log_superMG(s, v)`, `s_upper_bound(v)` and `bound(v, log_threshold)`, and
 `MixtureBoundary` turns a mixture into the boundary `(v, alpha) |-> bound(v, log(1/alpha))`.

 The two-sided normal mixture is closed form; its `bound` is the exact inverse
 of its `log_superMG`, and it agrees with the generic inversion to within the
 final bracket. The other families go through the generic inversion; the
 log-supermartingales of the gamma and beta-binomial families are compositions
 of Boost special functions and enter as uninterpreted functions.
 */
module Mixtures {
  import opened Results
  import opened Calculus
  import opened Special
  import opened Inversion

  datatype Mixture =
    | TwoSidedNormal(rho: real)
    | OneSidedNormal(rho: real)
    | GammaExponential(rho: real, c: real, leadingConstant: real)
    | GammaPoisson(rho: real, c: real, leadingConstant: real)
    | BetaBinomial(r: real, g: real, h: real, isOneSided: bool)
  {
    /** What every constructor establishes: a positive scale, and for the beta-binomial
        mixture positive `g`, `h` and `r`. */
    predicate Valid() {
      match this
      case TwoSidedNormal(rho) => 0.0 < rho
      case OneSidedNormal(rho) => 0.0 < rho
      case GammaExponential(rho, _, _) => 0.0 < rho
      case GammaPoisson(rho, _, _) => 0.0 < rho
      case BetaBinomial(r, g, h, _) => 0.0 < g && 0.0 < h && 0.0 < r
    }
  }

  /** The assertions a constructor can fail. */
  datatype ConstructionError = NonPositiveVOpt | AlphaOutOfRange | NonPositiveG | NonPositiveH | NonPositiveR

  // ---------------------------------------------------------------------------
  // Calibration

  /** `TwoSidedNormalMixture::best_rho(v, alpha)`. */
  function BestRho(k: Calculus, v: real, alpha: real): (rho: real)
    requires k.Lawful() && 0.0 < v && 0.0 < alpha < 1.0
    ensures 0.0 < rho
  {
    var l := k.ln(1.0 / alpha);
    LogThresholdPositive(k, alpha);
    assert 0.0 < k.ln(1.0 + 2.0 * l);
    v / (2.0 * l + k.ln(1.0 + 2.0 * l))
  }

  lemma LogThresholdPositive(k: Calculus, alpha: real)
    requires k.Lawful() && 0.0 < alpha < 1.0
    ensures 0.0 < k.ln(1.0 / alpha)
  {
    assert 1.0 < 1.0 / alpha;
  }

  /** `OneSidedNormalMixture::best_rho(v, alpha)`: the two-sided calibration at `2 * alpha`, so it
      needs `alpha < 1/2`; it is larger than the two-sided calibration at the same `alpha`. */
  function OneSidedBestRho(k: Calculus, v: real, alpha: real): (rho: real)
    requires k.Lawful() && 0.0 < v && 0.0 < alpha < 0.5
    ensures rho == BestRho(k, v, 2.0 * alpha)
    ensures 0.0 < rho
    ensures BestRho(k, v, alpha) < rho
  {
    BestRhoIncreasing(k, v, alpha, 2.0 * alpha);
    BestRho(k, v, 2.0 * alpha)
  }

  /** `best_rho` strictly increases with `alpha` at fixed `v`. */
  lemma BestRhoIncreasing(k: Calculus, v: real, alpha1: real, alpha2: real)
    requires k.Lawful() && 0.0 < v && 0.0 < alpha1 < alpha2 < 1.0
    ensures BestRho(k, v, alpha1) < BestRho(k, v, alpha2)
  {
    var x1, x2 := 1.0 / alpha1, 1.0 / alpha2;
    ReciprocalDecreasing(alpha1, alpha2);
    LogThresholdPositive(k, alpha2);
    LnStrictlyMonotone(k, x2, x1);
    var l1, l2 := k.ln(x1), k.ln(x2);
    LnStrictlyMonotone(k, 1.0 + 2.0 * l2, 1.0 + 2.0 * l1);
    var d1, d2 := 2.0 * l1 + k.ln(1.0 + 2.0 * l1), 2.0 * l2 + k.ln(1.0 + 2.0 * l2);
    assert 0.0 < k.ln(1.0 + 2.0 * l2);
    DivideByLarger(v, d2, d1);
  }

  lemma DivideByLarger(v: real, d: real, e: real)
    requires 0.0 < v && 0.0 < d < e
    ensures v / e < v / d
  {
    assert v / e * e == v;
    assert v / d * d == v;
  }

  /** The calibration every normal-family constructor runs: one- or two-sided `best_rho`, with the
      assertions of `best_rho` as construction errors. */
  function Calibrate(k: Calculus, vOpt: real, alphaOpt: real, isOneSided: bool): (r: Result<real, ConstructionError>)
    requires k.Lawful()
    ensures r.Success? <==> 0.0 < vOpt && 0.0 < alphaOpt && (if isOneSided then alphaOpt < 0.5 else alphaOpt < 1.0)
    ensures r.Failure? ==> (r.error == NonPositiveVOpt <==> vOpt <= 0.0)
    ensures r.Success? ==> 0.0 < r.value
  {
    if vOpt <= 0.0 then Failure(NonPositiveVOpt)
    else if isOneSided then
      if 0.0 < alphaOpt < 0.5 then Success(OneSidedBestRho(k, vOpt, alphaOpt)) else Failure(AlphaOutOfRange)
    else
      if 0.0 < alphaOpt < 1.0 then Success(BestRho(k, vOpt, alphaOpt)) else Failure(AlphaOutOfRange)
  }

  // ---------------------------------------------------------------------------
  // Construction

  function MakeTwoSidedNormal(k: Calculus, vOpt: real, alphaOpt: real): (r: Result<Mixture, ConstructionError>)
    requires k.Lawful()
    ensures r.Success? <==> 0.0 < vOpt && 0.0 < alphaOpt < 1.0
    ensures r.Success? ==> r.value.TwoSidedNormal? && r.value.Valid()
  {
    match Calibrate(k, vOpt, alphaOpt, false)
    case Success(rho) => Success(TwoSidedNormal(rho))
    case Failure(e) => Failure(e)
  }

  function MakeOneSidedNormal(k: Calculus, vOpt: real, alphaOpt: real): (r: Result<Mixture, ConstructionError>)
    requires k.Lawful()
    ensures r.Success? <==> 0.0 < vOpt && 0.0 < alphaOpt < 0.5
    ensures r.Success? ==> r.value.OneSidedNormal? && r.value.Valid()
  {
    match Calibrate(k, vOpt, alphaOpt, true)
    case Success(rho) => Success(OneSidedNormal(rho))
    case Failure(e) => Failure(e)
  }

  /** The gamma-exponential constructor calibrates like the one-sided normal mixture and does not check `c`. */
  function MakeGammaExponential(k: Calculus, sp: Special, vOpt: real, alphaOpt: real, c: real): (r: Result<Mixture, ConstructionError>)
    requires k.Lawful()
    ensures r.Success? <==> 0.0 < vOpt && 0.0 < alphaOpt < 0.5
    ensures r.Success? ==> r.value.GammaExponential? && r.value.Valid() && r.value.c == c
    ensures r.Success? ==> r.value.leadingConstant == sp.gammaExponentialLeading(r.value.rho, c)
  {
    match Calibrate(k, vOpt, alphaOpt, true)
    case Success(rho) => Success(GammaExponential(rho, c, sp.gammaExponentialLeading(rho, c)))
    case Failure(e) => Failure(e)
  }

  function MakeGammaPoisson(k: Calculus, sp: Special, vOpt: real, alphaOpt: real, c: real): (r: Result<Mixture, ConstructionError>)
    requires k.Lawful()
    ensures r.Success? <==> 0.0 < vOpt && 0.0 < alphaOpt < 0.5
    ensures r.Success? ==> r.value.GammaPoisson? && r.value.Valid() && r.value.c == c
    ensures r.Success? ==> r.value.leadingConstant == sp.gammaPoissonLeading(r.value.rho, c)
  {
    match Calibrate(k, vOpt, alphaOpt, true)
    case Success(rho) => Success(GammaPoisson(rho, c, sp.gammaPoissonLeading(rho, c)))
    case Failure(e) => Failure(e)
  }

  /** The beta-binomial constructor: `r = best_rho - g*h` with one- or two-sided `best_rho`, then the
      assertions `g > 0`, `h > 0`, `r > 0` in that order. */
  function MakeBetaBinomial(k: Calculus, vOpt: real, alphaOpt: real, g: real, h: real, isOneSided: bool)
    : (r: Result<Mixture, ConstructionError>)
    requires k.Lawful()
    ensures r.Success? <==>
      && Calibrate(k, vOpt, alphaOpt, isOneSided).Success?
      && 0.0 < g && 0.0 < h && 0.0 < Calibrate(k, vOpt, alphaOpt, isOneSided).value - g * h
    ensures r.Success? ==> r.value.BetaBinomial? && r.value.Valid()
    ensures r.Success? ==> r.value.g == g && r.value.h == h && r.value.isOneSided == isOneSided
    ensures r.Success? ==> r.value.r + g * h == Calibrate(k, vOpt, alphaOpt, isOneSided).value
    ensures r.Failure? && Calibrate(k, vOpt, alphaOpt, isOneSided).Success? ==>
      r.error == (if g <= 0.0 then NonPositiveG else if h <= 0.0 then NonPositiveH else NonPositiveR)
  {
    match Calibrate(k, vOpt, alphaOpt, isOneSided)
    case Failure(e) => Failure(e)
    case Success(rho) =>
      var r := rho - g * h;
      if g <= 0.0 then Failure(NonPositiveG)
      else if h <= 0.0 then Failure(NonPositiveH)
      else if r <= 0.0 then Failure(NonPositiveR)
      else Success(BetaBinomial(r, g, h, isOneSided))
  }

  // ---------------------------------------------------------------------------
  // The three operations

  /** `log_superMG(s, v)` of each family. */
  function LogSuperMG(k: Calculus, sp: Special, m: Mixture, s: real, v: real): real
    requires k.Lawful() && m.Valid() && 0.0 <= v
  {
    match m
    case TwoSidedNormal(rho) => TwoSidedLogSuperMG(k, rho, s, v)
    case OneSidedNormal(rho) =>
      SqrtPositive(k, v + rho);
      0.5 * k.ln(4.0 * rho / (v + rho)) + s * s / (2.0 * (v + rho))
        + k.ln(sp.normalCdf(s / k.sqrt(v + rho)))
    case GammaExponential(rho, c, leading) => sp.gammaExponentialLogSuperMG(rho, c, leading, s, v)
    case GammaPoisson(rho, c, leading) => sp.gammaPoissonLogSuperMG(rho, c, leading, s, v)
    case BetaBinomial(r, g, h, oneSided) => sp.betaBinomialLogSuperMG(r, g, h, oneSided, s, v)
  }

  /** `TwoSidedNormalMixture::log_superMG(s, v)`. */
  function TwoSidedLogSuperMG(k: Calculus, rho: real, s: real, v: real): real
    requires 0.0 < rho && 0.0 <= v
  {
    0.5 * k.ln(rho / (v + rho)) + s * s / (2.0 * (v + rho))
  }

  /** `s |-> log_superMG(s, v)`, the function the generic inversion searches. */
  function Profile(k: Calculus, sp: Special, m: Mixture, v: real): real -> real
    requires k.Lawful() && m.Valid() && 0.0 <= v
  {
    s => LogSuperMG(k, sp, m, s, v)
  }

  /** `s_upper_bound(v)`: only the beta-binomial mixture, whose increments are bounded, has a finite
      ceiling, `v / g`. */
  function SUpperBound(m: Mixture, v: real): (u: Ceiling)
    requires m.Valid() && 0.0 <= v
    ensures u.Finite? <==> m.BetaBinomial?
    ensures u.Finite? ==> 0.0 <= u.value && u.value * m.g == v
  {
    match m
    case BetaBinomial(_, g, _, _) => Finite(v / g)
    case _ => Infinite
  }

  datatype BoundError = RootFinding(cause: RootError) | NotANumber

  /** `TwoSidedNormalMixture::bound(v, log_threshold)`: the closed form, NaN when the square root's
      argument is negative. */
  function TwoSidedBound(k: Calculus, rho: real, v: real, logThreshold: real): (r: Result<real, BoundError>)
    requires k.Lawful() && 0.0 < rho && 0.0 <= v
    ensures r.Failure? <==> (v + rho) * (k.ln(1.0 + v / rho) + 2.0 * logThreshold) < 0.0
    ensures r.Failure? ==> r.error == NotANumber
    ensures r.Success? ==> 0.0 <= r.value
    ensures r.Success? ==> r.value * r.value == (v + rho) * (k.ln(1.0 + v / rho) + 2.0 * logThreshold)
  {
    var radicand := (v + rho) * (k.ln(1.0 + v / rho) + 2.0 * logThreshold);
    if radicand < 0.0 then Failure(NotANumber)
    else
      SqrtSquare(k, radicand);
      Success(k.sqrt(radicand))
  }

  /** The inherited `MixtureSupermartingale::bound`: the generic inversion, its errors wrapped. */
  function InvertedBound(k: Calculus, sp: Special, m: Mixture, v: real, logThreshold: real, iterations: nat)
    : (r: Result<real, BoundError>)
    requires k.Lawful() && m.Valid() && 0.0 <= v
    ensures r.Success? <==> FindMixtureBound(Profile(k, sp, m, v), SUpperBound(m, v), v, logThreshold, iterations).Success?
    ensures r.Success? ==> 0.0 <= r.value <= SearchCeiling(Profile(k, sp, m, v), SUpperBound(m, v), v, logThreshold)
    ensures m.BetaBinomial? && r.Success? ==> r.value <= v / m.g
  {
    WrapRoot(Profile(k, sp, m, v), SUpperBound(m, v), v, logThreshold, iterations)
  }

  /** The inversion of any profile with its root-finding error wrapped; a success stays below the
      finite ceiling. */
  function WrapRoot(f: real -> real, ceiling: Ceiling, v: real, logThreshold: real, iterations: nat)
    : (r: Result<real, BoundError>)
    requires 0.0 <= v && (ceiling.Finite? ==> 0.0 <= ceiling.value)
    ensures r.Success? <==> FindMixtureBound(f, ceiling, v, logThreshold, iterations).Success?
    ensures r.Success? ==> r.value == FindMixtureBound(f, ceiling, v, logThreshold, iterations).value
    ensures r.Failure? ==> r.error == RootFinding(FindMixtureBound(f, ceiling, v, logThreshold, iterations).error)
    ensures r.Success? ==> 0.0 <= r.value <= SearchCeiling(f, ceiling, v, logThreshold)
    ensures r.Success? && ceiling.Finite? ==> r.value <= ceiling.value
  {
    match FindMixtureBound(f, ceiling, v, logThreshold, iterations)
    case Success(b) => Success(b)
    case Failure(e) => Failure(RootFinding(e))
  }

  /** `bound(v, log_threshold)`: closed form for the two-sided normal mixture, the generic inversion
      with `iterations` halving steps for every other family. */
  function Bound(k: Calculus, sp: Special, m: Mixture, v: real, logThreshold: real, iterations: nat)
    : (r: Result<real, BoundError>)
    requires k.Lawful() && m.Valid() && 0.0 <= v
    ensures r.Success? ==> 0.0 <= r.value
    ensures m.TwoSidedNormal? ==> r == TwoSidedBound(k, m.rho, v, logThreshold)
    ensures !m.TwoSidedNormal? ==> r == InvertedBound(k, sp, m, v, logThreshold, iterations)
    ensures m.BetaBinomial? && r.Success? ==> r.value <= v / m.g
  {
    if m.TwoSidedNormal? then TwoSidedBound(k, m.rho, v, logThreshold)
    else InvertedBound(k, sp, m, v, logThreshold, iterations)
  }

  /** `MixtureBoundary::operator()(v, alpha)`: the bound at log-threshold `log(1/alpha)`. For the
      two-sided normal mixture and `alpha` in `(0, 1)` it always exists, and the log-supermartingale
      at the boundary value is exactly `log(1/alpha)`: the boundary is where the mixture reaches
      `1/alpha`. */
  function Boundary(k: Calculus, sp: Special, m: Mixture, v: real, alpha: real, iterations: nat)
    : (r: Result<real, BoundError>)
    requires k.Lawful() && m.Valid() && 0.0 <= v && 0.0 < alpha
    ensures r == Bound(k, sp, m, v, k.ln(1.0 / alpha), iterations)
    ensures r.Success? ==> 0.0 <= r.value
    ensures m.BetaBinomial? && r.Success? ==> r.value <= v / m.g
    ensures m.TwoSidedNormal? && alpha < 1.0 ==>
      r.Success? && TwoSidedLogSuperMG(k, m.rho, r.value, v) == k.ln(1.0 / alpha)
  {
    if m.TwoSidedNormal? && alpha < 1.0 then
      LogThresholdPositive(k, alpha);
      TwoSidedRoundTrip(k, m.rho, v, k.ln(1.0 / alpha));
      Bound(k, sp, m, v, k.ln(1.0 / alpha), iterations)
    else Bound(k, sp, m, v, k.ln(1.0 / alpha), iterations)
  }

  // ---------------------------------------------------------------------------
  // Properties of the two-sided normal mixture

  /** Its log-supermartingale depends on `s` only through `s*s`: symmetric in `s`. */
  lemma TwoSidedSymmetric(k: Calculus, rho: real, s: real, v: real)
    requires 0.0 < rho && 0.0 <= v
    ensures TwoSidedLogSuperMG(k, rho, s, v) == TwoSidedLogSuperMG(k, rho, -s, v)
  {
    assert s * s == (-s) * (-s);
  }

  /** ... and strictly increasing in `s >= 0`. */
  lemma TwoSidedIncreasing(k: Calculus, rho: real, s1: real, s2: real, v: real)
    requires 0.0 < rho && 0.0 <= v && 0.0 <= s1 < s2
    ensures TwoSidedLogSuperMG(k, rho, s1, v) < TwoSidedLogSuperMG(k, rho, s2, v)
  {
    SquareStrictlyMonotone(s1, s2);
    DivideSmaller(s1 * s1, s2 * s2, 2.0 * (v + rho));
  }

  lemma DivideSmaller(x: real, y: real, d: real)
    requires x < y && 0.0 < d
    ensures x / d < y / d
  {
    assert x / d * d == x;
    assert y / d * d == y;
  }

  lemma TwoSidedNondecreasing(k: Calculus, sp: Special, rho: real, v: real)
    requires k.Lawful() && 0.0 < rho && 0.0 <= v
    ensures forall a, b :: 0.0 <= a <= b ==>
      Profile(k, sp, TwoSidedNormal(rho), v)(a) <= Profile(k, sp, TwoSidedNormal(rho), v)(b)
  {
    forall a, b | 0.0 <= a <= b
      ensures Profile(k, sp, TwoSidedNormal(rho), v)(a) <= Profile(k, sp, TwoSidedNormal(rho), v)(b)
    {
      if a < b {
        TwoSidedIncreasing(k, rho, a, b, v);
      }
    }
  }

  /** Round trip: for `rho > 0`, `v >= 0` and `t >= 0` the closed-form bound exists and
      `log_superMG(bound(v, t), v) == t`. */
  lemma TwoSidedRoundTrip(k: Calculus, rho: real, v: real, t: real)
    requires k.Lawful() && 0.0 < rho && 0.0 <= v && 0.0 <= t
    ensures TwoSidedBound(k, rho, v, t).Success?
    ensures TwoSidedLogSuperMG(k, rho, TwoSidedBound(k, rho, v, t).value, v) == t
  {
    var w := v + rho;
    var growth := 1.0 + v / rho;
    assert 1.0 <= growth;
    LnAtLeastOne(k, growth);
    var l := k.ln(growth);
    NonnegativeProduct(w, l + 2.0 * t);
    var b := TwoSidedBound(k, rho, v, t).value;
    RatioReciprocal(rho, v);
    LnInverse(k, rho / w, growth);
    HalfLogPlusSquare(k.ln(rho / w), l, w, b, t);
  }

  /** The arithmetic of the round trip: with `b*b == w*(l + 2t)`, `-l/2 + b*b/(2w) == t`. */
  lemma HalfLogPlusSquare(lnRatio: real, l: real, w: real, b: real, t: real)
    requires 0.0 < w && b * b == w * (l + 2.0 * t) && lnRatio == -l
    ensures 0.5 * lnRatio + b * b / (2.0 * w) == t
  {
    assert b * b / (2.0 * w) == (l + 2.0 * t) / 2.0;
  }

  lemma RatioReciprocal(rho: real, v: real)
    requires 0.0 < rho && 0.0 <= v
    ensures 0.0 < rho / (v + rho) && (rho / (v + rho)) * (1.0 + v / rho) == 1.0
  {
    var w := v + rho;
    var p, q := rho / w, 1.0 + v / rho;
    assert q * rho == w;
    assert p * w == rho;
    assert (p * q) * rho == p * (q * rho);
    assert (p * q - 1.0) * rho == 0.0;
  }

  /** The closed-form bound agrees with the generic inversion run on the same log-supermartingale:
      whenever the inversion returns, the exact bound lies in its final bracket, so the two differ by
      at most half the bracket width, `U / 2^(iterations + 1)` for the search ceiling `U`. */
  lemma TwoSidedInversionAgrees(k: Calculus, sp: Special, rho: real, v: real, t: real, iterations: nat)
    requires k.Lawful() && 0.0 < rho && 0.0 <= v && 0.0 <= t
    requires FindMixtureBound(Profile(k, sp, TwoSidedNormal(rho), v), Infinite, v, t, iterations).Success?
    ensures TwoSidedBound(k, rho, v, t).Success?
    ensures var f := Profile(k, sp, TwoSidedNormal(rho), v);
      var bracket := FindMixtureBracket(f, Infinite, v, t, iterations).value;
      var exact := TwoSidedBound(k, rho, v, t).value;
      var generic := FindMixtureBound(f, Infinite, v, t, iterations).value;
      var width := Halved(SearchCeiling(f, Infinite, v, t), iterations);
      && bracket.lo <= exact <= bracket.hi
      && -width <= 2.0 * (generic - exact) <= width
  {
    var f := Profile(k, sp, TwoSidedNormal(rho), v);
    TwoSidedRoundTrip(k, rho, v, t);
    var exact := TwoSidedBound(k, rho, v, t).value;
    assert f(exact) == t;
    var bracket := FindMixtureBracket(f, Infinite, v, t, iterations).value;
    if bracket.lo == bracket.hi {
      if bracket.lo < exact {
        TwoSidedIncreasing(k, rho, bracket.lo, exact, v);
      } else if exact < bracket.lo {
        TwoSidedIncreasing(k, rho, exact, bracket.lo, v);
      }
    } else {
      if exact < bracket.lo {
        TwoSidedIncreasing(k, rho, exact, bracket.lo, v);
        TwoSidedIncreasing(k, rho, bracket.lo, bracket.hi, v);
      } else if bracket.hi < exact {
        TwoSidedIncreasing(k, rho, bracket.hi, exact, v);
        TwoSidedIncreasing(k, rho, bracket.lo, bracket.hi, v);
      }
    }
  }

  /** The generic inversion of the two-sided mixture never reports an error once the doubling search
      has found a trial above the threshold (`v > 0`, `t >= 0`). */
  lemma TwoSidedInversionSucceeds(k: Calculus, sp: Special, rho: real, v: real, t: real, iterations: nat)
    requires k.Lawful() && 0.0 < rho && 0.0 < v && 0.0 <= t
    requires FindSUpperBound(Profile(k, sp, TwoSidedNormal(rho), v), v, t).doublings < MaxDoublings
    ensures FindMixtureBound(Profile(k, sp, TwoSidedNormal(rho), v), Infinite, v, t, iterations).Success?
  {
    var f := Profile(k, sp, TwoSidedNormal(rho), v);
    var u := SearchCeiling(f, Infinite, v, t);
    TrialAtLeastStart(v, FindSUpperBound(f, v, t).doublings);
    assert 0.0 < u;
    RatioBelowOne(rho, v);
    LnBelowOne(k, rho / (v + rho));
    assert f(0.0) == 0.5 * k.ln(rho / (v + rho));
    assert f(0.0) < t;
    assert f(u) > t;
  }

  lemma RatioBelowOne(rho: real, v: real)
    requires 0.0 < rho && 0.0 < v
    ensures 0.0 < rho / (v + rho) < 1.0
  {
    assert rho / (v + rho) * (v + rho) == rho;
  }

  lemma {:induction false} TrialAtLeastStart(v: real, j: nat)
    requires 0.0 <= v
    ensures v <= Trial(v, j)
  {
    if j > 0 {
      TrialAtLeastStart(v, j - 1);
    }
  }
}
