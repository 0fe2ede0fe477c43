/**
 The polynomial stitching boundary `PolyStitchingBound` of uniform_boundaries.h:
 a closed-form boundary that clamps the intrinsic time `v` below at `v_min`
 and solves a quadratic for the boundary value. `pow` and the stitching
 constant `A = log(zeta(s) / log(eta)^s)` are Boost calls and enter through
 `Special`; `log` and `sqrt` through `Calculus`.
 */
module Stitching {
  import opened Results
  import opened Floats
  import opened Calculus
  import opened Special

  datatype PolyStitching = PolyStitching(vMin: real, c: real, s: real, eta: real, k1: real, k2: real, a: real)

  datatype StitchingError = NonPositiveVMin

  /** The constructor: derives `k1 = (eta^(1/4) + eta^(-1/4)) / sqrt(2)`, `k2 = (sqrt(eta) + 1) / 2`
      and `A`, then asserts `v_min > 0`. */
  function MakePolyStitching(k: Calculus, sp: Special, vMin: real, c: real, s: real, eta: real)
    : (r: Result<PolyStitching, StitchingError>)
    requires k.Lawful()
    ensures r.Success? <==> 0.0 < vMin
    ensures r.Success? ==> r.value.vMin == vMin && r.value.c == c && r.value.s == s && r.value.eta == eta
    ensures r.Success? ==> 0.0 <= eta ==> 0.5 <= r.value.k2
    ensures r.Success? ==> r.value.k1 * k.sqrt(2.0) == sp.pow(eta, 0.25) + sp.pow(eta, -0.25)
    ensures r.Success? ==> r.value.a == sp.stitchingConstant(s, eta)
  {
    SqrtPositive(k, 2.0);
    SqrtNonnegative(k, eta);
    if vMin <= 0.0 then Failure(NonPositiveVMin)
    else
      var k1 := (sp.pow(eta, 0.25) + sp.pow(eta, -0.25)) / k.sqrt(2.0);
      var k2 := (k.sqrt(eta) + 1.0) / 2.0;
      Success(PolyStitching(vMin, c, s, eta, k1, k2, sp.stitchingConstant(s, eta)))
  }

  lemma SqrtNonnegative(k: Calculus, x: real)
    requires k.Lawful()
    ensures 0.0 <= x ==> 0.0 <= k.sqrt(x)
  {
    if 0.0 <= x {
      SqrtSquare(k, x);
    }
  }

  /** `use_v = max(v, v_min)`. */
  function UseV(p: PolyStitching, v: real): (u: real)
    ensures p.vMin <= u && v <= u && (u == v || u == p.vMin)
  {
    if v <= p.vMin then p.vMin else v
  }

  /** `ell = s * log(log(eta * use_v / v_min)) + A + log(1 / alpha)`, as a function of `use_v`. */
  function Ell(k: Calculus, p: PolyStitching, u: real, alpha: real): real
    requires 0.0 < p.vMin && 0.0 < alpha
  {
    p.s * k.ln(k.ln(Growth(p, u))) + p.a + k.ln(1.0 / alpha)
  }

  /** `eta * use_v / v_min`, the argument of the iterated logarithm. */
  function Growth(p: PolyStitching, u: real): real
    requires 0.0 < p.vMin
  {
    p.eta * u / p.vMin
  }

  /** `k2 * c`. */
  function Gain(p: PolyStitching): real {
    p.k2 * p.c
  }

  /** `k1^2 * use_v`. */
  function Slope(p: PolyStitching, u: real): real {
    p.k1 * p.k1 * u
  }

  /** `term2 = k2 * c * ell`. */
  function Term2(k: Calculus, p: PolyStitching, u: real, alpha: real): real
    requires 0.0 < p.vMin && 0.0 < alpha
  {
    Gain(p) * Ell(k, p, u, alpha)
  }

  /** `k1^2 * use_v * ell`, the part of the square root's argument linear in `ell`. */
  function LinearPart(k: Calculus, p: PolyStitching, u: real, alpha: real): real
    requires 0.0 < p.vMin && 0.0 < alpha
  {
    Slope(p, u) * Ell(k, p, u, alpha)
  }

  /** The argument of the square root, `k1^2 * use_v * ell + term2^2`. */
  function Radicand(k: Calculus, p: PolyStitching, u: real, alpha: real): real
    requires 0.0 < p.vMin && 0.0 < alpha
  {
    LinearPart(k, p, u, alpha) + Term2(k, p, u, alpha) * Term2(k, p, u, alpha)
  }

  /** `PolyStitchingBound::operator()(v, alpha)`: `sqrt(radicand) + term2` at `use_v`. It is NaN when
      `eta * use_v / v_min <= 1`, where the inner logarithm of `log(log(.))` is at most 0 so that the
      outer one is NaN, or `-inf` turning the radicand into `-inf + inf`; and NaN when the radicand
      is negative. */
  function StitchingBound(k: Calculus, p: PolyStitching, v: real, alpha: real): (b: Float)
    requires k.Lawful() && 0.0 < p.vMin && 0.0 < alpha
    ensures b.Num? <==> 1.0 < Growth(p, UseV(p, v)) && 0.0 <= Radicand(k, p, UseV(p, v), alpha)
    ensures b.NaN? <==> Growth(p, UseV(p, v)) <= 1.0 || Radicand(k, p, UseV(p, v), alpha) < 0.0
    ensures b.Num? ==> Term2(k, p, UseV(p, v), alpha) <= b.val
  {
    var u := UseV(p, v);
    var radicand := Radicand(k, p, u, alpha);
    if Growth(p, u) <= 1.0 || radicand < 0.0 then NaN
    else
      SqrtSquare(k, radicand);
      Num(k.sqrt(radicand) + Term2(k, p, u, alpha))
  }

  /** With `eta > 1` the iterated logarithm is defined at every `use_v`. */
  lemma StitchingDefinedForLargeEta(k: Calculus, p: PolyStitching, v: real, alpha: real)
    requires k.Lawful() && 0.0 < p.vMin && 0.0 < alpha && 1.0 < p.eta
    ensures StitchingBound(k, p, v, alpha).Num? <==> 0.0 <= Radicand(k, p, UseV(p, v), alpha)
  {
    GrowthMonotone(p, UseV(p, v), UseV(p, v));
  }

  /** A finite boundary `b` solves the quadratic `(b - term2)^2 = k1^2 * use_v * ell + term2^2`. */
  lemma StitchingSolvesQuadratic(k: Calculus, p: PolyStitching, v: real, alpha: real)
    requires k.Lawful() && 0.0 < p.vMin && 0.0 < alpha
    ensures var b := StitchingBound(k, p, v, alpha);
      b.Num? ==>
        (b.val - Term2(k, p, UseV(p, v), alpha)) * (b.val - Term2(k, p, UseV(p, v), alpha)) == Radicand(k, p, UseV(p, v), alpha)
  {
    if 0.0 <= Radicand(k, p, UseV(p, v), alpha) {
      SqrtSquare(k, Radicand(k, p, UseV(p, v), alpha));
    }
  }

  /** `sqrt(a + t*t) + t`: the boundary as a function of the linear part `a` and of `term2`. */
  function QuadraticRoot(k: Calculus, a: real, t: real): real {
    k.sqrt(a + t * t) + t
  }

  lemma BoundIsQuadraticRoot(k: Calculus, p: PolyStitching, v: real, alpha: real)
    requires k.Lawful() && 0.0 < p.vMin && 0.0 < alpha
    ensures StitchingBound(k, p, v, alpha).Num? ==>
      StitchingBound(k, p, v, alpha).val ==
        QuadraticRoot(k, LinearPart(k, p, UseV(p, v), alpha), Term2(k, p, UseV(p, v), alpha))
  {
    assert Radicand(k, p, UseV(p, v), alpha) ==
      LinearPart(k, p, UseV(p, v), alpha) + Term2(k, p, UseV(p, v), alpha) * Term2(k, p, UseV(p, v), alpha);
  }

  /** The root grows with `a >= 0` and, when `t >= 0`, with `t`. */
  lemma QuadraticRootMonotone(k: Calculus, a1: real, t1: real, a2: real, t2: real)
    requires k.Lawful() && 0.0 <= a1 <= a2 && (t1 == t2 || 0.0 <= t1 <= t2)
    ensures 0.0 <= a1 + t1 * t1
    ensures QuadraticRoot(k, a1, t1) <= QuadraticRoot(k, a2, t2)
  {
    SquareNonnegative(t1);
    if t1 != t2 {
      SquareMonotone(t1, t2);
    }
    SqrtMonotone(k, a1 + t1 * t1, a2 + t2 * t2);
  }

  /** Every `v` at or below `v_min` gives the value at `v_min`. */
  lemma StitchingClampsBelow(k: Calculus, p: PolyStitching, v: real, alpha: real)
    requires k.Lawful() && 0.0 < p.vMin && 0.0 < alpha && v <= p.vMin
    ensures StitchingBound(k, p, v, alpha) == StitchingBound(k, p, p.vMin, alpha)
  {
    assert UseV(p, v) == UseV(p, p.vMin);
  }

  /** A smaller `alpha` never gives a smaller boundary, when `c >= 0`, `k2 >= 0` and `ell >= 0` at the
      larger `alpha`; where the iterated logarithm is undefined both are NaN. */
  lemma StitchingMonotoneInAlpha(k: Calculus, p: PolyStitching, v: real, alpha1: real, alpha2: real)
    requires k.Lawful() && 0.0 < p.vMin && 0.0 < alpha1 < alpha2
    requires 0.0 <= p.c && 0.0 <= p.k2 && 0.0 <= Ell(k, p, UseV(p, v), alpha2)
    ensures Growth(p, UseV(p, v)) <= 1.0 ==>
      StitchingBound(k, p, v, alpha1).NaN? && StitchingBound(k, p, v, alpha2).NaN?
    ensures 1.0 < Growth(p, UseV(p, v)) ==>
      StitchingBound(k, p, v, alpha2).Num? && StitchingBound(k, p, v, alpha1).Num? &&
      StitchingBound(k, p, v, alpha2).val <= StitchingBound(k, p, v, alpha1).val
  {
    var u := UseV(p, v);
    ReciprocalDecreasing(alpha1, alpha2);
    LnMonotone(k, 1.0 / alpha2, 1.0 / alpha1);
    assert Ell(k, p, u, alpha2) <= Ell(k, p, u, alpha1);
    GrowsWith(k, p, u, alpha2, u, alpha1);
    BoundIsQuadraticRoot(k, p, v, alpha1);
    BoundIsQuadraticRoot(k, p, v, alpha2);
  }

  /** The closed form grows with `use_v` and with `ell >= 0`. */
  lemma GrowsWith(k: Calculus, p: PolyStitching, u1: real, alpha1: real, u2: real, alpha2: real)
    requires k.Lawful() && 0.0 < p.vMin && 0.0 < alpha1 && 0.0 < alpha2 && 0.0 <= p.c && 0.0 <= p.k2
    requires 0.0 <= u1 <= u2 && 0.0 <= Ell(k, p, u1, alpha1) <= Ell(k, p, u2, alpha2)
    ensures 0.0 <= Radicand(k, p, u1, alpha1) && 0.0 <= Radicand(k, p, u2, alpha2)
    ensures QuadraticRoot(k, LinearPart(k, p, u1, alpha1), Term2(k, p, u1, alpha1))
         <= QuadraticRoot(k, LinearPart(k, p, u2, alpha2), Term2(k, p, u2, alpha2))
  {
    SlopeMonotone(p, u1, u2);
    ProductMonotone(Slope(p, u1), Ell(k, p, u1, alpha1), Slope(p, u2), Ell(k, p, u2, alpha2));
    NonnegativeProduct(p.k2, p.c);
    ProductMonotone(Gain(p), Ell(k, p, u1, alpha1), Gain(p), Ell(k, p, u2, alpha2));
    QuadraticRootMonotone(k, LinearPart(k, p, u1, alpha1), Term2(k, p, u1, alpha1),
                          LinearPart(k, p, u2, alpha2), Term2(k, p, u2, alpha2));
    QuadraticRootMonotone(k, LinearPart(k, p, u2, alpha2), Term2(k, p, u2, alpha2),
                          LinearPart(k, p, u2, alpha2), Term2(k, p, u2, alpha2));
  }

  /** A larger `v` never gives a smaller boundary, when `eta > 1`, `s >= 0`, `c >= 0`, `k2 >= 0` and
      `ell >= 0` at the smaller `v`. */
  lemma StitchingMonotoneInV(k: Calculus, p: PolyStitching, v1: real, v2: real, alpha: real)
    requires k.Lawful() && 0.0 < p.vMin && 0.0 < alpha && v1 <= v2
    requires 1.0 < p.eta && 0.0 <= p.s && 0.0 <= p.c && 0.0 <= p.k2 && 0.0 <= Ell(k, p, UseV(p, v1), alpha)
    ensures StitchingBound(k, p, v1, alpha).Num?
    ensures StitchingBound(k, p, v2, alpha).Num?
    ensures StitchingBound(k, p, v1, alpha).val <= StitchingBound(k, p, v2, alpha).val
  {
    GrowthMonotone(p, UseV(p, v1), UseV(p, v2));
    EllGrowsWithV(k, p, UseV(p, v1), UseV(p, v2), alpha);
    GrowsWith(k, p, UseV(p, v1), alpha, UseV(p, v2), alpha);
    BoundIsQuadraticRoot(k, p, v1, alpha);
    BoundIsQuadraticRoot(k, p, v2, alpha);
  }

  lemma EllGrowsWithV(k: Calculus, p: PolyStitching, u1: real, u2: real, alpha: real)
    requires k.Lawful() && 0.0 < p.vMin <= u1 <= u2 && 0.0 < alpha && 1.0 < p.eta && 0.0 <= p.s
    ensures Ell(k, p, u1, alpha) <= Ell(k, p, u2, alpha)
  {
    GrowthMonotone(p, u1, u2);
    LogLogMonotone(k, Growth(p, u1), Growth(p, u2));
    ScaleMonotone(p.s, k.ln(k.ln(Growth(p, u1))), k.ln(k.ln(Growth(p, u2))));
  }

  lemma GrowthMonotone(p: PolyStitching, u1: real, u2: real)
    requires 0.0 < p.vMin <= u1 <= u2 && 1.0 < p.eta
    ensures 1.0 < Growth(p, u1) <= Growth(p, u2)
  {
    RatioGrowth(p.eta, u1, u2, p.vMin);
    assert Growth(p, u1) == p.eta * u1 / p.vMin;
    assert Growth(p, u2) == p.eta * u2 / p.vMin;
  }

  lemma LogLogMonotone(k: Calculus, x: real, y: real)
    requires k.Lawful() && 1.0 < x <= y
    ensures k.ln(k.ln(x)) <= k.ln(k.ln(y))
  {
    assert 0.0 < k.ln(x);
    LnMonotone(k, x, y);
    LnMonotone(k, k.ln(x), k.ln(y));
  }

  lemma RatioGrowth(eta: real, u1: real, u2: real, vMin: real)
    requires 1.0 < eta && 0.0 < vMin <= u1 <= u2
    ensures 1.0 < eta * u1 / vMin <= eta * u2 / vMin
  {
    ScaleMonotone(eta, u1, u2);
    assert vMin < eta * vMin by {
      assert eta * vMin - vMin == (eta - 1.0) * vMin;
      PositiveProduct(eta - 1.0, vMin);
    }
    ScaleMonotone(eta, vMin, u1);
    DivideMonotone(eta * vMin, eta * u1, vMin);
    DivideMonotone(eta * u1, eta * u2, vMin);
    assert eta * vMin / vMin == eta;
  }

  lemma SlopeMonotone(p: PolyStitching, u1: real, u2: real)
    requires 0.0 <= u1 <= u2
    ensures 0.0 <= Slope(p, u1) <= Slope(p, u2)
  {
    SquareNonnegative(p.k1);
    NonnegativeProduct(p.k1 * p.k1, u1);
    ScaleMonotone(p.k1 * p.k1, u1, u2);
  }

  lemma ProductMonotone(a1: real, b1: real, a2: real, b2: real)
    requires 0.0 <= a1 <= a2 && 0.0 <= b1 <= b2
    ensures 0.0 <= a1 * b1 <= a2 * b2
  {
    NonnegativeProduct(a1, b1);
    ScaleMonotoneRight(a1, a2, b1);
    ScaleMonotone(a2, b1, b2);
  }

  lemma SquareNonnegative(a: real)
    ensures 0.0 <= a * a
  {
    if a < 0.0 {
      NonnegativeProduct(-a, -a);
    }
  }


  lemma DivideMonotone(x: real, y: real, d: real)
    requires x <= y && 0.0 < d
    ensures x / d <= y / d
  {
    assert x / d * d == x;
    assert y / d * d == y;
  }

  lemma SquareMonotone(a: real, b: real)
    requires 0.0 <= a <= b
    ensures a * a <= b * b
  {
    if a < b {
      SquareStrictlyMonotone(a, b);
    }
  }
}
