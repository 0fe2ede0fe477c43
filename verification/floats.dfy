/**
 IEEE-style extended values as numpy produces them: a real number, one of the
 two infinities, or NaN. Only the operations the confidence-sequence code uses
 are defined: addition, negation, scaling by a real, division of two reals,
 the NaN-propagating `maximum`/`minimum`, and the ordered comparison `<=`
 (false whenever NaN is involved).
 */
module Floats {

  datatype Float = NaN | NegInf | PosInf | Num(val: real)

  /** `a <= b` as IEEE compares: false if either side is NaN. */
  predicate Le(a: Float, b: Float) {
    match (a, b)
    case (NaN, _) => false
    case (_, NaN) => false
    case (NegInf, _) => true
    case (_, PosInf) => true
    case (Num(x), Num(y)) => x <= y
    case (_, _) => false
  }

  /** numpy `maximum`: NaN if either argument is NaN, else the larger one. */
  function Max(a: Float, b: Float): (r: Float)
    ensures r.NaN? <==> a.NaN? || b.NaN?
    ensures !r.NaN? ==> Le(a, r) && Le(b, r) && (r == a || r == b)
  {
    if a.NaN? || b.NaN? then NaN else if Le(a, b) then b else a
  }

  /** numpy `minimum`: NaN if either argument is NaN, else the smaller one. */
  function Min(a: Float, b: Float): (r: Float)
    ensures r.NaN? <==> a.NaN? || b.NaN?
    ensures !r.NaN? ==> Le(r, a) && Le(r, b) && (r == a || r == b)
  {
    if a.NaN? || b.NaN? then NaN else if Le(a, b) then a else b
  }

  function Neg(a: Float): Float {
    match a
    case NaN => NaN
    case NegInf => PosInf
    case PosInf => NegInf
    case Num(x) => Num(-x)
  }

  /** IEEE addition: opposite infinities give NaN. */
  function Add(a: Float, b: Float): (r: Float)
    ensures a.Num? && b.Num? ==> r == Num(a.val + b.val)
    ensures r.NaN? <==> a.NaN? || b.NaN? || (a.PosInf? && b.NegInf?) || (a.NegInf? && b.PosInf?)
  {
    match (a, b)
    case (NaN, _) => NaN
    case (_, NaN) => NaN
    case (PosInf, NegInf) => NaN
    case (NegInf, PosInf) => NaN
    case (PosInf, _) => PosInf
    case (_, PosInf) => PosInf
    case (NegInf, _) => NegInf
    case (_, NegInf) => NegInf
    case (Num(x), Num(y)) => Num(x + y)
  }

  function Sub(a: Float, b: Float): Float {
    Add(a, Neg(b))
  }

  /** A real weight times an extended value; zero times an infinity is NaN. */
  function Scale(w: real, a: Float): (r: Float)
    ensures a.Num? ==> r == Num(w * a.val)
    ensures a.PosInf? && w > 0.0 ==> r.PosInf?
  {
    match a
    case NaN => NaN
    case Num(_) => Num(w * a.val)
    case PosInf => if w > 0.0 then PosInf else if w < 0.0 then NegInf else NaN
    case NegInf => if w > 0.0 then NegInf else if w < 0.0 then PosInf else NaN
  }

  /** IEEE division of two finite reals: a zero divisor gives a signed infinity, or NaN for 0/0. */
  function Div(a: real, b: real): (r: Float)
    ensures b != 0.0 <==> r.Num?
    ensures r.Num? ==> r.val * b == a
    ensures r.NaN? <==> a == 0.0 && b == 0.0
  {
    if b != 0.0 then Num(a / b)
    else if a > 0.0 then PosInf
    else if a < 0.0 then NegInf
    else NaN
  }

  /** Not NaN and at least `c` (so `c <= f` holds as IEEE compares). */
  predicate AtLeast(f: Float, c: real) {
    Le(Num(c), f)
  }

  /** Not NaN and at most `c`. */
  predicate AtMost(f: Float, c: real) {
    Le(f, Num(c))
  }

  lemma LeTransitive(a: Float, b: Float, c: Float)
    requires Le(a, b) && Le(b, c)
    ensures Le(a, c)
  {
  }

  lemma LeTotal(a: Float, b: Float)
    requires !a.NaN? && !b.NaN?
    ensures Le(a, b) || Le(b, a)
  {
  }

  /** Negation reverses the order, which lets `Min` be read as a mirrored `Max`. */
  lemma NegReversesOrder(a: Float, b: Float)
    ensures Le(Neg(a), Neg(b)) <==> Le(b, a)
  {
  }

  lemma MinIsMirroredMax(a: Float, b: Float)
    ensures Min(a, b) == Neg(Max(Neg(a), Neg(b)))
  {
  }
}
