/**
 The natural logarithm and the square root are not definable in Dafny's real
 arithmetic, so the model takes them as parameters: a `Calculus` pairs two
 total functions, and `Lawful()` states the only facts about them that the
 proofs use. The real `log` and `sqrt` satisfy every law, so the predicate is
 satisfiable; nothing in the model depends on IEEE rounding. The module also
 holds the few facts about real products that the other modules share.
 */
module Calculus {

  datatype Calculus = Calculus(ln: real -> real, sqrt: real -> real) {

    ghost predicate Lawful() {
      // log(1/a) = -log(a)
      && (forall a {:trigger Reciprocal(a)} :: 0.0 < a ==> ln(Reciprocal(a)) == -ln(a))
      // log is strictly increasing on the positive reals
      && (forall x, y {:trigger Gap(x, y)} :: 0.0 < x < y ==> ln(x) < ln(y))
      // log is positive above one
      && (forall x {:trigger ln(x)} :: 1.0 < x ==> 0.0 < ln(x))
      // log lies below its tangent at one
      && (forall y {:trigger ln(y)} :: 0.0 < y ==> ln(y) <= y - 1.0)
      // sqrt is the nonnegative square root
      && (forall x {:trigger sqrt(x)} :: 0.0 <= x ==> 0.0 <= sqrt(x) && sqrt(x) * sqrt(x) == x)
    }
  }

  /** `1 / a`, named so that the reciprocal law is instantiated only where a proof asks for it. */
  function Reciprocal(a: real): real
    requires 0.0 < a
  {
    1.0 / a
  }

  /** `y - x`, named so that the monotonicity law is instantiated only where a proof asks for it. */
  function Gap(x: real, y: real): real {
    y - x
  }

  lemma LnStrictlyMonotone(k: Calculus, x: real, y: real)
    requires k.Lawful() && 0.0 < x < y
    ensures k.ln(x) < k.ln(y)
  {
    assert Gap(x, y) == y - x;
  }

  lemma LnOne(k: Calculus)
    requires k.Lawful()
    ensures k.ln(1.0) == 0.0
  {
    assert Reciprocal(1.0) == 1.0;
  }

  lemma LnReciprocal(k: Calculus, a: real)
    requires k.Lawful() && 0.0 < a
    ensures k.ln(1.0 / a) == -k.ln(a)
  {
    assert Reciprocal(a) == 1.0 / a;
  }

  /** The reciprocal law for a pair whose product is one. */
  lemma LnInverse(k: Calculus, a: real, b: real)
    requires k.Lawful() && 0.0 < a && a * b == 1.0
    ensures k.ln(a) == -k.ln(b)
  {
    assert b == Reciprocal(a);
  }

  lemma LnAtLeastOne(k: Calculus, x: real)
    requires k.Lawful() && 1.0 <= x
    ensures 0.0 <= k.ln(x)
  {
    if x == 1.0 {
      LnOne(k);
    }
  }

  lemma LnBelowOne(k: Calculus, x: real)
    requires k.Lawful() && 0.0 < x < 1.0
    ensures k.ln(x) < 0.0
  {
    LnOne(k);
    LnStrictlyMonotone(k, x, 1.0);
  }

  lemma LnMonotone(k: Calculus, x: real, y: real)
    requires k.Lawful() && 0.0 < x <= y
    ensures k.ln(x) <= k.ln(y)
  {
    if x < y {
      LnStrictlyMonotone(k, x, y);
    }
  }

  lemma SqrtSquare(k: Calculus, x: real)
    requires k.Lawful() && 0.0 <= x
    ensures 0.0 <= k.sqrt(x) && k.sqrt(x) * k.sqrt(x) == x
  {
  }

  lemma SqrtPositive(k: Calculus, x: real)
    requires k.Lawful() && 0.0 < x
    ensures 0.0 < k.sqrt(x)
  {
    SqrtSquare(k, x);
  }

  /** The square root is monotone: this follows from the two sqrt laws alone. */
  lemma SqrtMonotone(k: Calculus, x: real, y: real)
    requires k.Lawful() && 0.0 <= x <= y
    ensures k.sqrt(x) <= k.sqrt(y)
  {
    SqrtSquare(k, x);
    SqrtSquare(k, y);
    var a, b := k.sqrt(x), k.sqrt(y);
    if a > b {
      SquareStrictlyMonotone(b, a);
      assert false;
    }
  }

  lemma SquareStrictlyMonotone(a: real, b: real)
    requires 0.0 <= a < b
    ensures a * a < b * b
  {
    assert b * b - a * a == (b - a) * (b + a);
    PositiveProduct(b - a, b + a);
  }

  lemma PositiveProduct(p: real, q: real)
    requires 0.0 < p && 0.0 < q
    ensures 0.0 < p * q
  {
  }

  lemma NonnegativeProduct(p: real, q: real)
    requires 0.0 <= p && 0.0 <= q
    ensures 0.0 <= p * q
  {
  }

  /** Multiplying by a nonnegative number keeps the order. */
  lemma ScaleMonotone(a: real, x: real, y: real)
    requires 0.0 <= a && x <= y
    ensures a * x <= a * y
  {
    assert a * y - a * x == a * (y - x);
    NonnegativeProduct(a, y - x);
  }

  lemma ScaleMonotoneRight(x: real, y: real, a: real)
    requires 0.0 <= a && x <= y
    ensures x * a <= y * a
  {
    ScaleMonotone(a, x, y);
  }

  lemma ReciprocalDecreasing(a: real, b: real)
    requires 0.0 < a < b
    ensures 1.0 / b < 1.0 / a
  {
  }

  /** A factor of a nonnegative product with a positive cofactor is nonnegative. */
  lemma NonnegativeFactor(p: real, q: real)
    requires 0.0 < p && 0.0 <= p * q
    ensures 0.0 <= q
  {
    if q < 0.0 {
      PositiveProduct(p, -q);
      assert false;
    }
  }

  /** The logarithm lies below its tangent at one. */
  lemma LnBelowTangent(k: Calculus, y: real)
    requires k.Lawful() && 0.0 < y
    ensures k.ln(y) <= y - 1.0
  {
  }
}
