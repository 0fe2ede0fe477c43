/**
 The numpy array primitives the confidence-sequence code is built from:
 `sum`, `cumsum`, `cumprod` and the one-step lag `np.append(prior, a[0:len(a)-1])`.
 Sums and products fold from the right end so that extending a prefix by one
 element is one unfolding step.
 */
module Sequences {
  import opened Calculus

  /** Every element lies in `[0, 1]`. */
  predicate UnitInterval(x: seq<real>) {
    forall i :: 0 <= i < |x| ==> 0.0 <= x[i] <= 1.0
  }

  function Sum(s: seq<real>): real {
    if |s| == 0 then 0.0 else Sum(s[..|s| - 1]) + s[|s| - 1]
  }

  function Product(s: seq<real>): real {
    if |s| == 0 then 1.0 else Product(s[..|s| - 1]) * s[|s| - 1]
  }

  /** numpy `cumsum`: entry `i` is the sum of the first `i + 1` elements. */
  function CumSum(s: seq<real>): (r: seq<real>)
    ensures |r| == |s|
    ensures |s| > 0 ==> r[0] == s[0]
    ensures forall i :: 0 < i < |s| ==> r[i] == r[i - 1] + s[i]
  {
    PrefixSumSteps(s);
    seq(|s|, i requires 0 <= i < |s| => Sum(s[..i + 1]))
  }

  /** numpy `cumprod`: entry `i` is the product of the first `i + 1` elements. */
  function CumProd(s: seq<real>): (r: seq<real>)
    ensures |r| == |s|
    ensures |s| > 0 ==> r[0] == s[0]
    ensures forall i :: 0 < i < |s| ==> r[i] == r[i - 1] * s[i]
  {
    PrefixProductSteps(s);
    seq(|s|, i requires 0 <= i < |s| => Product(s[..i + 1]))
  }

  /** `np.append(prior, a[0 : len(a) - 1])`: the sequence delayed by one step, `prior` first. */
  function Shift(prior: real, s: seq<real>): (r: seq<real>)
    ensures |r| == if |s| == 0 then 1 else |s|
    ensures r[0] == prior
    ensures forall i :: 0 < i < |s| ==> r[i] == s[i - 1]
  {
    [prior] + (if |s| == 0 then [] else s[..|s| - 1])
  }

  lemma PrefixSumSteps(s: seq<real>)
    ensures forall i :: 0 < i <= |s| ==> Sum(s[..i]) == Sum(s[..i - 1]) + s[i - 1]
    ensures |s| > 0 ==> Sum(s[..1]) == s[0]
  {
    forall i | 0 < i <= |s|
      ensures Sum(s[..i]) == Sum(s[..i - 1]) + s[i - 1]
    {
      PrefixSumStep(s, i - 1);
    }
  }

  lemma PrefixProductSteps(s: seq<real>)
    ensures forall i :: 0 < i <= |s| ==> Product(s[..i]) == Product(s[..i - 1]) * s[i - 1]
    ensures |s| > 0 ==> Product(s[..1]) == s[0]
  {
    forall i | 0 < i <= |s|
      ensures Product(s[..i]) == Product(s[..i - 1]) * s[i - 1]
    {
      PrefixProductStep(s, i - 1);
    }
  }

  lemma PrefixSumStep(s: seq<real>, i: nat)
    requires i < |s|
    ensures Sum(s[..i + 1]) == Sum(s[..i]) + s[i]
    ensures i == 0 ==> Sum(s[..i + 1]) == s[0]
  {
    assert s[..i + 1][..i] == s[..i];
  }

  lemma PrefixProductStep(s: seq<real>, i: nat)
    requires i < |s|
    ensures Product(s[..i + 1]) == Product(s[..i]) * s[i]
    ensures i == 0 ==> Product(s[..i + 1]) == s[0]
  {
    assert s[..i + 1][..i] == s[..i];
  }

  /** A sum of elements in `[lo, hi]` lies between `|s|·lo` and `|s|·hi`. */
  lemma {:induction false} SumBounds(s: seq<real>, lo: real, hi: real)
    requires forall i :: 0 <= i < |s| ==> lo <= s[i] <= hi
    ensures (|s| as real) * lo <= Sum(s) <= (|s| as real) * hi
    decreases |s|
  {
    if |s| > 0 {
      var n := |s| - 1;
      SumBounds(s[..n], lo, hi);
      assert (|s| as real) * lo == (n as real) * lo + lo;
      assert (|s| as real) * hi == (n as real) * hi + hi;
    }
  }

  /** Summing a concatenation sums the parts. */
  lemma {:induction false} SumConcat(a: seq<real>, b: seq<real>)
    ensures Sum(a + b) == Sum(a) + Sum(b)
    decreases |b|
  {
    if |b| == 0 {
      assert a + b == a;
    } else {
      var n := |b| - 1;
      assert (a + b)[..|a + b| - 1] == a + b[..n];
      SumConcat(a, b[..n]);
    }
  }

  /** A sum of elements in `[0, 1]` lies between 0 and the number of elements. */
  lemma {:induction false} UnitSumBounds(s: seq<real>)
    requires UnitInterval(s)
    ensures 0.0 <= Sum(s) <= |s| as real
    decreases |s|
  {
    if |s| > 0 {
      UnitSumBounds(s[..|s| - 1]);
    }
  }

  /** Splitting a sequence at `k` splits its sum. */
  lemma SumSplit(s: seq<real>, k: nat)
    requires k <= |s|
    ensures Sum(s) == Sum(s[..k]) + Sum(s[k..])
  {
    assert s == s[..k] + s[k..];
    SumConcat(s[..k], s[k..]);
  }

  /** A product of nonnegative factors is nonnegative. */
  lemma {:induction false} ProductNonnegative(s: seq<real>)
    requires forall i :: 0 <= i < |s| ==> 0.0 <= s[i]
    ensures 0.0 <= Product(s)
    decreases |s|
  {
    if |s| > 0 {
      ProductNonnegative(s[..|s| - 1]);
      NonnegativeProduct(Product(s[..|s| - 1]), s[|s| - 1]);
    }
  }
}
