/**
 The interval post-processing shared by every confidence sequence here:
 clamping a lower bound at 0 and an upper bound at 1 (`np.maximum(l, 0)`,
 `np.minimum(u, 1)`) and the running intersection
 (`np.maximum.accumulate(l)`, `np.minimum.accumulate(u)`). Both work on
 extended values, so a NaN entry propagates exactly as numpy's
 `maximum`/`minimum` propagate it.
 */
module Intervals {
  import opened Floats

  predicate NoNaN(s: seq<Float>) {
    forall i :: 0 <= i < |s| ==> !s[i].NaN?
  }

  /** `np.maximum(l, 0)`. */
  function ClampBelow(l: seq<Float>): (r: seq<Float>)
    ensures |r| == |l|
    ensures forall i :: 0 <= i < |l| ==> !l[i].NaN? ==> AtLeast(r[i], 0.0) && Le(l[i], r[i])
    ensures forall i :: 0 <= i < |l| ==> AtLeast(l[i], 0.0) ==> r[i] == l[i]
    ensures forall i :: 0 <= i < |l| ==> (r[i].NaN? <==> l[i].NaN?)
  {
    seq(|l|, i requires 0 <= i < |l| => Max(l[i], Num(0.0)))
  }

  /** `np.minimum(u, 1)`. */
  function ClampAbove(u: seq<Float>): (r: seq<Float>)
    ensures |r| == |u|
    ensures forall i :: 0 <= i < |u| ==> !u[i].NaN? ==> AtMost(r[i], 1.0) && Le(r[i], u[i])
    ensures forall i :: 0 <= i < |u| ==> AtMost(u[i], 1.0) ==> r[i] == u[i]
    ensures forall i :: 0 <= i < |u| ==> (r[i].NaN? <==> u[i].NaN?)
  {
    seq(|u|, i requires 0 <= i < |u| => Min(u[i], Num(1.0)))
  }

  /** `np.maximum.accumulate`: entry `j` is the running maximum of entries `0..j`. */
  function RunningMax(s: seq<Float>): (r: seq<Float>)
    ensures |r| == |s|
    ensures |s| > 0 ==> r[0] == s[0]
    ensures forall i :: 0 < i < |s| ==> r[i] == Max(r[i - 1], s[i])
  {
    if |s| == 0 then []
    else
      var p := RunningMax(s[..|s| - 1]);
      p + [if |p| == 0 then s[|s| - 1] else Max(p[|p| - 1], s[|s| - 1])]
  }

  /** `np.minimum.accumulate`: entry `j` is the running minimum of entries `0..j`. */
  function RunningMin(s: seq<Float>): (r: seq<Float>)
    ensures |r| == |s|
    ensures |s| > 0 ==> r[0] == s[0]
    ensures forall i :: 0 < i < |s| ==> r[i] == Min(r[i - 1], s[i])
  {
    if |s| == 0 then []
    else
      var p := RunningMin(s[..|s| - 1]);
      p + [if |p| == 0 then s[|s| - 1] else Min(p[|p| - 1], s[|s| - 1])]
  }

  /** Without NaNs, the running maximum at `j` bounds every entry up to `j` and is one of them. */
  lemma {:induction false} RunningMaxIsPrefixMaximum(s: seq<Float>, j: nat)
    requires NoNaN(s) && j < |s|
    ensures !RunningMax(s)[j].NaN?
    ensures forall i :: 0 <= i <= j ==> Le(s[i], RunningMax(s)[j])
    ensures exists i :: 0 <= i <= j && RunningMax(s)[j] == s[i]
  {
    var r := RunningMax(s);
    if j > 0 {
      RunningMaxIsPrefixMaximum(s, j - 1);
      assert r[j] == Max(r[j - 1], s[j]);
      forall i | 0 <= i <= j
        ensures Le(s[i], r[j])
      {
        if i < j {
          LeTransitive(s[i], r[j - 1], r[j]);
        }
      }
      var i :| 0 <= i <= j - 1 && r[j - 1] == s[i];
      assert r[j] == s[i] || r[j] == s[j];
    } else {
      assert r[0] == s[0];
    }
  }

  /** Without NaNs, the running minimum at `j` is below every entry up to `j` and is one of them. */
  lemma {:induction false} RunningMinIsPrefixMinimum(s: seq<Float>, j: nat)
    requires NoNaN(s) && j < |s|
    ensures !RunningMin(s)[j].NaN?
    ensures forall i :: 0 <= i <= j ==> Le(RunningMin(s)[j], s[i])
    ensures exists i :: 0 <= i <= j && RunningMin(s)[j] == s[i]
  {
    var r := RunningMin(s);
    if j > 0 {
      RunningMinIsPrefixMinimum(s, j - 1);
      assert r[j] == Min(r[j - 1], s[j]);
      forall i | 0 <= i <= j
        ensures Le(r[j], s[i])
      {
        if i < j {
          LeTransitive(r[j], r[j - 1], s[i]);
        }
      }
      var i :| 0 <= i <= j - 1 && r[j - 1] == s[i];
      assert r[j] == s[i] || r[j] == s[j];
    } else {
      assert r[0] == s[0];
    }
  }

  /** Without NaNs, the running intersection only tightens: lower bounds never decrease. */
  lemma RunningMaxNondecreasing(s: seq<Float>, i: nat, j: nat)
    requires NoNaN(s) && i <= j < |s|
    ensures Le(RunningMax(s)[i], RunningMax(s)[j])
  {
    RunningMaxIsPrefixMaximum(s, i);
    RunningMaxIsPrefixMaximum(s, j);
    var k :| 0 <= k <= i && RunningMax(s)[i] == s[k];
  }

  /** Without NaNs, upper bounds never increase under the running intersection. */
  lemma RunningMinNonincreasing(s: seq<Float>, i: nat, j: nat)
    requires NoNaN(s) && i <= j < |s|
    ensures Le(RunningMin(s)[j], RunningMin(s)[i])
  {
    RunningMinIsPrefixMinimum(s, i);
    RunningMinIsPrefixMinimum(s, j);
    var k :| 0 <= k <= i && RunningMin(s)[i] == s[k];
  }

  /** A NaN anywhere in the prefix makes the running maximum NaN from there on. */
  lemma {:induction false} RunningMaxKeepsNaN(s: seq<Float>, i: nat, j: nat)
    requires i <= j < |s| && s[i].NaN?
    ensures RunningMax(s)[j].NaN?
  {
    if i < j {
      RunningMaxKeepsNaN(s, i, j - 1);
      assert RunningMax(s)[j] == Max(RunningMax(s)[j - 1], s[j]);
    } else if j > 0 {
      assert RunningMax(s)[j] == Max(RunningMax(s)[j - 1], s[j]);
    }
  }

  /** When every entry that is not NaN is at least `c`, so is every running maximum that is not NaN. */
  lemma {:induction false} RunningMaxAtLeast(s: seq<Float>, c: real, j: nat)
    requires j < |s| && forall i :: 0 <= i < |s| ==> !s[i].NaN? ==> AtLeast(s[i], c)
    ensures !RunningMax(s)[j].NaN? ==> AtLeast(RunningMax(s)[j], c)
  {
    if j > 0 {
      RunningMaxAtLeast(s, c, j - 1);
      assert RunningMax(s)[j] == Max(RunningMax(s)[j - 1], s[j]);
    }
  }

  /** When every entry that is not NaN is at most `c`, so is every running minimum that is not NaN. */
  lemma {:induction false} RunningMinAtMost(s: seq<Float>, c: real, j: nat)
    requires j < |s| && forall i :: 0 <= i < |s| ==> !s[i].NaN? ==> AtMost(s[i], c)
    ensures !RunningMin(s)[j].NaN? ==> AtMost(RunningMin(s)[j], c)
  {
    if j > 0 {
      RunningMinAtMost(s, c, j - 1);
      assert RunningMin(s)[j] == Min(RunningMin(s)[j - 1], s[j]);
    }
  }

  /** A confidence sequence: a lower and an upper bound per time. */
  datatype Cs = Cs(lower: seq<Float>, upper: seq<Float>)

  /** The tail shared by the predictable-mixture sequences: clamp to `[0, 1]`, then take the running
      intersection when asked for. */
  function ClampAndIntersect(l: seq<Float>, u: seq<Float>, runningIntersection: bool): (cs: Cs)
    requires |l| == |u|
    ensures |cs.lower| == |l| && |cs.upper| == |l|
  {
    if runningIntersection then Cs(RunningMax(ClampBelow(l)), RunningMin(ClampAbove(u)))
    else Cs(ClampBelow(l), ClampAbove(u))
  }

  /** Without NaNs, every clamped lower bound is at least 0 and every clamped upper bound at most 1;
      with the running intersection, the lower bounds never decrease and the upper bounds never
      increase. */
  lemma ClampAndIntersectBounds(l: seq<Float>, u: seq<Float>, runningIntersection: bool, i: nat, j: nat)
    requires |l| == |u| && NoNaN(l) && NoNaN(u) && i <= j < |l|
    ensures AtLeast(ClampAndIntersect(l, u, runningIntersection).lower[j], 0.0)
    ensures AtMost(ClampAndIntersect(l, u, runningIntersection).upper[j], 1.0)
    ensures runningIntersection ==>
      Le(ClampAndIntersect(l, u, runningIntersection).lower[i], ClampAndIntersect(l, u, runningIntersection).lower[j]) &&
      Le(ClampAndIntersect(l, u, runningIntersection).upper[j], ClampAndIntersect(l, u, runningIntersection).upper[i])
  {
    var lo := ClampBelow(l);
    var hi := ClampAbove(u);
    if runningIntersection {
      RunningMaxIsPrefixMaximum(lo, j);
      RunningMinIsPrefixMinimum(hi, j);
      RunningMaxNondecreasing(lo, i, j);
      RunningMinNonincreasing(hi, i, j);
    }
  }
}
