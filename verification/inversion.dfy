/**
 Generic inversion of a mixture's log-supermartingale into a boundary value
 (`find_s_upper_bound` and `find_mixture_bound` in uniform_boundaries.h).

 For a fixed variance `v` the mixture is seen through `logSuperMG: real -> real`,
 the function `s |-> log_superMG(s, v)`. The driver picks a finite search
 ceiling `U` (the family's own `s_upper_bound(v)` when finite, otherwise a
 doubling search from `v`), brackets the root of `log_superMG(s, v) - t` on
 `[0, U]` by bisection, and returns the midpoint of the final bracket.

 The root-finder is the Boost `bisect` the source calls. Its stopping rule is a
 floating-point tolerance; here it is a number of halving steps, and only its
 result contract is relied on: a bracket inside the search interval across
 which the function changes sign, or a reported error.
 */
module Inversion {
  import opened Results

  /** The doubling search gives up after this many trials. */
  const MaxDoublings: nat := 50

  function Pow2(n: nat): (p: real)
    ensures p >= 1.0
  {
    if n == 0 then 1.0 else 2.0 * Pow2(n - 1)
  }

  /** The `j`-th trial of the doubling search started at `v`: `v` doubled `j` times. */
  function Trial(v: real, j: nat): real {
    if j == 0 then v else 2.0 * Trial(v, j - 1)
  }

  /** `w` halved `n` times. */
  function Halved(w: real, n: nat): real
    decreases n
  {
    if n == 0 then w else Halved(w / 2.0, n - 1)
  }

  /** The `j`-th trial is `v * 2^j`. */
  lemma {:induction false} TrialIsScaledPower(v: real, j: nat)
    ensures Trial(v, j) == v * Pow2(j)
  {
    if j > 0 {
      TrialIsScaledPower(v, j - 1);
      assert v * Pow2(j) == 2.0 * (v * Pow2(j - 1));
    }
  }

  /** `n` halvings divide by `2^n`. */
  lemma {:induction false} HalvedIsDivided(w: real, n: nat)
    ensures Halved(w, n) * Pow2(n) == w
    decreases n
  {
    if n > 0 {
      HalvedIsDivided(w / 2.0, n - 1);
      assert Halved(w, n) * Pow2(n) == 2.0 * (Halved(w / 2.0, n - 1) * Pow2(n - 1));
    }
  }

  lemma {:induction false} HalvedNonnegative(w: real, n: nat)
    ensures 0.0 <= w ==> 0.0 <= Halved(w, n)
    decreases n
  {
    if n > 0 {
      HalvedNonnegative(w / 2.0, n - 1);
    }
  }

  /** The value of `s_upper_bound(v)`: finite, or +infinity when the family has no closed-form ceiling. */
  datatype Ceiling = Finite(value: real) | Infinite

  /** Outcome of the doubling search: the ceiling returned, how often the trial was doubled to reach
      it, and how many times the log-supermartingale was evaluated on the way. */
  datatype Search = Search(ceiling: real, doublings: nat, evaluations: nat)

  /** The loop of `find_s_upper_bound`, from a given trial with `remaining` iterations left. */
  function DoublingSearch(logSuperMG: real -> real, logThreshold: real, trial: real, remaining: nat): (r: Search)
    decreases remaining
    ensures r.doublings <= remaining
    ensures r.ceiling == Trial(trial, r.doublings)
    ensures r.doublings < remaining ==> logSuperMG(r.ceiling) > logThreshold
    ensures forall j :: 0 <= j < r.doublings ==> logSuperMG(Trial(trial, j)) <= logThreshold
    ensures r.evaluations == if r.doublings < remaining then r.doublings + 1 else remaining
  {
    if remaining == 0 then Search(trial, 0, 0)
    else if logSuperMG(trial) > logThreshold then Search(trial, 0, 1)
    else
      var rest := DoublingSearch(logSuperMG, logThreshold, 2.0 * trial, remaining - 1);
      DoubledTrials(trial, rest.doublings + 1);
      assert Trial(trial, 0) == trial;
      Search(rest.ceiling, rest.doublings + 1, rest.evaluations + 1)
  }

  lemma DoubledTrials(trial: real, n: nat)
    ensures forall j :: 0 < j <= n ==> Trial(trial, j) == Trial(2.0 * trial, j - 1)
  {
    forall j | 0 < j <= n
      ensures Trial(trial, j) == Trial(2.0 * trial, j - 1)
    {
      DoubledTrial(trial, j);
    }
  }

  lemma {:induction false} DoubledTrial(trial: real, j: nat)
    requires 0 < j
    ensures Trial(trial, j) == Trial(2.0 * trial, j - 1)
  {
    if j > 1 {
      DoubledTrial(trial, j - 1);
    }
  }

  /** `find_s_upper_bound(mixture, v, log_threshold)`: doubling search starting from `v`. */
  function FindSUpperBound(logSuperMG: real -> real, v: real, logThreshold: real): (r: Search)
    ensures r.doublings <= MaxDoublings && r.evaluations <= MaxDoublings
    ensures r.ceiling == Trial(v, r.doublings)
    ensures r.doublings < MaxDoublings ==> logSuperMG(r.ceiling) > logThreshold
    ensures forall j :: 0 <= j < r.doublings ==> logSuperMG(Trial(v, j)) <= logThreshold
  {
    DoublingSearch(logSuperMG, logThreshold, v, MaxDoublings)
  }

  /** If no trial exceeds the threshold, the search returns `v * 2^50`. */
  lemma SearchExhausted(logSuperMG: real -> real, v: real, logThreshold: real)
    requires forall j :: 0 <= j < MaxDoublings ==> logSuperMG(Trial(v, j)) <= logThreshold
    ensures FindSUpperBound(logSuperMG, v, logThreshold).ceiling == v * Pow2(MaxDoublings)
  {
    TrialIsScaledPower(v, MaxDoublings);
  }

  datatype Bracket = Bracket(lo: real, hi: real)

  /** The errors Boost's `bisect` raises. */
  datatype RootError = WrongOrder | NoSignChange

  function Sign(x: real): int {
    if x > 0.0 then 1 else if x < 0.0 then -1 else 0
  }

  /** Strictly opposite signs. */
  predicate Opposite(a: real, b: real) {
    (a < 0.0 && 0.0 < b) || (0.0 < a && b < 0.0)
  }

  /** Boost decides a sign change by `sign(a) * sign(b) < 0`, which is `Opposite`. */
  lemma SignTest(a: real, b: real)
    ensures Sign(a) * Sign(b) < 0 <==> Opposite(a, b)
  {
  }

  /** A bracket of a root of `g`: a single point where `g` vanishes, or an interval across which `g`
      changes sign. */
  predicate Brackets(g: real -> real, b: Bracket) {
    (b.lo == b.hi && g(b.lo) == 0.0) || (b.lo < b.hi && Opposite(g(b.lo), g(b.hi)))
  }

  /** The halving loop of `bisect`, with `n` steps left and `ga == g(a)` cached. */
  function Halve(g: real -> real, a: real, b: real, ga: real, n: nat): (r: Bracket)
    requires a < b && ga == g(a) && Opposite(ga, g(b))
    decreases n
    ensures a <= r.lo <= r.hi <= b
    ensures Brackets(g, r)
    ensures r.hi - r.lo <= Halved(b - a, n)
  {
    if n == 0 then Bracket(a, b)
    else
      var mid := (a + b) / 2.0;
      var gm := g(mid);
      if gm == 0.0 then HalvedNonnegative(b - a, n); Bracket(mid, mid)
      else if Opposite(gm, ga) then
        Halve(g, a, mid, ga, n - 1)
      else
        Halve(g, mid, b, gm, n - 1)
  }

  lemma ProductSign(a: real, b: real)
    ensures a * b < 0.0 <==> Opposite(a, b)
  {
    if a > 0.0 && b > 0.0 {
      assert a * b > 0.0;
    } else if a < 0.0 && b < 0.0 {
      assert (-a) * (-b) > 0.0;
    } else if a > 0.0 && b < 0.0 {
      assert a * (-b) > 0.0;
    } else if a < 0.0 && b > 0.0 {
      assert (-a) * b > 0.0;
    }
  }

  /** Boost's `bisect(g, lo, hi, tol)`, with the tolerance replaced by `iterations` halving steps. */
  function Bisect(g: real -> real, lo: real, hi: real, iterations: nat): (r: Result<Bracket, RootError>)
    ensures r.Failure? <==> g(lo) != 0.0 && g(hi) != 0.0 && (lo >= hi || !Opposite(g(lo), g(hi)))
    ensures r.Failure? ==> (r.error == WrongOrder <==> lo >= hi)
    ensures r.Success? ==> Brackets(g, r.value)
    ensures r.Success? && lo <= hi ==> lo <= r.value.lo && r.value.hi <= hi
    ensures r.Success? && lo <= hi ==> r.value.hi - r.value.lo <= Halved(hi - lo, iterations)
  {
    var gmin := g(lo);
    var gmax := g(hi);
    ProductSign(gmin, gmax);
    HalvedNonnegative(hi - lo, iterations);
    if gmin == 0.0 then Success(Bracket(lo, lo))
    else if gmax == 0.0 then Success(Bracket(hi, hi))
    else if lo >= hi then Failure(WrongOrder)
    else if gmin * gmax >= 0.0 then Failure(NoSignChange)
    else Success(Halve(g, lo, hi, gmin, iterations))
  }

  /** The search interval's upper end: the family's finite ceiling unchanged, else the doubling search. */
  function SearchCeiling(logSuperMG: real -> real, ceiling: Ceiling, v: real, logThreshold: real): (u: real)
    requires 0.0 <= v && (ceiling.Finite? ==> 0.0 <= ceiling.value)
    ensures 0.0 <= u
    ensures ceiling.Finite? ==> u == ceiling.value
    ensures ceiling.Infinite? ==> u == Trial(v, FindSUpperBound(logSuperMG, v, logThreshold).doublings)
  {
    match ceiling
    case Finite(c) => c
    case Infinite =>
      var search := FindSUpperBound(logSuperMG, v, logThreshold);
      TrialNonnegative(v, search.doublings);
      search.ceiling
  }

  lemma {:induction false} TrialNonnegative(v: real, j: nat)
    requires 0.0 <= v
    ensures 0.0 <= Trial(v, j)
  {
    if j > 0 {
      TrialNonnegative(v, j - 1);
    }
  }

  /** The bracket `find_mixture_bound` obtains before taking its midpoint. */
  function FindMixtureBracket(logSuperMG: real -> real, ceiling: Ceiling, v: real, logThreshold: real,
                              iterations: nat): (r: Result<Bracket, RootError>)
    requires 0.0 <= v && (ceiling.Finite? ==> 0.0 <= ceiling.value)
    ensures var u := SearchCeiling(logSuperMG, ceiling, v, logThreshold);
      r.Success? ==> 0.0 <= r.value.lo <= r.value.hi <= u && r.value.hi - r.value.lo <= Halved(u, iterations)
    ensures r.Success? ==>
      || (r.value.lo == r.value.hi && logSuperMG(r.value.lo) == logThreshold)
      || (r.value.lo < r.value.hi && Opposite(logSuperMG(r.value.lo) - logThreshold, logSuperMG(r.value.hi) - logThreshold))
    ensures var u := SearchCeiling(logSuperMG, ceiling, v, logThreshold);
      r.Failure? <==>
        && logSuperMG(0.0) != logThreshold && logSuperMG(u) != logThreshold
        && (u == 0.0 || !Opposite(logSuperMG(0.0) - logThreshold, logSuperMG(u) - logThreshold))
  {
    var u := SearchCeiling(logSuperMG, ceiling, v, logThreshold);
    Bisect(s => logSuperMG(s) - logThreshold, 0.0, u, iterations)
  }

  /** `find_mixture_bound(mixture, v, log_threshold)`: the midpoint of the bracket, or the root-finder's error. */
  function FindMixtureBound(logSuperMG: real -> real, ceiling: Ceiling, v: real, logThreshold: real,
                            iterations: nat): (r: Result<real, RootError>)
    requires 0.0 <= v && (ceiling.Finite? ==> 0.0 <= ceiling.value)
    ensures r.Success? <==> FindMixtureBracket(logSuperMG, ceiling, v, logThreshold, iterations).Success?
    ensures r.Success? ==> 0.0 <= r.value <= SearchCeiling(logSuperMG, ceiling, v, logThreshold)
    ensures r.Success? ==>
      var b := FindMixtureBracket(logSuperMG, ceiling, v, logThreshold, iterations).value;
      b.lo <= r.value <= b.hi && 2.0 * (r.value - b.lo) == b.hi - b.lo
  {
    match FindMixtureBracket(logSuperMG, ceiling, v, logThreshold, iterations)
    case Success(b) => Success((b.lo + b.hi) / 2.0)
    case Failure(e) => Failure(e)
  }

  /** Round-trip law of the inversion: when `log_superMG` is nondecreasing in `s >= 0`, the threshold
      and the value at the returned midpoint both lie between the values at the bracket's ends. */
  lemma InversionRoundTrip(logSuperMG: real -> real, ceiling: Ceiling, v: real, logThreshold: real,
                           iterations: nat)
    requires 0.0 <= v && (ceiling.Finite? ==> 0.0 <= ceiling.value)
    requires forall a, b :: 0.0 <= a <= b ==> logSuperMG(a) <= logSuperMG(b)
    requires FindMixtureBracket(logSuperMG, ceiling, v, logThreshold, iterations).Success?
    ensures var b := FindMixtureBracket(logSuperMG, ceiling, v, logThreshold, iterations).value;
      var mid := FindMixtureBound(logSuperMG, ceiling, v, logThreshold, iterations).value;
      && logSuperMG(b.lo) <= logThreshold <= logSuperMG(b.hi)
      && logSuperMG(b.lo) <= logSuperMG(mid) <= logSuperMG(b.hi)
  {
    var b := FindMixtureBracket(logSuperMG, ceiling, v, logThreshold, iterations).value;
    if b.lo < b.hi {
      assert logSuperMG(b.lo) <= logSuperMG(b.hi);
    }
  }
}
