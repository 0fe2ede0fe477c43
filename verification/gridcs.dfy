/**
 The grid method of betting.py: a test martingale is evaluated at every
 candidate mean `m` on the grid `0, 1/breaks, ..., 1`; at each time the
 candidates whose martingale has not passed `1/alpha` are kept, the smallest
 and largest kept candidate become the bounds, which are widened by one grid
 step, clipped to `[0, 1]`, intersected with the logical interval of a finite
 population, and optionally intersected over time. `betting_cs` and
 `betting_ci` instantiate it with the diversified betting martingale.
 */
module GridCs {
  import opened Results
  import opened Floats
  import opened Calculus
  import opened Sequences
  import opened Intervals
  import opened Betting
  import opened Predmix

  predicate Nondecreasing(g: seq<real>) {
    forall i, j :: 0 <= i <= j < |g| ==> g[i] <= g[j]
  }

  /** `np.arange(0, 1 + 1/breaks, 1/breaks)`: the `breaks + 1` candidate means `i / breaks`. */
  function Grid(breaks: nat): (g: seq<real>)
    requires 0 < breaks
    ensures |g| == breaks + 1
    ensures forall i :: 0 <= i < |g| ==> (breaks as real) * g[i] == i as real
  {
    seq(breaks + 1, i requires 0 <= i <= breaks => (i as real) / (breaks as real))
  }

  /** The grid runs from 0 to 1 in increasing order. */
  lemma GridShape(breaks: nat)
    requires 0 < breaks
    ensures Grid(breaks)[0] == 0.0 && Grid(breaks)[breaks] == 1.0
    ensures Nondecreasing(Grid(breaks))
    ensures forall i :: 0 <= i <= breaks ==> 0.0 <= Grid(breaks)[i] <= 1.0
  {
    var g := Grid(breaks);
    var b := breaks as real;
    forall i, j | 0 <= i <= j < |g|
      ensures g[i] <= g[j]
    {
      QuotientMonotone(b, g[i], i as real, g[j], j as real);
    }
    assert b * g[breaks] == b * 1.0;
    QuotientMonotone(b, g[0], 0.0, g[breaks], b);
  }

  /** Quotients by a positive divisor keep the order of their dividends. */
  lemma QuotientMonotone(d: real, q1: real, n1: real, q2: real, n2: real)
    requires 0.0 < d && d * q1 == n1 && d * q2 == n2 && n1 <= n2
    ensures q1 <= q2
  {
    assert d * (q2 - q1) == n2 - n1;
    NonnegativeFactor(d, q2 - q1);
  }

  /** Mean `m` is rejected once its martingale exceeds this level; NaN and `+inf` count as rejected,
      as the comparison `mart <= 1/alpha` is false for them. */
  predicate Kept(mart: Float, alpha: real)
    requires 0.0 < alpha
  {
    Le(mart, Num(1.0 / alpha))
  }

  /** The martingale of every grid point, in grid order; the first failure stops the evaluation. */
  function Evaluate(mart: real -> Result<seq<Float>, MartError>, grid: seq<real>)
    : (r: Result<seq<seq<Float>>, MartError>)
    ensures r.Success? <==> forall i :: 0 <= i < |grid| ==> mart(grid[i]).Success?
    ensures r.Success? ==> |r.value| == |grid| && forall i :: 0 <= i < |grid| ==> r.value[i] == mart(grid[i]).value
    ensures r.Failure? ==> exists i :: 0 <= i < |grid| && mart(grid[i]) == Failure(r.error) &&
                                       forall h :: 0 <= h < i ==> mart(grid[h]).Success?
  {
    if |grid| == 0 then Success([])
    else match mart(grid[0])
      case Failure(e) => Failure(e)
      case Success(head) =>
        match Evaluate(mart, grid[1..])
        case Failure(e) =>
          var i :| 0 <= i < |grid[1..]| && mart(grid[1..][i]) == Failure(e) &&
                   forall h :: 0 <= h < i ==> mart(grid[1..][h]).Success?;
          assert mart(grid[i + 1]) == Failure(e);
          Failure(e)
        case Success(tail) => Success([head] + tail)
  }

  /** Column `j` of the acceptance matrix: which grid points are kept at time `j`. */
  function Column(marts: seq<seq<Float>>, alpha: real, j: nat): (col: seq<bool>)
    requires 0.0 < alpha && forall i :: 0 <= i < |marts| ==> j < |marts[i]|
    ensures |col| == |marts|
    ensures forall i :: 0 <= i < |marts| ==> (col[i] <==> Kept(marts[i][j], alpha))
  {
    seq(|marts|, i requires 0 <= i < |marts| => Kept(marts[i][j], alpha))
  }

  /** `np.where(column)[0][0]`: the first kept index, if any. */
  function First(col: seq<bool>): (r: Option<nat>)
    ensures r.None? <==> forall i :: 0 <= i < |col| ==> !col[i]
    ensures r.Some? ==> r.value < |col| && col[r.value] && forall i :: 0 <= i < r.value ==> !col[i]
  {
    if |col| == 0 then None
    else if col[0] then Some(0)
    else match First(col[1..])
      case None => None
      case Some(i) => Some(i + 1)
  }

  /** `np.where(column)[0][-1]`: the last kept index, if any. */
  function Last(col: seq<bool>): (r: Option<nat>)
    ensures r.None? <==> forall i :: 0 <= i < |col| ==> !col[i]
    ensures r.Some? ==> r.value < |col| && col[r.value] && forall i :: r.value < i < |col| ==> !col[i]
  {
    if |col| == 0 then None
    else if col[|col| - 1] then Some(|col| - 1)
    else Last(col[..|col| - 1])
  }

  /** The lower bound read off a column: the smallest kept grid point, NaN when none is kept. */
  function GridLower(grid: seq<real>, col: seq<bool>): (l: Float)
    requires |col| == |grid|
    ensures l.NaN? <==> forall i :: 0 <= i < |col| ==> !col[i]
    ensures !l.NaN? ==> exists i :: 0 <= i < |col| && col[i] && l == Num(grid[i])
    ensures Nondecreasing(grid) ==> forall i :: 0 <= i < |col| && col[i] ==> Le(l, Num(grid[i]))
  {
    match First(col)
    case None => NaN
    case Some(f) => Num(grid[f])
  }

  /** The upper bound read off a column: the largest kept grid point, NaN when none is kept. */
  function GridUpper(grid: seq<real>, col: seq<bool>): (u: Float)
    requires |col| == |grid|
    ensures u.NaN? <==> forall i :: 0 <= i < |col| ==> !col[i]
    ensures !u.NaN? ==> exists i :: 0 <= i < |col| && col[i] && u == Num(grid[i])
    ensures Nondecreasing(grid) ==> forall i :: 0 <= i < |col| && col[i] ==> Le(Num(grid[i]), u)
  {
    match Last(col)
    case None => NaN
    case Some(f) => Num(grid[f])
  }

  /** A kept grid point never lies below the first kept point nor above the last, so the bounds read
      off a nonempty column are ordered. */
  lemma GridBoundsOrdered(grid: seq<real>, col: seq<bool>)
    requires |col| == |grid| && Nondecreasing(grid)
    ensures !GridLower(grid, col).NaN? ==> Le(GridLower(grid, col), GridUpper(grid, col))
  {
    if !GridLower(grid, col).NaN? {
      var i :| 0 <= i < |col| && col[i] && GridLower(grid, col) == Num(grid[i]);
      LeTransitive(GridLower(grid, col), Num(grid[i]), GridUpper(grid, col));
    }
  }

  /** The bounds before widening, one pair per time. */
  function Inverted(grid: seq<real>, marts: seq<seq<Float>>, alpha: real, n: nat): (cs: Cs)
    requires 0.0 < alpha && |marts| == |grid| && forall i :: 0 <= i < |marts| ==> |marts[i]| == n
    ensures |cs.lower| == n && |cs.upper| == n
    ensures forall j :: 0 <= j < n ==> cs.lower[j] == GridLower(grid, Column(marts, alpha, j))
    ensures forall j :: 0 <= j < n ==> cs.upper[j] == GridUpper(grid, Column(marts, alpha, j))
  {
    Cs(seq(n, j requires 0 <= j < n => GridLower(grid, Column(marts, alpha, j))),
       seq(n, j requires 0 <= j < n => GridUpper(grid, Column(marts, alpha, j))))
  }

  /** The grid step `1/breaks`. */
  function Step(breaks: nat): real
    requires 0 < breaks
  {
    1.0 / (breaks as real)
  }

  /** `l = np.maximum(0, l - 1/breaks)`, `u = np.minimum(1, u + 1/breaks)`: the grid bounds widened
      by one step and clipped to `[0, 1]`. A bound in `[0, 1]` only moves outwards and stays in
      `[0, 1]`; NaN stays NaN. */
  function Widen(cs: Cs, breaks: nat): (r: Cs)
    requires 0 < breaks && |cs.lower| == |cs.upper|
    ensures |r.lower| == |cs.lower| && |r.upper| == |cs.lower|
    ensures forall j :: 0 <= j < |cs.lower| && cs.lower[j].Num? ==>
      r.lower[j] == Num(if cs.lower[j].val - Step(breaks) <= 0.0 then 0.0 else cs.lower[j].val - Step(breaks))
    ensures forall j :: 0 <= j < |cs.upper| && cs.upper[j].Num? ==>
      r.upper[j] == Num(if 1.0 <= cs.upper[j].val + Step(breaks) then 1.0 else cs.upper[j].val + Step(breaks))
    ensures forall j :: 0 <= j < |cs.lower| ==> AtMost(cs.lower[j], 1.0) ==> AtMost(r.lower[j], 1.0)
    ensures forall j :: 0 <= j < |cs.upper| ==> AtLeast(cs.upper[j], 0.0) ==> AtLeast(r.upper[j], 0.0)
    ensures forall j :: 0 <= j < |cs.lower| ==> (r.lower[j].NaN? <==> cs.lower[j].NaN?)
    ensures forall j :: 0 <= j < |cs.upper| ==> (r.upper[j].NaN? <==> cs.upper[j].NaN?)
    ensures forall j :: 0 <= j < |cs.lower| ==> !cs.lower[j].NaN? ==> AtLeast(r.lower[j], 0.0)
    ensures forall j :: 0 <= j < |cs.upper| ==> !cs.upper[j].NaN? ==> AtMost(r.upper[j], 1.0)
    ensures forall j :: 0 <= j < |cs.lower| ==> AtLeast(cs.lower[j], 0.0) ==> Le(r.lower[j], cs.lower[j])
    ensures forall j :: 0 <= j < |cs.upper| ==> AtMost(cs.upper[j], 1.0) ==> Le(cs.upper[j], r.upper[j])
  {
    var step := Step(breaks);
    Cs(ClampBelow(seq(|cs.lower|, j requires 0 <= j < |cs.lower| => Sub(cs.lower[j], Num(step)))),
       ClampAbove(seq(|cs.upper|, j requires 0 <= j < |cs.upper| => Add(cs.upper[j], Num(step)))))
  }

  /** `logical_cs(x, N)`: `S_t / N` and `1 - (t - S_t) / N`, what any mean of a population of `N`
      values in `[0, 1]` that starts with the sample must satisfy. */
  function LogicalCs(x: seq<real>, n: nat): (cs: Cs)
    ensures |cs.lower| == |x| && |cs.upper| == |x|
  {
    Cs(seq(|x|, t requires 0 <= t < |x| => LogicalLower(Sum(x[..t + 1]), n)),
       seq(|x|, t requires 0 <= t < |x| => LogicalUpper(Sum(x[..t + 1]), t, n)))
  }

  /** The logical bounds of time `t`, from the sum `s` of the first `t + 1` observations. */
  function LogicalLower(s: real, n: nat): Float {
    Div(s, n as real)
  }

  function LogicalUpper(s: real, t: nat, n: nat): Float {
    Sub(Num(1.0), Div((t + 1) as real - s, n as real))
  }

  lemma LogicalAt(x: seq<real>, n: nat, t: nat)
    requires t < |x|
    ensures LogicalCs(x, n).lower[t] == LogicalLower(Sum(x[..t + 1]), n)
    ensures LogicalCs(x, n).upper[t] == LogicalUpper(Sum(x[..t + 1]), t, n)
  {
  }

  /** With `0 < n`, the bounds are `s / n` and `(n - t - 1 + s) / n`. */
  lemma LogicalScaled(s: real, t: nat, n: nat)
    requires 0 < n
    ensures LogicalLower(s, n).Num? && LogicalUpper(s, t, n).Num?
    ensures LogicalLower(s, n).val * (n as real) == s
    ensures LogicalUpper(s, t, n).val * (n as real) == (n as real) - (t + 1) as real + s
  {
    var d := Div((t + 1) as real - s, n as real);
    assert d.val * (n as real) == (t + 1) as real - s;
    assert (1.0 - d.val) * (n as real) == (n as real) - d.val * (n as real);
  }

  /** The mean of a nonempty population. */
  function Mean(population: seq<real>): (m: real)
    requires 0 < |population|
    ensures m * (|population| as real) == Sum(population)
  {
    Sum(population) / (|population| as real)
  }

  /** Whatever values the rest of a population of values in `[0, 1]` takes, its mean lies in the
      logical interval of every time of the sample it starts with. */
  lemma LogicalCsCovers(x: seq<real>, population: seq<real>, t: nat)
    requires t < |x| <= |population| && x == population[..|x|] && UnitInterval(population)
    ensures Le(LogicalCs(x, |population|).lower[t], Num(Mean(population)))
    ensures Le(Num(Mean(population)), LogicalCs(x, |population|).upper[t])
  {
    SampleSumBounds(x, population, t);
    LogicalCovers(x, |population|, t, Sum(population), Mean(population));
  }

  /** The logical interval of time `t` contains every mean `total / n` whose total exceeds the sample
      sum by at most one per unseen value. */
  lemma LogicalCovers(x: seq<real>, n: nat, t: nat, total: real, mean: real)
    requires t < |x| && t < n
    requires Sum(x[..t + 1]) <= total <= Sum(x[..t + 1]) + (n - (t + 1)) as real && mean * (n as real) == total
    ensures Le(LogicalCs(x, n).lower[t], Num(mean)) && Le(Num(mean), LogicalCs(x, n).upper[t])
  {
    LogicalAt(x, n, t);
    CoverScalar(Sum(x[..t + 1]), total, mean, t, n);
  }

  lemma SampleSumBounds(x: seq<real>, population: seq<real>, t: nat)
    requires t < |x| <= |population| && x == population[..|x|] && UnitInterval(population)
    ensures Sum(x[..t + 1]) <= Sum(population) <= Sum(x[..t + 1]) + (|population| - (t + 1)) as real
  {
    assert x[..t + 1] == population[..t + 1];
    PrefixSumBounds(population, t + 1);
  }

  lemma CoverScalar(s: real, total: real, mean: real, t: nat, n: nat)
    requires t < n && s <= total <= s + (n - (t + 1)) as real && mean * (n as real) == total
    ensures Le(LogicalLower(s, n), Num(mean)) && Le(Num(mean), LogicalUpper(s, t, n))
  {
    LogicalScaled(s, t, n);
    QuotientMonotone(n as real, LogicalLower(s, n).val, s, mean, total);
    QuotientMonotone(n as real, mean, total, LogicalUpper(s, t, n).val, (n as real) - (t + 1) as real + s);
  }

  /** The unseen part of a population of values in `[0, 1]` adds between 0 and its size to the sum. */
  lemma PrefixSumBounds(population: seq<real>, k: nat)
    requires k <= |population| && UnitInterval(population)
    ensures Sum(population[..k]) <= Sum(population) <= Sum(population[..k]) + (|population| - k) as real
  {
    var rest := population[k..];
    SumSplit(population, k);
    assert UnitInterval(rest) by {
      forall i | 0 <= i < |rest|
        ensures 0.0 <= rest[i] <= 1.0
      {
        assert rest[i] == population[k + i];
      }
    }
    UnitSumBounds(rest);
  }

  /** With a sample of values in `[0, 1]` no larger than the population, the logical interval is a
      nonempty part of `[0, 1]`. */
  lemma LogicalCsOrdered(x: seq<real>, n: nat, t: nat)
    requires t < |x| <= n && UnitInterval(x)
    ensures LogicalCs(x, n).lower[t].Num? && LogicalCs(x, n).upper[t].Num?
    ensures 0.0 <= LogicalCs(x, n).lower[t].val <= LogicalCs(x, n).upper[t].val <= 1.0
  {
    assert UnitInterval(x[..t + 1]);
    UnitSumBounds(x[..t + 1]);
    LogicalAt(x, n, t);
    LogicalOrdered(Sum(x[..t + 1]), t, n);
  }

  lemma LogicalOrdered(s: real, t: nat, n: nat)
    requires t < n && 0.0 <= s <= (t + 1) as real
    ensures LogicalLower(s, n).Num? && LogicalUpper(s, t, n).Num?
    ensures 0.0 <= LogicalLower(s, n).val <= LogicalUpper(s, t, n).val <= 1.0
  {
    LogicalScaled(s, t, n);
    var b := n as real;
    QuotientMonotone(b, 0.0, 0.0, LogicalLower(s, n).val, s);
    QuotientMonotone(b, LogicalLower(s, n).val, s, LogicalUpper(s, t, n).val, b - (t + 1) as real + s);
    QuotientMonotone(b, LogicalUpper(s, t, n).val, b - (t + 1) as real + s, 1.0, b);
  }

  /** `np.maximum(l, l2)`, `np.minimum(u, u2)`: the intersection only tightens either interval. */
  function Intersect(a: Cs, b: Cs): (r: Cs)
    requires |a.lower| == |a.upper| == |b.lower| == |b.upper|
    ensures |r.lower| == |a.lower| && |r.upper| == |a.lower|
    ensures forall j :: 0 <= j < |a.lower| ==> (r.lower[j].NaN? <==> a.lower[j].NaN? || b.lower[j].NaN?)
    ensures forall j :: 0 <= j < |a.upper| ==> (r.upper[j].NaN? <==> a.upper[j].NaN? || b.upper[j].NaN?)
    ensures forall j :: 0 <= j < |a.lower| ==> !r.lower[j].NaN? ==>
      Le(a.lower[j], r.lower[j]) && Le(b.lower[j], r.lower[j]) && (r.lower[j] == a.lower[j] || r.lower[j] == b.lower[j])
    ensures forall j :: 0 <= j < |a.upper| ==> !r.upper[j].NaN? ==>
      Le(r.upper[j], a.upper[j]) && Le(r.upper[j], b.upper[j]) && (r.upper[j] == a.upper[j] || r.upper[j] == b.upper[j])
  {
    Cs(seq(|a.lower|, j requires 0 <= j < |a.lower| => Max(a.lower[j], b.lower[j])),
       seq(|a.upper|, j requires 0 <= j < |a.upper| => Min(a.upper[j], b.upper[j])))
  }

  /** The grid bounds after widening and, with a population size, the logical intersection. */
  function Bounded(x: seq<real>, marts: seq<seq<Float>>, breaks: nat, alpha: real, population: Option<nat>)
    : (cs: Cs)
    requires 0 < breaks && 0.0 < alpha && |marts| == breaks + 1
    requires forall i :: 0 <= i < |marts| ==> |marts[i]| == |x|
    ensures |cs.lower| == |x| && |cs.upper| == |x|
  {
    var widened := Widen(Inverted(Grid(breaks), marts, alpha, |x|), breaks);
    match population
    case None => widened
    case Some(n) => Intersect(widened, LogicalCs(x, n))
  }

  /** The end of `cs_from_martingale`, given the martingale of every grid point. */
  function CsFromGrid(x: seq<real>, marts: seq<seq<Float>>, breaks: nat, alpha: real, population: Option<nat>,
                      runningIntersection: bool): (cs: Cs)
    requires 0 < breaks && 0.0 < alpha && |marts| == breaks + 1
    requires forall i :: 0 <= i < |marts| ==> |marts[i]| == |x|
    ensures |cs.lower| == |x| && |cs.upper| == |x|
  {
    var b := Bounded(x, marts, breaks, alpha, population);
    if runningIntersection then Cs(RunningMax(b.lower), RunningMin(b.upper)) else b
  }

  /** `cs_from_martingale`: the martingale is evaluated on the grid (its first failure is the
      result), then the bounds are read off. */
  function CsFromMartingale(x: seq<real>, mart: real -> Result<seq<Float>, MartError>, breaks: nat, alpha: real,
                            population: Option<nat>, runningIntersection: bool): (r: Result<Cs, MartError>)
    requires 0 < breaks && 0.0 < alpha
    requires forall m :: mart(m).Success? ==> |mart(m).value| == |x|
    ensures r.Success? <==> forall i :: 0 <= i <= breaks ==> mart(Grid(breaks)[i]).Success?
    ensures r.Failure? ==> exists i :: 0 <= i <= breaks && mart(Grid(breaks)[i]) == Failure(r.error)
    ensures r.Success? ==> |r.value.lower| == |x| && |r.value.upper| == |x|
  {
    match Evaluate(mart, Grid(breaks))
    case Failure(e) => Failure(e)
    case Success(marts) => Success(CsFromGrid(x, marts, breaks, alpha, population, runningIntersection))
  }

  /** Before the logical and running intersections, every grid point whose martingale stays at most
      `1/alpha` at time `j` lies inside the interval of time `j`, whose lower bound is at least 0 and
      whose upper bound is at most 1. */
  lemma BoundedCovers(x: seq<real>, marts: seq<seq<Float>>, breaks: nat, alpha: real, i: nat, j: nat)
    requires 0 < breaks && 0.0 < alpha && |marts| == breaks + 1
    requires forall h :: 0 <= h < |marts| ==> |marts[h]| == |x|
    requires i <= breaks && j < |x| && Kept(marts[i][j], alpha)
    ensures Le(Bounded(x, marts, breaks, alpha, None).lower[j], Num(Grid(breaks)[i]))
    ensures Le(Num(Grid(breaks)[i]), Bounded(x, marts, breaks, alpha, None).upper[j])
    ensures AtLeast(Bounded(x, marts, breaks, alpha, None).lower[j], 0.0)
    ensures AtMost(Bounded(x, marts, breaks, alpha, None).upper[j], 1.0)
  {
    var grid := Grid(breaks);
    GridShape(breaks);
    var raw := Inverted(grid, marts, alpha, |x|);
    var col := Column(marts, alpha, j);
    assert col[i];
    var f :| 0 <= f < |col| && col[f] && raw.lower[j] == Num(grid[f]);
    var g :| 0 <= g < |col| && col[g] && raw.upper[j] == Num(grid[g]);
    var w := Widen(raw, breaks);
    LeTransitive(w.lower[j], raw.lower[j], Num(grid[i]));
    LeTransitive(Num(grid[i]), raw.upper[j], w.upper[j]);
  }

  /** A time at which every grid point is rejected gives NaN bounds, whatever intersections follow. */
  lemma RejectedEverywhere(x: seq<real>, marts: seq<seq<Float>>, breaks: nat, alpha: real, population: Option<nat>,
                           runningIntersection: bool, j: nat)
    requires 0 < breaks && 0.0 < alpha && |marts| == breaks + 1
    requires forall h :: 0 <= h < |marts| ==> |marts[h]| == |x|
    requires j < |x| && forall i :: 0 <= i <= breaks ==> !Kept(marts[i][j], alpha)
    ensures CsFromGrid(x, marts, breaks, alpha, population, runningIntersection).lower[j].NaN?
    ensures CsFromGrid(x, marts, breaks, alpha, population, runningIntersection).upper[j].NaN?
  {
    var grid := Grid(breaks);
    var col := Column(marts, alpha, j);
    assert forall i :: 0 <= i < |col| ==> !col[i];
    var b := Bounded(x, marts, breaks, alpha, population);
    assert b.lower[j].NaN? && b.upper[j].NaN?;
    if runningIntersection {
      RunningMaxKeepsNaN(b.lower, j, j);
      MinKeepsNaN(b.upper, j);
    }
  }

  lemma MinKeepsNaN(s: seq<Float>, j: nat)
    requires j < |s| && s[j].NaN?
    ensures RunningMin(s)[j].NaN?
  {
    if j > 0 {
      assert RunningMin(s)[j] == Min(RunningMin(s)[j - 1], s[j]);
    }
  }

  /** For any population size, every lower bound that is not NaN is at least 0 and every upper bound
      that is not NaN at most 1. Without a population size the interval is also ordered; with one it
      need not be, as the logical interval can miss the widened grid interval. */
  lemma BoundedInUnit(x: seq<real>, marts: seq<seq<Float>>, breaks: nat, alpha: real, population: Option<nat>, j: nat)
    requires 0 < breaks && 0.0 < alpha && |marts| == breaks + 1
    requires forall h :: 0 <= h < |marts| ==> |marts[h]| == |x|
    requires j < |x|
    ensures !Bounded(x, marts, breaks, alpha, population).lower[j].NaN? ==>
      AtLeast(Bounded(x, marts, breaks, alpha, population).lower[j], 0.0)
    ensures !Bounded(x, marts, breaks, alpha, population).upper[j].NaN? ==>
      AtMost(Bounded(x, marts, breaks, alpha, population).upper[j], 1.0)
    ensures population.None? && !Bounded(x, marts, breaks, alpha, population).lower[j].NaN? ==>
      Le(Bounded(x, marts, breaks, alpha, population).lower[j], Bounded(x, marts, breaks, alpha, population).upper[j])
  {
    var raw := Inverted(Grid(breaks), marts, alpha, |x|);
    var w := Widen(raw, breaks);
    var b := Bounded(x, marts, breaks, alpha, population);
    if population.None? && !b.lower[j].NaN? {
      var grid := Grid(breaks);
      var col := Column(marts, alpha, j);
      GridShape(breaks);
      GridBoundsOrdered(grid, col);
      var f :| 0 <= f < |col| && col[f] && raw.lower[j] == Num(grid[f]);
      var g :| 0 <= g < |col| && col[g] && raw.upper[j] == Num(grid[g]);
      LeTransitive(w.lower[j], raw.lower[j], raw.upper[j]);
      LeTransitive(w.lower[j], raw.upper[j], w.upper[j]);
    }
    if population.Some? {
      if !b.lower[j].NaN? {
        LeTransitive(Num(0.0), w.lower[j], b.lower[j]);
      }
      if !b.upper[j].NaN? {
        LeTransitive(b.upper[j], w.upper[j], Num(1.0));
      }
    }
  }

  /** What `cs_from_martingale` returns, for any population size and with or without the running
      intersection: every lower bound that is not NaN is at least 0, every upper bound that is not
      NaN at most 1. */
  lemma CsFromGridInUnit(x: seq<real>, marts: seq<seq<Float>>, breaks: nat, alpha: real, population: Option<nat>,
                         runningIntersection: bool, j: nat)
    requires 0 < breaks && 0.0 < alpha && |marts| == breaks + 1
    requires forall h :: 0 <= h < |marts| ==> |marts[h]| == |x|
    requires j < |x|
    ensures var cs := CsFromGrid(x, marts, breaks, alpha, population, runningIntersection);
      (!cs.lower[j].NaN? ==> AtLeast(cs.lower[j], 0.0)) && (!cs.upper[j].NaN? ==> AtMost(cs.upper[j], 1.0))
  {
    var b := Bounded(x, marts, breaks, alpha, population);
    if runningIntersection {
      forall h | 0 <= h < |x|
        ensures !b.lower[h].NaN? ==> AtLeast(b.lower[h], 0.0)
        ensures !b.upper[h].NaN? ==> AtMost(b.upper[h], 1.0)
      {
        BoundedInUnit(x, marts, breaks, alpha, population, h);
      }
      RunningMaxAtLeast(b.lower, 0.0, j);
      RunningMinAtMost(b.upper, 1.0, j);
    } else {
      BoundedInUnit(x, marts, breaks, alpha, population, j);
    }
  }

  /** The same for `cs_from_martingale` as a whole, whenever it succeeds. */
  lemma CsFromMartingaleInUnit(x: seq<real>, mart: real -> Result<seq<Float>, MartError>, breaks: nat, alpha: real,
                               population: Option<nat>, runningIntersection: bool, j: nat)
    requires 0 < breaks && 0.0 < alpha
    requires forall m :: mart(m).Success? ==> |mart(m).value| == |x|
    requires j < |x|
    ensures var r := CsFromMartingale(x, mart, breaks, alpha, population, runningIntersection);
      r.Success? ==>
        (!r.value.lower[j].NaN? ==> AtLeast(r.value.lower[j], 0.0)) &&
        (!r.value.upper[j].NaN? ==> AtMost(r.value.upper[j], 1.0))
  {
    var e := Evaluate(mart, Grid(breaks));
    if e.Success? {
      CsFromGridInUnit(x, e.value, breaks, alpha, population, runningIntersection, j);
    }
  }

  /** With the running intersection and no NaN bound, the lower bounds never decrease and the upper
      bounds never increase. */
  lemma RunningIntersectionNests(x: seq<real>, marts: seq<seq<Float>>, breaks: nat, alpha: real,
                                 population: Option<nat>, i: nat, j: nat)
    requires 0 < breaks && 0.0 < alpha && |marts| == breaks + 1
    requires forall h :: 0 <= h < |marts| ==> |marts[h]| == |x|
    requires NoNaN(Bounded(x, marts, breaks, alpha, population).lower)
    requires NoNaN(Bounded(x, marts, breaks, alpha, population).upper)
    requires i <= j < |x|
    ensures Le(CsFromGrid(x, marts, breaks, alpha, population, true).lower[i],
               CsFromGrid(x, marts, breaks, alpha, population, true).lower[j])
    ensures Le(CsFromGrid(x, marts, breaks, alpha, population, true).upper[j],
               CsFromGrid(x, marts, breaks, alpha, population, true).upper[i])
  {
    var b := Bounded(x, marts, breaks, alpha, population);
    RunningMaxNondecreasing(b.lower, i, j);
    RunningMinNonincreasing(b.upper, i, j);
  }

  /** The sequence `cs_from_martingale` returns keeps, at every time, each grid point whose martingale
      has not passed `1/alpha` (without population size or running intersection). */
  lemma CsFromMartingaleCovers(x: seq<real>, mart: real -> Result<seq<Float>, MartError>, breaks: nat, alpha: real,
                               i: nat, j: nat)
    requires 0 < breaks && 0.0 < alpha
    requires forall m :: mart(m).Success? ==> |mart(m).value| == |x|
    requires CsFromMartingale(x, mart, breaks, alpha, None, false).Success?
    requires i <= breaks && j < |x| && Kept(mart(Grid(breaks)[i]).value[j], alpha)
    ensures Le(CsFromMartingale(x, mart, breaks, alpha, None, false).value.lower[j], Num(Grid(breaks)[i]))
    ensures Le(Num(Grid(breaks)[i]), CsFromMartingale(x, mart, breaks, alpha, None, false).value.upper[j])
  {
    var marts := Evaluate(mart, Grid(breaks)).value;
    BoundedCovers(x, marts, breaks, alpha, i, j);
  }

  // ---------------------------------------------------------------------------------------------
  // betting_cs and betting_ci

  /** A bet function of the source, with the data fixed: the bets for a candidate mean. */
  type BetFn = real -> seq<real>

  ghost predicate BetsFit(fs: seq<BetFn>, n: nat) {
    forall j, m :: 0 <= j < |fs| ==> |fs[j](m)| == n
  }

  function Apply(fs: seq<BetFn>, m: real): (bets: seq<seq<real>>)
    ensures |bets| == |fs| && forall j :: 0 <= j < |fs| ==> bets[j] == fs[j](m)
  {
    seq(|fs|, j requires 0 <= j < |fs| => fs[j](m))
  }

  /** The strategies `betting_cs` bets with: when none are given, the single default of
      `betting_mart`, `lambda_predmix_eb(x, alpha)` whatever the candidate mean; the negative side
      defaults to the positive one. */
  function Strategies(k: Calculus, x: seq<real>, positive: Option<seq<BetFn>>, negative: Option<seq<BetFn>>,
                      alpha: real): (s: (seq<BetFn>, seq<BetFn>))
    requires k.Lawful() && 0.0 < alpha
    requires positive.Some? ==> BetsFit(positive.value, |x|)
    requires negative.Some? ==> BetsFit(negative.value, |x|)
    ensures BetsFit(s.0, |x|) && BetsFit(s.1, |x|)
    ensures positive.Some? ==> s.0 == positive.value
    ensures positive.None? ==> |s.0| == 1 && forall m :: s.0[0](m) == PredmixBets(k, x, DefaultEb(alpha))
    ensures negative.Some? ==> s.1 == negative.value
    ensures negative.None? ==> s.1 == s.0
  {
    var bets := PredmixBets(k, x, DefaultEb(alpha));
    var pos: seq<BetFn> := if positive.Some? then positive.value else [m => bets];
    (pos, if negative.Some? then negative.value else pos)
  }

  /** `betting_cs`: the grid method applied to the diversified betting martingale. Positive and
      negative strategy lists of different lengths fail its assertion. */
  function BettingCs(k: Calculus, x: seq<real>, positive: Option<seq<BetFn>>, negative: Option<seq<BetFn>>,
                     alpha: real, breaks: nat, runningIntersection: bool, st: Settings)
    : (r: Result<Cs, MartError>)
    requires k.Lawful() && 0.0 < alpha && 0 < breaks && Admissible(st, x)
    requires positive.Some? ==> BetsFit(positive.value, |x|)
    requires negative.Some? ==> BetsFit(negative.value, |x|)
    ensures |Strategies(k, x, positive, negative, alpha).0| != |Strategies(k, x, positive, negative, alpha).1| ==>
      r == Failure(MismatchedStrategies)
    ensures r.Success? ==> |r.value.lower| == |x| && |r.value.upper| == |x|
  {
    var (pos, neg) := Strategies(k, x, positive, negative, alpha);
    if |pos| != |neg| then Failure(MismatchedStrategies)
    else CsFromMartingale(x, CsMart(k, x, positive, negative, alpha, st), breaks, alpha, st.population, runningIntersection)
  }

  /** The martingale `betting_cs` inverts: the diversified betting martingale of the strategies with
      the default weights, as a function of the candidate mean. */
  function CsMart(k: Calculus, x: seq<real>, positive: Option<seq<BetFn>>, negative: Option<seq<BetFn>>,
                  alpha: real, st: Settings): (mart: real -> Result<seq<Float>, MartError>)
    requires k.Lawful() && 0.0 < alpha && Admissible(st, x)
    requires positive.Some? ==> BetsFit(positive.value, |x|)
    requires negative.Some? ==> BetsFit(negative.value, |x|)
    ensures forall m :: mart(m) == CsMartAt(k, x, positive, negative, alpha, st, m)
    ensures forall m :: mart(m).Success? ==> |mart(m).value| == |x|
  {
    m => CsMartAt(k, x, positive, negative, alpha, st, m)
  }

  /** `CsMart` at one candidate mean `m`. */
  function CsMartAt(k: Calculus, x: seq<real>, positive: Option<seq<BetFn>>, negative: Option<seq<BetFn>>,
                    alpha: real, st: Settings, m: real): (r: Result<seq<Float>, MartError>)
    requires k.Lawful() && 0.0 < alpha && Admissible(st, x)
    requires positive.Some? ==> BetsFit(positive.value, |x|)
    requires negative.Some? ==> BetsFit(negative.value, |x|)
    ensures r.Success? ==> |r.value| == |x|
  {
    var (pos, neg) := Strategies(k, x, positive, negative, alpha);
    Diversified(x, m, Apply(pos, m), Some(Apply(neg, m)), None, st)
  }

  /** With data in `[0, 1]`, at least one strategy on each side and as many on both, truncation
      scale at most 1 and `theta` in `[0, 1]`, the martingale never fails its assertion at any
      candidate mean, so `betting_cs` never fails, for any population size. */
  lemma BettingCsSucceeds(k: Calculus, x: seq<real>, positive: Option<seq<BetFn>>, negative: Option<seq<BetFn>>,
                          alpha: real, breaks: nat, runningIntersection: bool, st: Settings)
    requires k.Lawful() && 0.0 < alpha && 0 < breaks && Admissible(st, x)
    requires positive.Some? ==> BetsFit(positive.value, |x|) && 0 < |positive.value|
    requires negative.Some? ==> BetsFit(negative.value, |x|)
    requires |Strategies(k, x, positive, negative, alpha).0| == |Strategies(k, x, positive, negative, alpha).1|
    requires UnitInterval(x) && st.truncScale <= 1.0 && 0.0 <= st.theta <= 1.0
    ensures forall m :: CsMartAt(k, x, positive, negative, alpha, st, m).Success?
    ensures BettingCs(k, x, positive, negative, alpha, breaks, runningIntersection, st).Success?
  {
    var (pos, neg) := Strategies(k, x, positive, negative, alpha);
    var mart := CsMart(k, x, positive, negative, alpha, st);
    forall m
      ensures CsMartAt(k, x, positive, negative, alpha, st, m).Success?
    {
      DiversifiedSucceeds(x, m, Apply(pos, m), Some(Apply(neg, m)), st);
    }
  }

  /** Under the hypotheses of `BettingCsSucceeds` and without population size or running
      intersection, every candidate mean whose diversified martingale stays at most `1/alpha` at
      time `j` lies in the interval of time `j`. */
  lemma BettingCsCovers(k: Calculus, x: seq<real>, positive: Option<seq<BetFn>>, negative: Option<seq<BetFn>>,
                        alpha: real, breaks: nat, st: Settings, i: nat, j: nat)
    requires k.Lawful() && 0.0 < alpha && 0 < breaks && Admissible(st, x)
    requires positive.Some? ==> BetsFit(positive.value, |x|) && 0 < |positive.value|
    requires negative.Some? ==> BetsFit(negative.value, |x|)
    requires |Strategies(k, x, positive, negative, alpha).0| == |Strategies(k, x, positive, negative, alpha).1|
    requires UnitInterval(x) && st.truncScale <= 1.0 && 0.0 <= st.theta <= 1.0 && st.population.None?
    requires i <= breaks && j < |x|
    ensures BettingCs(k, x, positive, negative, alpha, breaks, false, st).Success?
    ensures CsMartAt(k, x, positive, negative, alpha, st, Grid(breaks)[i]).Success?
    ensures Kept(CsMartAt(k, x, positive, negative, alpha, st, Grid(breaks)[i]).value[j], alpha) ==>
      Le(BettingCs(k, x, positive, negative, alpha, breaks, false, st).value.lower[j], Num(Grid(breaks)[i])) &&
      Le(Num(Grid(breaks)[i]), BettingCs(k, x, positive, negative, alpha, breaks, false, st).value.upper[j])
  {
    BettingCsSucceeds(k, x, positive, negative, alpha, breaks, false, st);
    var mart := CsMart(k, x, positive, negative, alpha, st);
    if Kept(mart(Grid(breaks)[i]).value[j], alpha) {
      CsFromMartingaleCovers(x, mart, breaks, alpha, i, j);
    }
  }

  datatype CiError = MartFailed(error: MartError) | EmptySample

  /** `betting_ci`: the last interval of `betting_cs`; an empty sample has none. */
  function BettingCi(k: Calculus, x: seq<real>, positive: Option<seq<BetFn>>, negative: Option<seq<BetFn>>,
                     alpha: real, breaks: nat, runningIntersection: bool, st: Settings)
    : (r: Result<(Float, Float), CiError>)
    requires k.Lawful() && 0.0 < alpha && 0 < breaks && Admissible(st, x)
    requires positive.Some? ==> BetsFit(positive.value, |x|)
    requires negative.Some? ==> BetsFit(negative.value, |x|)
    ensures BettingCs(k, x, positive, negative, alpha, breaks, runningIntersection, st).Failure? ==>
      r == Failure(MartFailed(BettingCs(k, x, positive, negative, alpha, breaks, runningIntersection, st).error))
    ensures BettingCs(k, x, positive, negative, alpha, breaks, runningIntersection, st).Success? ==>
      (r.Success? <==> |x| > 0)
    ensures r.Success? ==>
      var cs := BettingCs(k, x, positive, negative, alpha, breaks, runningIntersection, st).value;
      r.value == (cs.lower[|x| - 1], cs.upper[|x| - 1])
  {
    match BettingCs(k, x, positive, negative, alpha, breaks, runningIntersection, st)
    case Failure(e) => Failure(MartFailed(e))
    case Success(cs) =>
      if |x| == 0 then Failure(EmptySample)
      else Success((cs.lower[|x| - 1], cs.upper[|x| - 1]))
  }

  /** A confidence interval of `betting_ci` has a lower bound that is NaN or at least 0 and an upper
      bound that is NaN or at most 1, for any population size and running intersection. */
  lemma BettingCiInUnit(k: Calculus, x: seq<real>, positive: Option<seq<BetFn>>, negative: Option<seq<BetFn>>,
                        alpha: real, breaks: nat, runningIntersection: bool, st: Settings)
    requires k.Lawful() && 0.0 < alpha && 0 < breaks && Admissible(st, x)
    requires positive.Some? ==> BetsFit(positive.value, |x|)
    requires negative.Some? ==> BetsFit(negative.value, |x|)
    ensures var r := BettingCi(k, x, positive, negative, alpha, breaks, runningIntersection, st);
      r.Success? ==> (!r.value.0.NaN? ==> AtLeast(r.value.0, 0.0)) && (!r.value.1.NaN? ==> AtMost(r.value.1, 1.0))
  {
    if BettingCi(k, x, positive, negative, alpha, breaks, runningIntersection, st).Success? {
      BettingCiInUnitAt(k, x, positive, negative, alpha, breaks, runningIntersection, st, |x| - 1);
    }
  }

  /** `BettingCiInUnit` with the last time named `j`. */
  lemma BettingCiInUnitAt(k: Calculus, x: seq<real>, positive: Option<seq<BetFn>>, negative: Option<seq<BetFn>>,
                          alpha: real, breaks: nat, runningIntersection: bool, st: Settings, j: nat)
    requires k.Lawful() && 0.0 < alpha && 0 < breaks && Admissible(st, x)
    requires positive.Some? ==> BetsFit(positive.value, |x|)
    requires negative.Some? ==> BetsFit(negative.value, |x|)
    requires j + 1 == |x|
    ensures var r := BettingCi(k, x, positive, negative, alpha, breaks, runningIntersection, st);
      r.Success? ==> (!r.value.0.NaN? ==> AtLeast(r.value.0, 0.0)) && (!r.value.1.NaN? ==> AtMost(r.value.1, 1.0))
  {
    if BettingCs(k, x, positive, negative, alpha, breaks, runningIntersection, st).Success? {
      var mart := CsMart(k, x, positive, negative, alpha, st);
      BettingCsIsGridMethod(k, x, positive, negative, alpha, breaks, runningIntersection, st);
      CsFromMartingaleInUnit(x, mart, breaks, alpha, st.population, runningIntersection, j);
      BettingCiIsLast(k, x, positive, negative, alpha, breaks, runningIntersection, st, j);
    }
  }

  /** A successful `betting_cs` is the grid method applied to `CsMart`. */
  lemma BettingCsIsGridMethod(k: Calculus, x: seq<real>, positive: Option<seq<BetFn>>, negative: Option<seq<BetFn>>,
                              alpha: real, breaks: nat, runningIntersection: bool, st: Settings)
    requires k.Lawful() && 0.0 < alpha && 0 < breaks && Admissible(st, x)
    requires positive.Some? ==> BetsFit(positive.value, |x|)
    requires negative.Some? ==> BetsFit(negative.value, |x|)
    ensures BettingCs(k, x, positive, negative, alpha, breaks, runningIntersection, st).Success? ==>
      BettingCs(k, x, positive, negative, alpha, breaks, runningIntersection, st) ==
        CsFromMartingale(x, CsMart(k, x, positive, negative, alpha, st), breaks, alpha, st.population, runningIntersection)
  {
  }

  /** Under the hypotheses of `BettingCsSucceeds`, `betting_ci` on a nonempty sample succeeds, for
      any population size and running intersection. */
  lemma BettingCiSucceeds(k: Calculus, x: seq<real>, positive: Option<seq<BetFn>>, negative: Option<seq<BetFn>>,
                          alpha: real, breaks: nat, runningIntersection: bool, st: Settings)
    requires k.Lawful() && 0.0 < alpha && 0 < breaks && Admissible(st, x)
    requires positive.Some? ==> BetsFit(positive.value, |x|) && 0 < |positive.value|
    requires negative.Some? ==> BetsFit(negative.value, |x|)
    requires |Strategies(k, x, positive, negative, alpha).0| == |Strategies(k, x, positive, negative, alpha).1|
    requires UnitInterval(x) && st.truncScale <= 1.0 && 0.0 <= st.theta <= 1.0
    requires 0 < |x|
    ensures BettingCi(k, x, positive, negative, alpha, breaks, runningIntersection, st).Success?
    ensures forall m :: CsMartAt(k, x, positive, negative, alpha, st, m).Success?
  {
    BettingCsSucceeds(k, x, positive, negative, alpha, breaks, runningIntersection, st);
  }

  /** Under the hypotheses of `BettingCsSucceeds` and without population size or running
      intersection, the interval of `betting_ci` on a nonempty sample contains every grid point
      whose diversified martingale stays at most `1/alpha` at the last time `j`. */
  lemma BettingCiCovers(k: Calculus, x: seq<real>, positive: Option<seq<BetFn>>, negative: Option<seq<BetFn>>,
                        alpha: real, breaks: nat, st: Settings, i: nat, j: nat)
    requires k.Lawful() && 0.0 < alpha && 0 < breaks && Admissible(st, x)
    requires positive.Some? ==> BetsFit(positive.value, |x|) && 0 < |positive.value|
    requires negative.Some? ==> BetsFit(negative.value, |x|)
    requires |Strategies(k, x, positive, negative, alpha).0| == |Strategies(k, x, positive, negative, alpha).1|
    requires UnitInterval(x) && st.truncScale <= 1.0 && 0.0 <= st.theta <= 1.0 && st.population.None?
    requires j + 1 == |x| && i <= breaks
    ensures BettingCi(k, x, positive, negative, alpha, breaks, false, st).Success?
    ensures CsMartAt(k, x, positive, negative, alpha, st, Grid(breaks)[i]).Success?
    ensures Kept(CsMartAt(k, x, positive, negative, alpha, st, Grid(breaks)[i]).value[j], alpha) ==>
      Le(BettingCi(k, x, positive, negative, alpha, breaks, false, st).value.0, Num(Grid(breaks)[i])) &&
      Le(Num(Grid(breaks)[i]), BettingCi(k, x, positive, negative, alpha, breaks, false, st).value.1)
  {
    BettingCsCovers(k, x, positive, negative, alpha, breaks, st, i, j);
    BettingCiIsLast(k, x, positive, negative, alpha, breaks, false, st, j);
  }

  /** `betting_ci` on a nonempty sample is the interval `betting_cs` gives at the last time `j`. */
  lemma BettingCiIsLast(k: Calculus, x: seq<real>, positive: Option<seq<BetFn>>, negative: Option<seq<BetFn>>,
                        alpha: real, breaks: nat, runningIntersection: bool, st: Settings, j: nat)
    requires k.Lawful() && 0.0 < alpha && 0 < breaks && Admissible(st, x)
    requires positive.Some? ==> BetsFit(positive.value, |x|)
    requires negative.Some? ==> BetsFit(negative.value, |x|)
    requires j + 1 == |x| && BettingCs(k, x, positive, negative, alpha, breaks, runningIntersection, st).Success?
    ensures BettingCi(k, x, positive, negative, alpha, breaks, runningIntersection, st) ==
      Success((BettingCs(k, x, positive, negative, alpha, breaks, runningIntersection, st).value.lower[j],
               BettingCs(k, x, positive, negative, alpha, breaks, runningIntersection, st).value.upper[j]))
  {
  }

  /** The settings `betting_ci` defaults to: no convex combination, `theta = 1/2`, truncation scale 1
      and no truncation by `m`. */
  function CiDefaults(population: Option<nat>): (st: Settings)
    ensures st.population == population && 0.0 < st.truncScale <= 1.0 && 0.0 <= st.theta <= 1.0
  {
    Settings(population, false, 0.5, 1.0, false)
  }
}
