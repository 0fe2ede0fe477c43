# confseq core in Dafny

A model of the core of `confseq`, a library of confidence sequences for bounded and sub-Gaussian
means. It has three parts.

- **Uniform boundaries** (`uniform_boundaries.h`). Five mixture supermartingales are calibrated by
  `best_rho`: two-sided normal, one-sided normal, gamma-exponential, gamma-Poisson and
  beta-binomial. They are inverted into boundaries, either in closed form (two-sided normal) or
  by the generic doubling search plus bisection. The polynomial stitching bound is modelled too.
  The model proves:
  - the two-sided closed form is the exact inverse of its log-supermartingale;
  - the closed form agrees with the generic inversion to within the final bracket;
  - the doubling search and bisection return a genuine bracket;
  - the stitching bound solves its quadratic and is monotone in `v` and in `alpha`;
  - the two-sided boundary at `alpha` is where the mixture reaches `1/alpha`.
- **Betting confidence sequences** (`betting.py`). This covers:
  - `betting_mart`, with its null means with and without replacement, truncation, clamping, the
    two capital processes and their theta-combination;
  - `diversified_betting_mart`;
  - the grid method `cs_from_martingale`, with widening by `1/breaks`, the logical interval of a
    finite population and the running intersection;
  - `betting_cs` and `betting_ci`.

  The model proves:
  - the capital process is nonnegative on data in `[0, 1]`, so the assertion never fires;
  - once the null mean leaves `(0, 1)` it never comes back;
  - every kept grid point is covered by the interval;
  - the logical interval always contains the population mean;
  - every lower bound that is not NaN is at least 0 and every such upper bound at most 1;
  - the diversified martingale is the weighted sum of its components.
- **Predictable mixtures** (`predmix.py`). This covers `lambda_predmix_eb`,
  `predmix_empbern_cs` and `predmix_hoeffding_cs`. The model proves:
  - the regularised means and variances satisfy their defining sums;
  - the bets are nonnegative square roots of `2 log(1/alpha) / divisor`, truncated and scaled;
  - the margins are positive;
  - the raw intervals strictly bracket the weighted mean, which lies in `[0, 1]` for data there;
  - the lower bounds of both confidence sequences are at least 0, the upper bounds at most 1, and
    they nest under the running intersection.

Floating point is modelled as real arithmetic extended with `NaN`, `+inf` and `-inf` (module
`Floats`). `np.maximum`/`np.minimum` propagate NaN there, and comparisons with NaN are false.
`log` and `sqrt` are fields of a `Calculus` record whose `Lawful()` predicate states the laws the
proofs use:
- `log` is strictly increasing;
- `log(1) = 0` and `log(1/x) = -log(x)`;
- `log(x) <= x - 1`;
- `sqrt` is the nonnegative square root.

The Boost special functions are fields of a `Special` record and stay uninterpreted. These are
the normal CDF, `pow`, `zeta` and the log incomplete beta, and the log-supermartingales of the
gamma and beta-binomial families built from them.

`best_rho` strictly *increases* with `alpha` at fixed `v`, because its denominator
`2 log(1/alpha) + log(1 + 2 log(1/alpha))` decreases in `alpha` (`Mixtures.BestRhoIncreasing`).

## Model

| member | source | states |
|---|---|---|
| Mixtures.BestRho | src/confseq/uniform_boundaries.h:257-261 | the calibrated scale is strictly positive for `v > 0` and `alpha` in `(0, 1)` |
| Mixtures.BestRhoIncreasing | src/confseq/uniform_boundaries.h:257-261 | `best_rho(v, alpha)` is strictly increasing in `alpha` at fixed `v` |
| Mixtures.OneSidedBestRho | src/confseq/uniform_boundaries.h:270-272 | the one-sided scale at `alpha` equals the two-sided scale at `2 alpha`; it is positive and strictly larger than the two-sided scale at `alpha` |
| Mixtures.LogThresholdPositive | src/confseq/uniform_boundaries.h:207-209 | the log-threshold `log(1/alpha)` is positive for `alpha` in `(0, 1)` |
| Mixtures.Calibrate | src/confseq/uniform_boundaries.h:257-261 | calibration succeeds exactly when `v_opt > 0` and `alpha` is in range (below 1/2 when one-sided); a failure names the violated assertion; success gives a positive scale |
| Mixtures.MakeTwoSidedNormal | src/confseq/uniform_boundaries.h:74-77 | construction succeeds iff `v_opt > 0` and `0 < alpha_opt < 1`; the result is a valid two-sided mixture |
| Mixtures.MakeOneSidedNormal | src/confseq/uniform_boundaries.h:92-95 | construction succeeds iff `v_opt > 0` and `0 < alpha_opt < 1/2`; the result is a valid one-sided mixture |
| Mixtures.MakeGammaExponential | src/confseq/uniform_boundaries.h:112-114 | one-sided calibration, `c` stored unchecked, leading constant computed from `(rho, c)` |
| Mixtures.MakeGammaPoisson | src/confseq/uniform_boundaries.h:134-136 | one-sided calibration, `c` stored unchecked, leading constant computed from `(rho, c)` |
| Mixtures.MakeBetaBinomial | src/confseq/uniform_boundaries.h:157-166 | succeeds iff calibration succeeds and `g > 0`, `h > 0`, `r = best_rho - g h > 0`; stores `g`, `h`, sidedness; `r + g h` is the calibrated scale |
| Mixtures.SUpperBound | src/confseq/uniform_boundaries.h:338-340 | the ceiling is finite exactly for the beta-binomial family, where `ceiling * g == v` |
| Mixtures.TwoSidedBound | src/confseq/uniform_boundaries.h:252-255 | the closed form is NaN exactly when the radicand `(v + rho)(log(1 + v/rho) + 2 t)` is negative; otherwise it is the nonnegative number whose square is the radicand |
| Mixtures.InvertedBound | src/confseq/uniform_boundaries.h:231-245 | the generic bound succeeds iff the inversion does, lies between 0 and the search ceiling, and for the beta-binomial family stays at most the ceiling `v / g` |
| Mixtures.Bound | src/confseq/uniform_boundaries.h:231-255 | the two-sided family uses the closed form, every other family the generic inversion; a result is nonnegative, and at most `v / g` for the beta-binomial family |
| Mixtures.WrapRoot | src/confseq/uniform_boundaries.h:231-245 | for any profile, the wrapped inversion succeeds iff the root finder does and with its value, passes on its error, and stays within `[0, ceiling]` |
| Mixtures.Boundary | src/confseq/uniform_boundaries.h:207-209 | the boundary at `alpha` is nonnegative, at most `v / g` for the beta-binomial family, and for the two-sided normal mixture and `alpha` in `(0, 1)` it exists and its log-supermartingale equals `log(1/alpha)` exactly |
| Mixtures.TwoSidedSymmetric | src/confseq/uniform_boundaries.h:247-250 | the two-sided log-supermartingale is symmetric in `s` |
| Mixtures.TwoSidedIncreasing | src/confseq/uniform_boundaries.h:247-250 | it is strictly increasing in `s >= 0` |
| Mixtures.TwoSidedNondecreasing | src/confseq/uniform_boundaries.h:247-250 | the profile handed to the inversion is nondecreasing on `s >= 0`, the hypothesis the inversion needs |
| Mixtures.TwoSidedRoundTrip | src/confseq/uniform_boundaries.h:247-255 | for `t >= 0` the closed-form bound exists and `log_superMG(bound(v, t), v) == t` |
| Mixtures.TwoSidedInversionAgrees | src/confseq/uniform_boundaries.h:231-255 | the exact bound lies in the generic inversion's final bracket, so the two differ by at most half the bracket width |
| Mixtures.TwoSidedInversionSucceeds | src/confseq/uniform_boundaries.h:219-245 | once the doubling search finds a trial above the threshold, the generic inversion of the two-sided mixture does not fail |
| Mixtures.TrialAtLeastStart | src/confseq/uniform_boundaries.h:221-226 | every doubling trial from `v >= 0` is at least `v` |
| Inversion.TrialIsScaledPower | src/confseq/uniform_boundaries.h:221-226 | the `j`-th trial of the doubling search is `v * 2^j` |
| Inversion.DoublingSearch | src/confseq/uniform_boundaries.h:221-228 | the loop stops at the first trial whose value exceeds the threshold, all earlier trials are at or below it, and it counts its evaluations |
| Inversion.FindSUpperBound | src/confseq/uniform_boundaries.h:219-229 | at most 50 doublings; the returned ceiling exceeds the threshold unless the search ran out; every earlier trial did not |
| Inversion.SearchExhausted | src/confseq/uniform_boundaries.h:228 | when no trial exceeds the threshold, the ceiling returned is `v * 2^50` |
| Inversion.SignTest | src/confseq/uniform_boundaries.h:241-243 | the sign-product test of the bisection is exactly "strictly opposite signs" |
| Inversion.Halve | src/confseq/uniform_boundaries.h:241-243 | each halving loop keeps a bracket of the root inside `[a, b]` whose width is at most `(b - a) / 2^n` |
| Inversion.Bisect | src/confseq/uniform_boundaries.h:241-243 | bisection fails iff no endpoint is a root and the ends are out of order or show no sign change (the error says which); otherwise it returns a bracket inside `[lo, hi]` of width at most `(hi - lo) / 2^n` |
| Inversion.SearchCeiling | src/confseq/uniform_boundaries.h:236-239 | a finite ceiling is used unchanged, an infinite one is replaced by the doubling search; the result is nonnegative |
| Inversion.FindMixtureBracket | src/confseq/uniform_boundaries.h:236-243 | the bracket lies in `[0, ceiling]`, is a root or a sign change of `log_superMG - threshold`, and exists iff the bisection's preconditions hold |
| Inversion.FindMixtureBound | src/confseq/uniform_boundaries.h:231-245 | the bound is the midpoint of the bracket, lies in `[0, ceiling]`, and fails iff the bracket fails |
| Inversion.InversionRoundTrip | src/confseq/uniform_boundaries.h:231-245 | for a nondecreasing `log_superMG` the threshold and the value at the midpoint both lie between the values at the bracket ends |
| Stitching.MakePolyStitching | src/confseq/uniform_boundaries.h:183-189 | construction succeeds iff `v_min > 0`; it stores its parameters, with `k1 sqrt(2) = eta^(1/4) + eta^(-1/4)`, `k2 >= 1/2` for `eta >= 0`, and the zeta constant |
| Stitching.UseV | src/confseq/uniform_boundaries.h:343 | `use_v` is at least `v` and at least `v_min`, and equals one of them |
| Stitching.StitchingBound | src/confseq/uniform_boundaries.h:342-347 | the bound is NaN iff `eta use_v / v_min <= 1` (the iterated logarithm is undefined) or the radicand is negative, a number otherwise, and then at least `term2` |
| Stitching.StitchingDefinedForLargeEta | src/confseq/uniform_boundaries.h:343-346 | for `eta > 1` the bound is a number exactly when the radicand is nonnegative |
| Stitching.StitchingSolvesQuadratic | src/confseq/uniform_boundaries.h:342-347 | a numeric bound `b` solves `(b - term2)^2 = k1^2 use_v ell + term2^2` |
| Stitching.QuadraticRootMonotone | src/confseq/uniform_boundaries.h:346 | the root grows with `a >= 0` and, for `t >= 0`, with `t` |
| Stitching.StitchingClampsBelow | src/confseq/uniform_boundaries.h:343 | every `v <= v_min` gives the bound at `v_min` |
| Stitching.StitchingMonotoneInAlpha | src/confseq/uniform_boundaries.h:344-346 | where the iterated logarithm is undefined both bounds are NaN; elsewhere both are numbers and a smaller `alpha` never gives a smaller bound (with `c, k2 >= 0` and `ell >= 0`) |
| Stitching.StitchingMonotoneInV | src/confseq/uniform_boundaries.h:343-346 | a larger `v` never gives a smaller bound (with `eta > 1`, `s, c, k2 >= 0`, `ell >= 0`) |
| Stitching.EllGrowsWithV | src/confseq/uniform_boundaries.h:344 | `ell` is nondecreasing in `use_v` when `eta > 1` and `s >= 0` |
| Stitching.GrowsWith | src/confseq/uniform_boundaries.h:345-346 | the closed form grows with `use_v` and with `ell >= 0` |
| Betting.WithoutReplacementMeans | src/confseq/betting.py:495-501 | `N m = S_{t-1} + (N - t + 1) mu_t` at every time, and `mu_1 = m` |
| Betting.RemainingMean | src/confseq/betting.py:495-501 | the null mean after `t` draws is the mean of the `N - t` values not yet seen: `N m` is the sum of the first `t` values plus `(N - t)` times it |
| Betting.NullMeans | src/confseq/betting.py:87-93 | without population size every null mean is `m`; with one they are the without-replacement means |
| Betting.TruncationLimit | src/confseq/betting.py:102-110 | `scale / d`, with an infinite quotient replaced by 1000 |
| Betting.Truncations | src/confseq/betting.py:98-113 | with `m_trunc` the truncations satisfy `upper * mu = scale` and `lower * (1 - mu) = scale`, without it both equal `scale`; both are positive for `mu` in `(0, 1)` |
| Betting.Clamp | src/confseq/betting.py:115-120 | the clamp is at most `hi`, at least `lo` when `lo <= hi`, leaves values in range unchanged and returns one of `b`, `lo`, `hi` |
| Betting.PositiveBet | src/confseq/betting.py:116-117 | a positive bet lies in `[-lower_trunc, upper_trunc]` |
| Betting.NegativeBet | src/confseq/betting.py:119-120 | a negative bet lies in `[-upper_trunc, lower_trunc]` |
| Betting.Combine | src/confseq/betting.py:125-138 | theta 1 gives the positive capital, theta 0 the negative; otherwise `theta pos + (1 - theta) neg` with `convex_comb`, and without it the larger of the weighted capitals |
| Betting.CombineConvexBetween | src/confseq/betting.py:129-133 | with theta in `[0, 1]` the convex combination lies between the positive and the negative capital |
| Betting.CombineNonnegative | src/confseq/betting.py:125-138 | with theta in `[0, 1]`, nonnegative capitals combine to nonnegative capital |
| Betting.CapitalProcess | src/confseq/betting.py:122-141 | entry `t` is `+inf` iff `mu_t` is outside `(0, 1)`, and otherwise the theta-combination of the cumulative products of the positive and the negative factors at `t` |
| Betting.CheckNonnegative | src/confseq/betting.py:142-143 | the check passes iff every entry is at least 0 (`-inf` fails), and passes the capital on unchanged |
| Betting.BettingMart | src/confseq/betting.py:13-151 | succeeds exactly when every capital entry is nonnegative, then returns the capital process; else fails with the assertion |
| Betting.LossBounded | src/confseq/betting.py:115-123 | a clamped bet against a bounded deviation loses at most `s` |
| Betting.PositiveFactorFloor | src/confseq/betting.py:116-122 | every positive factor is at least `1 - trunc_scale` for data in `[0, 1]` and `mu` in `(0, 1)` |
| Betting.NegativeFactorFloor | src/confseq/betting.py:119-123 | the same floor for every negative factor |
| Betting.NullMeanLeavesForGood | src/confseq/betting.py:87-93 | once the null mean leaves `(0, 1)` it stays out |
| Betting.CapitalNonnegativeAt | src/confseq/betting.py:122-141 | every capital entry is nonnegative or `+inf` on data in `[0, 1]`, `trunc_scale <= 1`, theta in `[0, 1]` |
| Betting.BettingMartSucceeds | src/confseq/betting.py:142-149 | under those hypotheses the nonnegativity assertion never fires |
| Betting.Diversified | src/confseq/betting.py:270-311 | no strategies and no weights fails; mismatched strategy lists fail; it succeeds iff there are enough weights and every component martingale succeeds, and then entry `t` is the weighted sum over strategies of the component capitals at `t`, weights defaulting to `1/K` |
| Betting.AccumulateSucceedsIff | src/confseq/betting.py:296-310 | from strategy `k` on, the loop succeeds iff there are enough weights and every remaining component succeeds |
| Betting.AccumulateIsMixed | src/confseq/betting.py:296-310 | started from the weighted sum of the first `k` components, the loop returns the weighted sum of all of them |
| Betting.AccumulateSucceeds | src/confseq/betting.py:296-310 | with positive weights the loop succeeds and keeps every entry nonnegative |
| Betting.DiversifiedSucceeds | src/confseq/betting.py:285-311 | with the default weights `1/K` the diversified martingale succeeds and is nonnegative |
| Betting.DiversifiedOfOne | src/confseq/betting.py:285-311 | one strategy with its default weight gives back the betting martingale itself |
| GridCs.Grid | src/confseq/betting.py:359 | the grid has `breaks + 1` points, point `i` being `i / breaks` |
| GridCs.GridShape | src/confseq/betting.py:359 | the grid starts at 0, ends at 1, is nondecreasing and lies in `[0, 1]` |
| GridCs.Evaluate | src/confseq/betting.py:368-371 | evaluation succeeds iff the martingale succeeds at every grid point, keeps each value, and a failure is the first failing point's |
| GridCs.First | src/confseq/betting.py:382 | the first kept index, `None` iff no entry is kept |
| GridCs.Last | src/confseq/betting.py:383 | the last kept index, `None` iff no entry is kept |
| GridCs.GridLower | src/confseq/betting.py:376-382 | NaN iff nothing is kept, otherwise a kept grid point that is at most every kept point |
| GridCs.GridUpper | src/confseq/betting.py:376-383 | NaN iff nothing is kept, otherwise a kept grid point that is at least every kept point |
| GridCs.GridBoundsOrdered | src/confseq/betting.py:376-383 | the lower bound read off a column never exceeds the upper one |
| GridCs.Widen | src/confseq/betting.py:384-385 | a numeric lower bound becomes `max(0, l - 1/breaks)` and a numeric upper bound `min(1, u + 1/breaks)`; NaN stays NaN; bounds in `[0, 1]` only move outward and stay in `[0, 1]` |
| GridCs.LogicalCs | src/confseq/betting.py:462-492 | the logical bounds are `S_t / N` and `1 - (t - S_t) / N` |
| GridCs.LogicalScaled | src/confseq/betting.py:489-490 | `lower * N == S_t` and `upper * N == N - t + S_t` |
| GridCs.Mean | src/confseq/betting.py:462-492 | the population mean times its size is its sum |
| GridCs.LogicalCovers | src/confseq/betting.py:484-492 | a mean whose total lies between the observed sum and the observed sum plus one per unseen value lies in the logical interval |
| GridCs.LogicalCsCovers | src/confseq/betting.py:462-492 | whatever the unseen values in `[0, 1]` are, the population mean lies in the logical interval at every time |
| GridCs.LogicalCsOrdered | src/confseq/betting.py:489-490 | the logical interval satisfies `0 <= lower <= upper <= 1` |
| GridCs.Intersect | src/confseq/betting.py:390-391 | the intersection keeps NaN, only tightens, and each bound equals one of the two |
| GridCs.Bounded | src/confseq/betting.py:384-391 | widened grid bounds, intersected with the logical interval when a population size is given |
| GridCs.CsFromGrid | src/confseq/betting.py:384-395 | the running intersection applied on request, one bound per time |
| GridCs.CsFromMartingale | src/confseq/betting.py:314-397 | succeeds iff every grid evaluation succeeds, a failure comes from some grid point, one bound per observation |
| GridCs.BoundedCovers | src/confseq/betting.py:373-385 | every grid point whose martingale stays at most `1/alpha` at time `j` lies within the widened bounds, whose lower bound is at least 0 and upper bound at most 1 |
| GridCs.RejectedEverywhere | src/confseq/betting.py:378-380 | a time at which every grid point is rejected gives NaN bounds after every intersection |
| GridCs.BoundedInUnit | src/confseq/betting.py:384-391 | for any population size a lower bound that is not NaN is at least 0 and an upper bound that is not NaN at most 1; without a population the interval is also ordered |
| GridCs.CsFromGridInUnit | src/confseq/betting.py:384-395 | the same bounds hold after the running intersection |
| GridCs.CsFromMartingaleInUnit | src/confseq/betting.py:314-397 | every successful `cs_from_martingale` has lower bounds at least 0 and upper bounds at most 1 wherever they are not NaN |
| GridCs.RunningIntersectionNests | src/confseq/betting.py:393-395 | with the running intersection and no NaN, lower bounds never decrease and upper bounds never increase |
| GridCs.CsFromMartingaleCovers | src/confseq/betting.py:314-397 | the returned sequence covers every kept grid point |
| GridCs.Strategies | src/confseq/betting.py:234-240 | missing strategies default to the single `lambda_predmix_eb(x, alpha)`; missing negative ones to the positive ones |
| GridCs.BettingCs | src/confseq/betting.py:234-267 | strategy lists of different lengths fail the assertion; a success has one bound per observation |
| GridCs.BettingCsSucceeds | src/confseq/betting.py:154-267 | on data in `[0, 1]` with truncation scale at most 1, theta in `[0, 1]` and matching nonempty strategy lists, the martingale succeeds at every candidate mean and `betting_cs` never fails |
| GridCs.BettingCsCovers | src/confseq/betting.py:154-267 | under those hypotheses, without population size or running intersection, every grid point whose martingale stays at most `1/alpha` at time `j` lies in the interval of time `j` |
| GridCs.BettingCi | src/confseq/betting.py:504-597 | a failure of `betting_cs` is passed on; an empty sample has no interval; otherwise the interval is the last one of `betting_cs` |
| GridCs.BettingCiSucceeds | src/confseq/betting.py:504-597 | under the hypotheses of `BettingCsSucceeds`, `betting_ci` on a nonempty sample succeeds |
| GridCs.BettingCiInUnit | src/confseq/betting.py:504-597 | a returned lower bound is NaN or at least 0, an upper bound NaN or at most 1, for any population size and running intersection |
| GridCs.BettingCiCovers | src/confseq/betting.py:504-597 | under those hypotheses and without population size or running intersection, the interval contains every grid point whose martingale stays at most `1/alpha` at the last time |
| GridCs.CiDefaults | src/confseq/betting.py:504-517 | the defaults of `betting_ci`: theta in `[0, 1]`, truncation scale in `(0, 1]` |
| Intervals.ClampBelow | src/confseq/predmix.py:117 | clamped lower bounds are at least 0, never below the input, unchanged when already at least 0, NaN exactly when the input is |
| Intervals.ClampAbove | src/confseq/predmix.py:118 | clamped upper bounds are at most 1, never above the input, unchanged when already at most 1, NaN exactly when the input is |
| Intervals.RunningMax | src/confseq/predmix.py:121 | entry `j` is the maximum of entry `j - 1` and the input at `j` |
| Intervals.RunningMin | src/confseq/predmix.py:122 | entry `j` is the minimum of entry `j - 1` and the input at `j` |
| Intervals.RunningMaxIsPrefixMaximum | src/confseq/predmix.py:121 | without NaN the running maximum bounds the prefix and is one of its entries |
| Intervals.RunningMinIsPrefixMinimum | src/confseq/predmix.py:122 | without NaN the running minimum is below the prefix and is one of its entries |
| Intervals.RunningMaxKeepsNaN | src/confseq/betting.py:394 | a NaN lower bound makes every later running maximum NaN |
| Intervals.RunningMaxAtLeast | src/confseq/betting.py:394 | when every non-NaN entry is at least `c`, so is every non-NaN running maximum |
| Intervals.RunningMinAtMost | src/confseq/betting.py:395 | when every non-NaN entry is at most `c`, so is every non-NaN running minimum |
| Intervals.ClampAndIntersectBounds | src/confseq/predmix.py:116-122 | without NaN every lower bound is at least 0, every upper bound at most 1, and they nest under the running intersection |
| Predmix.RegularisedMean | src/confseq/predmix.py:54 | `(t + fake_obs) mu_t = fake_obs prior_mean + S_t` |
| Predmix.RegularisedMeanInUnit | src/confseq/predmix.py:54 | with data and prior mean in `[0, 1]` every regularised mean is in `[0, 1]` |
| Predmix.RegularisedVariance | src/confseq/predmix.py:56-58 | `(t + fake_obs) sigma2_t = fake_obs prior_variance + sum of squared deviations`, and a positive prior variance keeps it positive |
| Predmix.PriorVariance | src/confseq/predmix.py:59 | the variance used at time `t` is positive, the prior variance at the first time and the regularised variance of time `t - 1` after it |
| Predmix.BetDivisor | src/confseq/predmix.py:60-63 | the divisor under the square root is positive |
| Predmix.SquaredBet | src/confseq/predmix.py:61-63 | the squared bet times the divisor is `2 log(1/alpha)` |
| Predmix.RawBet | src/confseq/predmix.py:61-63 | NaN iff the squared bet is negative, otherwise its nonnegative square root |
| Predmix.CleanedBet | src/confseq/predmix.py:65 | a NaN bet becomes 0, a number is kept; never negative |
| Predmix.Truncate | src/confseq/predmix.py:67 | the truncated bet is at most the truncation and is the truncation or the bet; no truncation or a bet below it leaves the bet |
| Predmix.ScaledBet | src/confseq/predmix.py:67-69 | with scale 1 it is the truncated bet; with a nonnegative scale it is at most `truncation * scale` and nonnegative; a positive bet, scale and truncation give a positive result |
| Predmix.BetBounds | src/confseq/predmix.py:60-69 | every bet of `lambda_predmix_eb` is the truncated cleaned bet when the scale is 1, at most `truncation * scale`, and nonnegative |
| Predmix.PredmixBets | src/confseq/predmix.py:5-69 | one bet per observation; the first uses the prior variance and bet `t` the regularised variance of time `t - 1`; with a nonnegative scale every bet is at most `truncation * scale`, and nonnegative for a nonnegative truncation |
| Predmix.BetIsRoot | src/confseq/predmix.py:61-65 | without truncation and scaling, and with `alpha <= 1`, a bet is the nonnegative square root of the squared bet |
| Predmix.BetPositive | src/confseq/predmix.py:60-69 | with `alpha < 1`, positive scale and positive or no truncation every bet is positive |
| Predmix.RunningMeans | src/confseq/predmix.py:104 | `(t + 1) mu_t = S_t` |
| Predmix.EmpBernBets | src/confseq/predmix.py:107-109 | one bet per observation, each at most the truncation, and positive for a positive truncation and `alpha < 2` |
| Predmix.WeightedMeans | src/confseq/predmix.py:114 | where the bets so far have a nonzero sum, entry `t` is the number that times that sum gives the weighted sum of the observations; where they sum to 0 it is NaN when the weighted sum is also 0 and an infinity otherwise |
| Predmix.WeightedMeanInUnit | src/confseq/predmix.py:114 | for data in `[0, 1]` and positive bets every weighted mean is a number in `[0, 1]` |
| Predmix.PsiTermNonnegative | src/confseq/predmix.py:111 | each psi term is nonnegative for `lambda < 1`, as `log(1 - lambda) <= -lambda` |
| Predmix.EmpBernPsiNonnegative | src/confseq/predmix.py:111 | every psi is nonnegative when every bet is below 1 |
| Predmix.MarginPositive | src/confseq/predmix.py:111-114 | for any bets in `(0, 1)` and `alpha` in `(0, 2)` the margin is a positive number and the weighted mean is a number |
| Predmix.EmpBernMarginPositive | src/confseq/predmix.py:111-114 | for `alpha` in `(0, 1)` and truncation in `(0, 1)` the margin is a positive number and the weighted mean is finite |
| Predmix.EmpBernBrackets | src/confseq/predmix.py:111-116 | for bets in `(0, 1)` and `alpha` in `(0, 2)` the raw interval at `t` is the weighted mean minus and plus a positive margin |
| Predmix.EmpBernFromBetsInUnit | src/confseq/predmix.py:111-122 | for any bets in `(0, 1)` the clamped lower bounds are at least 0, the upper bounds at most 1, and they nest under the running intersection |
| Predmix.EmpBernCsInUnit | src/confseq/predmix.py:72-124 | the empirical-Bernstein lower bounds are at least 0, the upper bounds at most 1, and they nest under the running intersection |
| Predmix.HoeffdingDefaultBet | src/confseq/predmix.py:162-164 | the default Hoeffding bet lies in `[0, 1]` and is positive for `alpha < 2` |
| Predmix.HoeffdingWeightedMean | src/confseq/predmix.py:173-174 | never NaN; `1/2` when no bet has been placed; otherwise the weighted mean times the bet sum is the weighted sum |
| Predmix.HoeffdingBets | src/confseq/predmix.py:162-166 | the given bets unchanged, or the default schedule within `[0, 1]` |
| Predmix.HoeffdingMarginPositive | src/confseq/predmix.py:170-171 | with positive bets and `alpha < 2` the Hoeffding margin is a positive number |
| Predmix.HoeffdingBrackets | src/confseq/predmix.py:170-176 | for positive bets and `alpha` in `(0, 2)` the raw Hoeffding interval at `t` is the weighted mean minus and plus a positive margin |
| Predmix.HoeffdingCsInUnit | src/confseq/predmix.py:127-184 | the Hoeffding lower bounds are at least 0, the upper bounds at most 1, and they nest under the running intersection |

## Left out

- The free functions `normal_log_mixture` … `poly_stitching_bound` of `uniform_boundaries.h`
  (lines 349-422) only construct a mixture and call it once. They are covered by the
  constructors and `Mixtures.Boundary`.
- Boost special functions: the normal CDF, `pow`, `zeta`, the log incomplete beta and the gamma
  functions. They are uninterpreted fields of `Special`, so nothing is proved about the one-sided,
  gamma and beta-binomial log-supermartingales beyond what the generic inversion guarantees.
- `log` and `sqrt` are not computed. They are functions constrained by the laws in
  `Calculus.Lawful`.
- Inversion.Bisect: Boost's `eps_tolerance(40)` stopping rule is replaced by a fixed number of
  halvings (`iterations`). The contracts bound the bracket width by `(hi - lo) / 2^iterations`
  instead of by 40 bits of relative precision.
- IEEE rounding, overflow and signed zero are not modelled. Arithmetic is exact on reals, plus
  NaN and the infinities where the code produces them from a division, a square root of a
  negative number, the null-mean substitution or the iterated logarithm of the stitching bound.
  NaN arising inside `log` itself or inside a Boost special function is not modelled.
- Stitching.MakePolyStitching: for `eta < 0` the code's `sqrt(eta)` makes `k2` NaN and `pow` of a
  negative base makes `k1` NaN. The model keeps `k1` and `k2` as reals, because `log` and `sqrt`
  are real-valued laws here. `k2 >= 1/2` is promised only for `eta >= 0`.
- Stitching.StitchingBound: the leading constant `A = log(zeta(s) / log(eta)^s)` comes from the
  uninterpreted `Special` record as a real. For `eta <= 1` the code's `A` is NaN or infinite, so
  the model's numeric bounds there are not promised by the code. The iterated logarithm itself
  is modelled: the bound is NaN whenever `eta use_v / v_min <= 1`.
- GridCs.Grid: `np.arange(0, 1 + 1/breaks, 1/breaks)` is modelled as exactly the `breaks + 1`
  points `i / breaks`. Floating-point rounding that may add or drop a last point is not modelled.
- The `parallel=True` branch of `cs_from_martingale` (betting.py:362-367) is not modelled. It
  computes the same acceptance matrix with a process pool.
- Logging (`info`), `warnings` and the plotting helpers are not modelled.
- The stubs `hedged_cs` and `dKelly_cs` are not modelled, nor the commented-out
  `betting_cs_hedged`. They compute nothing.
- Bet functions `lambdas_fn(x, m)` are modelled as `real -> seq<real>` with the data fixed.
  - A single function is passed as a one-element list. The `np.shape(...) == ()` wrapping
    (betting.py:237-240) is that conversion.
  - User-supplied weights for `diversified_betting_mart` are modelled, but `betting_cs` never
    passes any.
- Betting.BettingMart: the NaN assertion (betting.py:145-149) is not modelled as a separate
  failure. In exact arithmetic every factor is a finite real and the `+inf` entries come only from
  the null-mean substitution, so no NaN can arise.
- Predmix.HoeffdingCs: the unused `mu_hat_t` (predmix.py:168) is not modelled.
- Predmix.EmpBernCs requires a truncation below 1. At truncation 1 the bet can reach 1, where
  `log(1 - lambda)` is `-inf`, which the real-valued logarithm does not represent.
- Predmix.HoeffdingBets requires `alpha <= 2` for the default schedule. Above 2 the square root
  of a negative number yields NaN bets, which the default schedule does not carry.
- Betting.WithoutReplacementMeans requires the sample to be no larger than the population, where
  the divisor `N - (t - 1)` stays positive. A larger sample divides by zero or a negative number
  in the code.
- Betting.Diversified: when the weights are given but too short, the code raises `IndexError`
  inside the loop. The model reports `MissingWeight`. When the strategy lists differ in length,
  the model reports the assertion first, as the code does.
- Inversion.FindSUpperBound: the 50-doubling bound is kept. The `v * 2^50` fallback is returned
  as the code returns it, and the bisection then fails unless that ceiling brackets the root.
- GridCs.CsFromMartingaleCovers is stated without population size or running intersection. With
  them the bounds only tighten (`GridCs.Intersect`, `GridCs.RunningIntersectionNests`), and the
  coverage of the population mean by the logical interval is `GridCs.LogicalCsCovers`.
- GridCs.BettingCsCovers is stated without population size or running intersection, for the same
  reason.
- GridCs.BettingCiCovers is stated without population size or running intersection, for the same
  reason.
- GridCs.RunningIntersectionNests requires that no bound is NaN. A NaN bound propagates through
  `np.maximum.accumulate` (`Intervals.RunningMaxKeepsNaN`, `GridCs.RejectedEverywhere`).
- The two-sided symmetry of the beta-binomial boundary is not stated. It holds only for
  `g == h`, and the log-supermartingale is a composition of Boost functions.
