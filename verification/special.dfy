/**
 The Boost special functions the boundaries depend on (normal CDF, `pow`,
 log-gamma, regularised incomplete gamma and beta, Riemann zeta) have no
 algebra the model can state, so each enters as an uninterpreted function.
 Where a mixture's log-supermartingale or constant is a composition of those
 functions only, the composition itself is the uninterpreted function, keyed
 by the mixture's stored parameters.
 */
module Special {

  datatype Special = Special(
    /** the standard normal CDF */
    normalCdf: real -> real,
    /** `pow(x, y)` */
    pow: (real, real) -> real,
    /** the stitching constant `log(zeta(s) / pow(log(eta), s))`, as a function of `(s, eta)` */
    stitchingConstant: (real, real) -> real,
    /** `GammaExponentialMixture::get_leading_constant(rho, c)` */
    gammaExponentialLeading: (real, real) -> real,
    /** `GammaPoissonMixture::get_leading_constant(rho, c)` */
    gammaPoissonLeading: (real, real) -> real,
    /** `GammaExponentialMixture::log_superMG`, as a function of `(rho, c, leading_constant, s, v)` */
    gammaExponentialLogSuperMG: (real, real, real, real, real) -> real,
    /** `GammaPoissonMixture::log_superMG`, as a function of `(rho, c, leading_constant, s, v)` */
    gammaPoissonLogSuperMG: (real, real, real, real, real) -> real,
    /** `BetaBinomialMixture::log_superMG`, as a function of `(r, g, h, is_one_sided, s, v)` */
    betaBinomialLogSuperMG: (real, real, real, bool, real, real) -> real
  )
}
