/** States of the sampled space, densities over them, and the errors a run can end with. */
module States {

  /** One point of the sampled space: a fixed-length vector of reals. */
  type State = seq<real>

  /** An unnormalised target density. */
  type Density = State -> real

  /** Why a sampling run returns no samples. */
  datatype Error =
    | ZeroDensity      // a ratio divides by a zero density at the current state
    | IndexError       // Gibbs: more conditionals than coordinates
    | MissingGradient  // MALA without a configured gradient
    | ShapeMismatch    // MALA: a gradient whose dimension differs from the state's
    | DrawsExhausted   // a run asked for more supplied draws than there are
    | BadStepSize      // MALA with a step size that is not positive

  /** A draw of `np.random.rand`: a uniform value in [0, 1). */
  predicate IsUnit(u: real) {
    0.0 <= u < 1.0
  }

  predicate AllUnit(us: seq<real>) {
    forall k :: 0 <= k < |us| ==> IsUnit(us[k])
  }
}
