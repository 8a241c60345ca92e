/** Failure values of the detector. Each stands for a point where the array code
    would raise an exception or go on with inf/nan values, which reals cannot hold. */
module Outcomes {

  datatype Error =
    | InsufficientData(length: nat)  // fewer than two observations: the matrix has no column 1
    | Degenerate(step: nat)          // the new column sums to zero before renormalisation
    | ZeroDivisor(step: nat)         // a hypothesis has kappa = -1, so kappa + 1 divides by zero
    | EmptyArray                     // the maximum of an empty column

  datatype Result<+T> = Ok(value: T) | Err(error: Error)
}
