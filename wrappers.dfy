/** The optional and two-way result types shared by the samplers. */
module Wrappers {

  /** A value that may be missing, such as the optional gradient. */
  datatype Option<+T> = None | Some(value: T)

  /** A sampler run either returns its chain or reports the error that ended it. */
  datatype Result<+T, +E> = Success(value: T) | Failure(error: E)
}
