/** Failure-carrying results used across the model. */
module Wrappers {

  datatype Option<+T> = None | Some(value: T)

  /** A JavaScript call that either returns a value or throws. */
  datatype Result<+T, +E> = Success(value: T) | Failure(error: E) {
    predicate IsFailure() {
      Failure?
    }
  }
}
