/** Failure-carrying datatypes shared by the rest of the model. */
module Wrappers {

  /** An optional value: `None` when the recogniser or search found nothing. */
  datatype Option<+T> = None | Some(value: T)

  /** The outcome of an operation that may fail with an error value (Go's `(value, err)` pair). */
  datatype Result<+R, +E> = Success(value: R) | Failure(error: E)
}
