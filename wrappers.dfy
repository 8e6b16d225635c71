/** The optional value and the value-or-error types used by the rest of the model. */
module Wrappers {

  /** A value that may be absent; Go's `nil` error is `None`. */
  datatype Option<+T> = None | Some(value: T)

  /** Either a computed value or the reason it could not be computed. */
  datatype Result<+T, +E> = Success(value: T) | Failure(error: E)
}
