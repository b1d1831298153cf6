/** Option and Result, the two failure-carrying wrappers the rest of the model uses. */
module Wrappers {

  /** An optional value: Go's "value, ok" pairs and nil pointers. */
  datatype Option<+T> = None | Some(value: T)

  /** A value or an error: Go's "(value, error)" return pairs. */
  datatype Result<+T, +E> = Success(value: T) | Failure(error: E)
}
