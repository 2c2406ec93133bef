/** Failure-carrying datatypes shared by the wiki model. */
module Wrappers {

  /** A value that may be missing: a Go `nil` pointer or a regexp that did not match. */
  datatype Option<+T> = None | Some(value: T)

  /** Either a value or the error a Go function returned beside it. */
  datatype Result<+R, +E> = Success(value: R) | Failure(error: E)
}
