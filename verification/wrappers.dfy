/** Failure-compatible wrappers shared by the other modules. */
module Wrappers {

  /** A value that may be missing, as Python's `None`-or-object returns. */
  datatype Option<+T> = None | Some(value: T)

  /** The outcome of a call that either returns a value or raises an error. */
  datatype Result<+R, +E> = Success(value: R) | Failure(error: E)
}
