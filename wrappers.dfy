/** Failure-compatible wrappers shared by the other modules. */
module Wrappers {

  /** A value that may be missing: an empty spreadsheet cell, a failed service call. */
  datatype Option<+T> = None | Some(value: T)

  /** The outcome of a call that can raise. */
  datatype Result<+R, +E> = Success(value: R) | Failure(error: E)
}
