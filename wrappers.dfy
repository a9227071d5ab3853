/** Failure-compatible wrappers used by the remapping passes. */
module Wrappers {

  datatype Option<+T> = None | Some(value: T)

  /** A value or the error that the source raises instead of returning. */
  datatype Result<+T, +E> = Success(value: T) | Failure(error: E)
}
