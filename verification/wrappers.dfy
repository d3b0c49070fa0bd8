/** Failure-carrying values used for the application's error paths. */
module Wrappers {

  /** A value that may be absent (a lookup that found nothing, an empty aggregate). */
  datatype Option<+T> = None | Some(value: T)

  /** A validated value or the reason it was refused. */
  datatype Result<+R, +E> = Success(value: R) | Failure(error: E)

  /** An operation that either went through or was refused for a reason. */
  datatype Outcome<+E> = Pass | Fail(error: E)
}
