/** Failure-carrying values shared by every module: a nullable value, a value or
    an error, and a check that either passes or names its error. */
module Wrappers {

  /** A value that may be absent (Java `null`, JavaScript `null`/`undefined`). */
  datatype Option<+T> = None | Some(value: T) {
    function GetOr(default: T): T {
      match this
      case Some(v) => v
      case None => default
    }
  }

  /** The outcome of an operation that either produces a value or throws. */
  datatype Result<+R, +E> = Ok(value: R) | Err(error: E)

  /** The outcome of a guard that either passes or rejects with an error. */
  datatype Check<+E> = Pass | Fail(error: E)
}
