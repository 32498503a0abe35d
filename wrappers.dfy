/** Failure-carrying values shared by every module of the model. */
module Wrappers {

  /** A value that may be absent: a JavaScript `undefined`/`null`, a Python `None`,
      a missing dictionary key. */
  datatype Option<+T> = None | Some(value: T) {
    function GetOr(default: T): T {
      match this
      case Some(v) => v
      case None => default
    }
  }

  /** The outcome of an operation that can be rejected with an error value. */
  datatype Result<+R, +E> = Success(value: R) | Failure(error: E)
}
