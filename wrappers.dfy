/** Option and Result, the shapes used for JavaScript's `undefined`/`null` and for thrown errors. */
module Wrappers {

  /** A value that may be absent (`undefined` or `null` in the source). */
  datatype Option<+T> = None | Some(value: T) {
    function GetOr(default: T): T {
      match this
      case Some(v) => v
      case None => default
    }
  }

  /** The outcome of an operation that may throw. */
  datatype Result<+R> = Success(value: R) | Failure(error: string)
}
