/** Optional values and failure results shared by the rest of the model. */
module Wrappers {

  /** A value that may be absent (a TypeScript `undefined`). */
  datatype Option<+T> = None | Some(value: T) {
    function GetOr(default: T): T
    {
      match this
      case Some(v) => v
      case None => default
    }
  }

  /** The outcome of an operation that either succeeds or fails with an error. */
  datatype Outcome<+E> = Pass | Fail(error: E)
}
