/** Optional values and results with an error, as the rest of the model uses them. */
module Wrappers {

  /** A value that JavaScript would hold as `undefined` when absent. */
  datatype Option<+T> = None | Some(value: T) {

    /** The value, or `default` when absent (JavaScript's `x = default` destructuring). */
    function GetOr(default: T): T {
      match this
      case Some(v) => v
      case None => default
    }
  }

  /** The outcome of a database statement: the rows it returns, or the error it raises. */
  datatype Result<+R, +E> = Success(value: R) | Failure(error: E)
}
