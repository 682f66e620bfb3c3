/** Optional values and success/failure results, the two shapes the repository's
    Swift code expresses with `T?` and `Result<T, Error>`. */
module Wrappers {

  /** A value that may be absent (Swift's `nil`). */
  datatype Option<+T> = None | Some(value: T) {

    /** The wrapped value, or `default` when absent (Swift's `??`). */
    function GetOr(default: T): T {
      match this
      case Some(v) => v
      case None => default
    }
  }

  /** The outcome of an operation that either yields a value or fails with an error. */
  datatype Result<+R, +E> = Success(value: R) | Failure(error: E)
}
