/** Option and Result, used for the null returns and the thrown exceptions of the modelled code. */
module Wrappers {

  /** `None` stands for JavaScript's `null` (or `undefined`) where a value is expected. */
  datatype Option<+T> = None | Some(value: T) {

    /** The value, or `default` when there is none (JavaScript's `??`). */
    function GetOr(default: T): T {
      match this
      case Some(v) => v
      case None => default
    }
  }

  /** A call that returns `value` or throws `error`. */
  datatype Result<+T, +E> = Success(value: T) | Failure(error: E)
}
