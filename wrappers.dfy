/** Option values for nullable results, and outcomes for computations that may throw. */
module Wrappers {

  datatype Option<+T> = None | Some(value: T) {

    /** The value, or `default` when absent (Kotlin's `?:`). */
    function GetOr(default: T): T {
      match this
      case Some(v) => v
      case None => default
    }
  }

  /**
   * The result of a computation that returns normally (`Ok`) or throws. A thrown exception keeps
   * its message, which is `None` for exceptions that carry none (a failed `!!`).
   */
  datatype Outcome<+T> = Ok(value: T) | Throw(message: Option<string>)
}
