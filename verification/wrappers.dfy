/** Optional values and results, the Dafny counterparts of TypeScript's
    `T | undefined` and of a call that either returns or throws. */
module Wrappers {

  /** `None` plays the part of `undefined` / `null`. */
  datatype Option<+T> = None | Some(value: T) {

    /** The value, or `default` when absent: TypeScript's `x ?? default`. */
    function GetOr(default: T): T {
      match this
      case Some(v) => v
      case None => default
    }
  }

  /** The outcome of an operation that may throw: `Ok` returns, `Err` throws. */
  datatype Result<+R, +E> = Ok(value: R) | Err(error: E)

  /** A string is truthy in JavaScript iff it is present and non-empty. */
  predicate Truthy(s: Option<string>) {
    s.Some? && |s.value| > 0
  }
}
