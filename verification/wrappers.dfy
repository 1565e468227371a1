/** Optional values and error results, standing for JavaScript's `undefined`
    and for exceptions thrown by the modelled code. */
module Wrappers {

  /** `None` stands for `undefined` (or `null`): an absent value. */
  datatype Option<+T> = None | Some(value: T) {

    /** JavaScript's nullish coalescing `this ?? default`. */
    function GetOr(default: T): T {
      match this
      case Some(v) => v
      case None => default
    }

    /** `this ?? other` where `other` may itself be absent. */
    function OrElse(other: Option<T>): Option<T> {
      match this
      case Some(_) => this
      case None => other
    }
  }

  /** The value a computation returns, or the error it throws. */
  datatype Result<+T, +E> = Ok(value: T) | Err(error: E)
}
