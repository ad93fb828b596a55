/** Option and Result: the model's stand-ins for `T | null` and for thrown errors. */
module Wrappers {

  /** `None` plays the part of JavaScript's `null` / `undefined` return. */
  datatype Option<+T> = None | Some(value: T) {

    /** The value, or `default` when there is none (JavaScript's `x ?? default`). */
    function GetOr(default: T): T {
      match this
      case Some(v) => v
      case None => default
    }
  }

  /** A value or the error a controller would have thrown. */
  datatype Result<+T, +E> = Ok(value: T) | Err(error: E)
}
