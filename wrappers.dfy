/** Option and Result, the two failure-carrying datatypes the rest of the model uses. */
module Wrappers {

  /** `undefined`/`null` versus a present value. */
  datatype Option<+T> = None | Some(value: T) {

    /** The value, or `default` when there is none (TypeScript's `x ?? default` / default parameters). */
    function GetOr(default: T): T {
      match this
      case Some(v) => v
      case None => default
    }
  }

  /** A resolved promise (`Ok`) or a thrown error (`Err`). */
  datatype Result<+T, +E> = Ok(value: T) | Err(error: E)
}
