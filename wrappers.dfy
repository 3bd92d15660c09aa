/** The two failure-carrying types the rest of the model uses. */
module Wrappers {

  /** A value that may be absent (JavaScript's `null`/`undefined`). */
  datatype Option<+T> = None | Some(value: T) {
    function GetOr(default: T): T {
      if Some? then value else default
    }
  }

  /** A computation that either succeeds or fails with an error (a settled promise). */
  datatype Result<+T, +E> = Ok(value: T) | Err(error: E)

  /** A computation without a value that either passes or fails (an awaited `Promise<void>`). */
  datatype Outcome<+E> = Pass | Fail(error: E)
}
