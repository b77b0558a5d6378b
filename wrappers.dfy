/** Option and Result, the shapes used for JavaScript's `undefined`/`null` and for thrown errors. */
module Wrappers {

  /** `None` stands for a JavaScript value that is `undefined` or `null`. */
  datatype Option<+T> = None | Some(value: T) {
    function GetOr(default: T): T {
      match this
      case Some(v) => v
      case None => default
    }
  }

  /** `Err` stands for an exception that reaches the caller. */
  datatype Result<+T, +E> = Ok(value: T) | Err(error: E)
}
