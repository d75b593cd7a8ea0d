/** Small failure-compatible wrappers shared by every module of the model. */
module Wrappers {

  /** An optional value: stands for the source's `undefined`/`null` slots. */
  datatype Option<+T> = None | Some(value: T) {
    function GetOr(default: T): T {
      match this
      case Some(v) => v
      case None => default
    }
  }

  /** A value or an error, for operations whose source raises an exception. */
  datatype Result<+R, +E> = Ok(value: R) | Err(error: E)
}
