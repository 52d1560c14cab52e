/** Option and Result, used for JavaScript's null/undefined and for rejected promises. */
module Wrappers {

  /** `None` stands for a missing value (`null` or `undefined`). */
  datatype Option<+T> = None | Some(value: T) {
    function GetOr(default: T): T {
      match this
      case Some(v) => v
      case None => default
    }
  }

  datatype Result<+R, +E> = Ok(value: R) | Err(error: E)
}
