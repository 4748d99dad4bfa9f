/** Option and Result: the outcome types every handler of the model returns. */
module Wrappers {

  /** A value that may be missing. */
  datatype Option<+T> = None | Some(value: T) {

    /** The carried value, or `default` when there is none. */
    function GetOr(default: T): T {
      match this
      case Some(v) => v
      case None => default
    }
  }

  /** Either a successful value or an error. A failed handler returns no
      new store, so the caller's store is left as it was. */
  datatype Result<+R, +E> = Ok(value: R) | Err(error: E)
}
