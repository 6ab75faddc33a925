/** Option and Result, the failure-carrying values used throughout the model. */
module Wrappers {

  datatype Option<+T> = None | Some(value: T) {
    function GetOr(default: T): T {
      match this
      case Some(v) => v
      case None => default
    }
  }

  /** A thrown JavaScript `Error` becomes `Failure(message)`; a resolved value becomes `Success`. */
  datatype Result<+R, +E> = Success(value: R) | Failure(error: E)
}
