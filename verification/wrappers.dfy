/** Option and Result, the failure-carrying values used throughout the model. */
module Wrappers {

  datatype Option<+T> = None | Some(value: T) {
    function GetOr(default: T): T {
      match this
      case Some(v) => v
      case None => default
    }
  }

  /** A JavaScript `throw` is modelled as a `Failure` carrying the error. */
  datatype Result<+R, +E> = Success(value: R) | Failure(error: E)
}
