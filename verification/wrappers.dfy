/** Failure-carrying datatypes shared by the other modules: an absent PHP
    value (`null`) is `None`, a thrown exception is `Failure`. */
module Wrappers {

  datatype Option<+T> = None | Some(value: T) {

    function GetOr(default: T): T {
      match this
      case Some(v) => v
      case None => default
    }
  }

  datatype Result<+R, +E> = Success(value: R) | Failure(error: E)
}
