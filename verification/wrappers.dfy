/** Failure-carrying datatypes used in place of null pointers and C++ exceptions. */
module Wrappers {

  /** A value that may be absent (a null pointer, a missing map entry). */
  datatype Option<+T> = None | Some(value: T) {

    /** The carried value, or `default` when absent. */
    function GetOr(default: T): T {
      match this
      case Some(v) => v
      case None => default
    }
  }

  /** Either a successful value or the exception the source would throw. */
  datatype Result<+R, +E> = Success(value: R) | Failure(error: E) {

    /** The carried value, or `default` on failure. */
    function GetOr(default: R): R {
      match this
      case Success(v) => v
      case Failure(_) => default
    }
  }
}
