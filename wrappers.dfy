/** Option and Result values shared by the model. */
module Wrappers {

  /** A value that may be absent. */
  datatype Option<+T> = None | Some(value: T)

  /** The `(value, error)` pair that a Go function returns. */
  datatype Result<+T, +E> = Success(value: T) | Failure(error: E) {
    /** The value when there is no error, otherwise `default`. */
    function GetOr(default: T): T {
      match this
      case Success(v) => v
      case Failure(_) => default
    }
  }
}
