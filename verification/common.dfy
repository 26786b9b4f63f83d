/** Failure-carrying datatypes shared by the modules of this model. */
module Common {

  /** A value that may be absent; Python's `None` where the source allows it. */
  datatype Option<+T> = None | Some(value: T) {
    function GetOr(default: T): T {
      match this
      case Some(v) => v
      case None => default
    }
  }

  /** The result of an operation that either returns a value or raises. */
  datatype Result<+T, +E> = Success(value: T) | Failure(error: E)

  /** The result of a check that returns nothing on success and raises otherwise. */
  datatype Outcome<+E> = Pass | Fail(error: E)

  /** The experiment tracker's validation error, carrying its message. */
  datatype ValidationError = ValidationError(message: string)
}
