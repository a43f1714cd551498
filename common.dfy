/** Failure-compatible wrappers shared by the whole model. */
module Common {

  /** A value that may be absent: PHP's `null` is `None`. */
  datatype Option<+T> = None | Some(value: T) {

    /** PHP's null-coalescing `$x ?? default`. */
    function GetOr(default: T): T {
      match this
      case Some(v) => v
      case None => default
    }
  }

  /** The outcome of an operation that may fail with an error of type `E`. */
  datatype Result<+T, +E> = Ok(value: T) | Err(error: E)
}
