/** Outcome datatypes shared by the client and the server models. */
module Wrappers {

  /** A value that may be absent: JavaScript's `null` and Python's `None`. */
  datatype Option<+T> = None | Some(value: T) {
    function GetOr(default: T): T {
      match this
      case Some(v) => v
      case None => default
    }
  }

  /** An endpoint's outcome: a value, or the HTTP error it raises. */
  datatype Result<+R, +E> = Ok(value: R) | Err(error: E)

  /** What the client sees of a remote call: the response data, or a thrown error. */
  datatype Reply<+T> = Success(data: T) | Failure
}
