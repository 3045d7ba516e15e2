/** Failure-carrying result types shared by every module of the model. */
module Wrappers {

  /** A value that may be absent (JavaScript `null`/`undefined`, Java `null`/`Optional.empty`). */
  datatype Option<+T> = None | Some(value: T) {
    function GetOr(default: T): T {
      match this
      case Some(v) => v
      case None => default
    }
  }

  /** The outcome of an operation that can fail with an error of type E. */
  datatype Result<+T, +E> = Ok(value: T) | Err(error: E) {
    predicate IsFailure() {
      Err?
    }
  }
}
