/** Failure-carrying values shared by the whole model.
    - Option: a value that may be Python's None.
    - Result: a value, or the exception that a call raises and does not catch.
    - Outcome: the same for calls that return nothing. */
module Wrappers {

  datatype Option<+T> = None | Some(value: T) {
    function GetOr(default: T): T {
      match this
      case Some(v) => v
      case None => default
    }
  }

  datatype Result<+T, +E> = Ok(value: T) | Err(error: E)

  datatype Outcome<+E> = Pass | Fail(error: E)
}
