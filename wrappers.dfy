/** Option, Result and Status values, and the Python exceptions the core raises. */
module Wrappers {

  datatype Option<+T> = None | Some(value: T) {
    function GetOr(default: T): T {
      match this
      case Some(v) => v
      case None => default
    }
  }

  /** The exception classes the modelled code raises, by their Python names. */
  datatype Error =
    | ValueError      // a range or required-field check failed, or an enum string is unknown
    | TypeError       // an unexpected keyword, or a value of the wrong kind
    | KeyError        // a dictionary key that is not there
    | ZeroDivisionError
    | RuntimeError    // the client has been closed
    | DuplicateKey    // the database refuses a second node with the same primary key

  datatype Result<+T> = Ok(value: T) | Err(error: Error) {
    predicate IsFailure() { Err? }

    function PropagateFailure<U>(): Result<U>
      requires Err?
    {
      Err(error)
    }

    function Extract(): T
      requires Ok?
    {
      value
    }
  }

  /** The outcome of an operation that returns nothing (or raises). */
  datatype Status = Success | Failure(error: Error)
}
