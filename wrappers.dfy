/** Option, Result and Outcome: a missing value (C# null), a value or an exception, and
    a success or an exception for calls that return nothing. */
module Wrappers {

  datatype Option<+T> = None | Some(value: T)

  datatype Result<+R, +E> = Success(value: R) | Failure(error: E)

  datatype Outcome<+E> = Pass | Fail(error: E)
}
