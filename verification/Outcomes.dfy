/** Result shapes shared by every component: an optional value, and a value or the error that
    the Python code raises. */
module Outcomes {

  datatype Option<+T> = None | Some(value: T)

  datatype Result<+T, +E> = Success(value: T) | Failure(error: E)
}
