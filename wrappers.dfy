/** Option, Result and Outcome: the model's stand-ins for Python's None,
    raised exceptions and "returns normally or raises". */
module Wrappers {

  datatype Option<+T> = None | Some(value: T)

  datatype Result<+R, +E> = Success(value: R) | Failure(error: E)

  datatype Outcome<+E> = Pass | Fail(error: E)
}
