/**
 * Option, Result and Outcome, the failure-carrying values the model uses in
 * place of Python's `None` returns and raised exceptions, and the closed set
 * of exception kinds that the inventory and employee code raises.
 */
module Wrappers {

  datatype Option<+T> = None | Some(value: T)

  /** A value, or the exception a Python function raised instead of returning. */
  datatype Result<+T, +E> = Success(value: T) | Failure(error: E)

  /** The completion of a Python function that returns nothing useful: it returned, or it raised. */
  datatype Outcome<+E> = Pass | Fail(error: E)

  /** The exception classes the modelled code raises or lets propagate. */
  datatype Exception =
    | ValueError
    | TypeError
    | NameError
    | KeyError
    | FileNotFoundError
    | JsonDecodeError
    | UserExistsError
    | UserNotFoundError
    | UsersNotFoundError
    | ValidationError(message: string)
}
