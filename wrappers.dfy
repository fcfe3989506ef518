/** Optional values and the two outcome shapes of an operation that may raise. */
module Wrappers {

  /** Python's `None` versus a present value. */
  datatype Option<+T> = None | Some(value: T)

  /** The exception classes the table raises. */
  datatype Exception = TypeError | ValueError | IndexError

  /** A value, or the exception raised instead of returning it. */
  datatype Result<+T> = Success(value: T) | Failure(error: Exception)

  /** A procedure that returns nothing, or the exception it raised. */
  datatype Outcome = Pass | Fail(error: Exception)
}
