/** Result types standing in for the exceptions and the NaN results of the library. */
module Wrappers {

  /** The exception types the library throws, by their .NET names. */
  datatype Exception =
    | ArgumentException
    | ArgumentOutOfRangeException
    | ArgumentNullException
    | IndexOutOfRangeException
    | OverflowException
    | NullReferenceException

  /** `None` stands for an absent array (a null reference) or a NaN result. */
  datatype Option<+T> = None | Some(value: T)

  /** A value, or the exception that a call throws instead of returning one. */
  datatype Result<+T> = Success(value: T) | Failure(error: Exception)

  /** The outcome of a call that returns nothing. */
  datatype Outcome = Pass | Fail(error: Exception)
}
