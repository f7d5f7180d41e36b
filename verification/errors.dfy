/** The exceptions the library raises, and values that may be absent. */
module Errors {

  /** The kind of exception raised (the message text is not modelled). */
  datatype Error =
    | InvalidOperation                    // InvalidOperationException: connection not open
    | Argument(paramName: string)         // ArgumentException naming the offending parameter
    | ArgumentOutOfRange(paramName: string)  // ArgumentOutOfRangeException

  /** A value that may be absent: a C# nullable or null reference. */
  datatype Option<T> = None | Some(value: T)

  /** The outcome of an operation that may throw. */
  datatype Result<T> = Success(value: T) | Failure(error: Error)
}
