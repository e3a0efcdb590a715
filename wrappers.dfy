/** Option and Result: C#'s null and thrown exceptions, made explicit. */
module Wrappers {

  /** A value that may be absent: `None` stands for C#'s `null`. */
  datatype Option<+T> = None | Some(value: T)

  /** The outcome of an operation that may throw. */
  datatype Result<+R, +E> = Success(value: R) | Failure(error: E)

  /** The .NET exceptions the modelled code can raise. */
  datatype Exception =
    | ArgumentException(message: string)
    | ArgumentNullException(paramName: string)
}
