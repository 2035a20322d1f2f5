/** Option and Result values, used where the modelled code returns null/None or raises. */
module Wrappers {

  /** A value that may be absent: `null` in TypeScript, `None` in Python. */
  datatype Option<+T> = None | Some(value: T)

  /** The outcome of an operation that may raise an exception instead of returning. */
  datatype Result<+R, +E> = Success(value: R) | Failure(error: E)
}
