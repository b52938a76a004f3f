/** Option and Result: absence and failure as values. */
module Wrappers {

  /** A value that may be absent; stands for Python's `Optional[...]` and `None`. */
  datatype Option<+T> = None | Some(value: T)

  /** The outcome of an operation that may raise; the error side stands for the raised exception. */
  datatype Result<+R, +E> = Success(value: R) | Failure(error: E)
}
