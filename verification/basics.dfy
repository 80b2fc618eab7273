/** Small shared vocabulary: optional values, results with an error, and `Min`. */
module Basics {

  /** A value that may be absent; SQL NULL and a failed lookup both become `None`. */
  datatype Option<+T> = None | Some(value: T)

  /** The outcome of an operation that can fail with an error of type `E`. */
  datatype Result<+T, +E> = Success(value: T) | Failure(error: E)

  function Min(a: int, b: int): int
  {
    if a <= b then a else b
  }
}
