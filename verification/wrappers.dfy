/** Optional values and typed outcomes, standing in for Java's nullable
    references, `Optional` and thrown exceptions. */
module Wrappers {

  /** A value that may be absent (`null` / `Optional.empty()` in the source). */
  datatype Option<+T> = None | Some(value: T)

  /** The outcome of an operation that either returns a value or fails with a
      typed error (the source throws an exception instead). */
  datatype Result<+T, +E> = Success(value: T) | Failure(error: E)
}
