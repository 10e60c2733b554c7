/** Wrappers used for Java's Optional and for thrown exceptions. */
module Wrappers {

  /** Java's `Optional<T>`. */
  datatype Option<+T> = None | Some(value: T)

  /** A value, or the exception thrown instead of returning one. */
  datatype Result<+R, +E> = Success(value: R) | Failure(error: E)

  /** A `void` call that either returns normally or throws. */
  datatype Outcome<+E> = Pass | Fail(error: E)
}
