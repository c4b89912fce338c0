/** Failure-compatible return types: a value or an error, and an error or nothing.
    They stand for Java's checked and unchecked exceptions. */
module Wrappers {

  /** The outcome of an operation that returns a value or throws. */
  datatype Result<+R, +E> = Success(value: R) | Failure(error: E)

  /** The outcome of an operation that returns nothing (`void`) or throws. */
  datatype Outcome<+E> = Pass | Fail(error: E)
}
