/** Failure-carrying result types used throughout the storage model. */
module Wrappers {

  /** A value that may be absent; `None` stands for a Java `null`. */
  datatype Option<+T> = None | Some(value: T)

  /** The outcome of a Java call that returns a value or throws. */
  datatype Result<+T, +E> = Success(value: T) | Failure(error: E)

  /** The outcome of a Java `void` call: it returns normally or throws. */
  datatype Outcome<+E> = Pass | Fail(error: E)
}
