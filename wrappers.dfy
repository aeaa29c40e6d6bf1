/** Failure-carrying wrappers shared by every module: Java's `null` and thrown exceptions
    are modelled with these values. */
module Wrappers {

  /** A value that may be absent; `None` stands for Java's `null`. */
  datatype Option<+T> = None | Some(value: T)

  /** The outcome of a `void` operation that may throw. */
  datatype Outcome<+E> = Pass | Fail(error: E)

  /** The outcome of an operation that returns a value or throws. */
  datatype Result<+R, +E> = Ok(value: R) | Err(error: E)
}
