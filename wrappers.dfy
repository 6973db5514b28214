/** Option and Result, used for Java's nullable references, Optional and thrown exceptions. */
module Wrappers {

  /** A nullable reference or a java.util.Optional: None stands for null / empty. */
  datatype Option<+T> = None | Some(value: T)

  /** The outcome of a call that either returns a value or throws. */
  datatype Result<+T, +E> = Success(value: T) | Failure(error: E)
}
