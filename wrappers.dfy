/** Option and Result: the model's stand-ins for Java's null and thrown exceptions. */
module Wrappers {

  datatype Option<+T> = None | Some(value: T)

  datatype Result<+R, +E> = Success(value: R) | Failure(error: E)

  /** A Java `void` method either returns normally or throws. */
  datatype Outcome<+E> = Pass | Fail(error: E)
}
