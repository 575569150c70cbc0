/** Option, Result and Outcome: the model's stand-ins for Java's null and thrown exceptions. */
module Wrappers {

  /** `None` plays the part of a Java `null`. */
  datatype Option<+T> = None | Some(value: T)

  /** The value a Java method returns, or the exception it throws. */
  datatype Result<+T, +E> = Success(value: T) | Failure(error: E)

  /** Normal completion of a `void` Java method, or the exception it throws. */
  datatype Outcome<+E> = Pass | Fail(error: E)
}
