/** Option and Result values standing in for Java's null references and thrown exceptions. */
module Wrappers {

  /** `None` plays the part of a Java `null`. */
  datatype Option<+T> = None | Some(value: T)

  /** `Failure` carries the message of an exception the Java code would throw. */
  datatype Result<+R, +E> = Success(value: R) | Failure(error: E)
}
