/** Option and Result: Java's null and thrown exceptions, made explicit. */
module Wrappers {

  /** `None` stands for a Java `null` reference. */
  datatype Option<+T> = None | Some(value: T)

  /** `Err` stands for an exception thrown by the modelled Java code. */
  datatype Result<+T, +E> = Ok(value: T) | Err(error: E)
}
