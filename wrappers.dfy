/** Option and Result values used in place of Java's null and thrown exceptions. */
module Wrappers {

  /** `None` stands for a Java `null`. */
  datatype Option<+T> = None | Some(value: T)

  /** `Err` stands for an exception thrown to the caller. */
  datatype Result<+T, +E> = Ok(value: T) | Err(error: E)
}
