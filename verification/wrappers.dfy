/** Option and Result values used where the Java code returns null or throws. */
module Wrappers {

  /** An optional value; `None` stands for a Java `null`. */
  datatype Option<+T> = None | Some(value: T)

  /** The outcome of an operation that may throw instead of returning. */
  datatype Result<+R, +E> = Ok(value: R) | Err(error: E)
}
