/** Optional values and error results, standing in for Java's null / Optional and
    for the exceptions the logging managers throw. */
module Wrappers {

  datatype Option<+T> = None | Some(value: T)

  /** A value, or the message of the exception that was thrown instead. */
  datatype Result<+T> = Ok(value: T) | Err(message: string)

  /** Outcome of a `void` Java method that may throw. */
  datatype Outcome = Pass | Fail(message: string)
}
