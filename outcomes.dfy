/** Success/failure values returned by the handlers in place of HTTP error responses. */
module Outcomes {

  /** The result of an operation that yields nothing on success. */
  datatype Outcome<+E> = Pass | Fail(error: E)

  /** The result of an operation that yields a value on success. */
  datatype Result<+T, +E> = Ok(value: T) | Err(error: E)
}
