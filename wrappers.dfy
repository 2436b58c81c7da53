/** Failure-carrying wrappers shared by the other modules. */
module Wrappers {

  /** A value that may be absent: an optional request field, a query that found no row. */
  datatype Option<+T> = None | Some(value: T)

  /** The outcome of a service call: a value, or the exception the service throws. */
  datatype Result<+R, +E> = Ok(value: R) | Err(error: E)
}
