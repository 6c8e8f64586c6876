/** Option and Result: absent values and the error paths of the storefront's operations. */
module Wrappers {

  datatype Option<+T> = None | Some(value: T)

  /** The outcome of an operation that either succeeds with a value or fails with an error message. */
  datatype Result<+R> = Ok(value: R) | Err(error: string)
}
