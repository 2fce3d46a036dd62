/** Option and Result, used wherever the source returns None or raises. */
module Wrappers {

  datatype Option<T> = None | Some(value: T)

  /** A Python exception is an `Err` carrying the exception's kind. */
  datatype Result<T> = Ok(value: T) | Err(error: string)
}
