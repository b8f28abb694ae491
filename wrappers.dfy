/** The Option and Result datatypes shared by the model. */
module Wrappers {
  /** A value, or the SQL NULL / Python None that stands in for it. */
  datatype Option<+T> = None | Some(value: T)

  /** The outcome of an operation that either returns a row or raises. */
  datatype Result<+T, +E> = Ok(value: T) | Err(error: E)
}
