/** The outcome of an operation that may be refused. */
module Wrappers {

  datatype Result<T, E> = Ok(value: T) | Err(error: E)
}
