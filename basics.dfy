/** Option and Result values shared by the configuration loader and the document stringifier. */
module Basics {

  /** A value that may be absent; `None` also stands for Python's `None`. */
  datatype Option<T> = None | Some(value: T)

  /** The outcome of an operation that either returns a value or raises an error. */
  datatype Result<T, E> = Ok(value: T) | Err(error: E)
}
