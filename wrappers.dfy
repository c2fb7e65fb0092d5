/** Optional values, the Python exceptions the core raises, and results that carry them. */
module Wrappers {

  datatype Option<T> = None | Some(value: T)

  /** The exception classes raised by the modelled code. */
  datatype PyError =
    | IndexError
    | ValueError(message: string)
    | ImportError(message: string)

  /** The value a Python call returns, or the exception it raises. */
  datatype Result<T> = Ok(value: T) | Err(error: PyError)

  /** The outcome of a Python call that returns None, or the exception it raises. */
  datatype Outcome = Pass | Fail(error: PyError)
}
