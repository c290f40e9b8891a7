/** Option and Result values used where the Python source returns None or raises. */
module Wrappers {

  /** A Python value that may be `None`. */
  datatype Option<+T> = None | Some(value: T)

  /** The outcome of a Python call that either returns a value or raises. */
  datatype Result<+T> = Ok(value: T) | Raised(error: string)
}
