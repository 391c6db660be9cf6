/** Failure-carrying result values: the model's stand-in for a Python call
    that either returns a value or raises an exception. */
module Wrappers {

  /** The Python exceptions the resolver can raise. */
  datatype Error =
    | IndexError   // a list subscript out of range
    | KeyError     // a dictionary key that is not present
    | ValueError   // a constructor argument outside its domain

  datatype Result<+T> = Ok(value: T) | Err(error: Error)
}
