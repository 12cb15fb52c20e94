/** Optional values and Python-style failures shared by every script model. */
module Wrappers {

  datatype Option<+T> = None | Some(value: T)

  /** The Python exceptions the modelled code can raise on its own data. */
  datatype PyError =
    | IndexError      // a list index out of range
    | ValueError      // int() given a string that is not an integer
    | AttributeError  // an attribute that the object does not have
    | TypeError       // comparing a naive datetime with an aware one

  /** The outcome of a computation that either yields a value or raises. */
  datatype Result<+T> = Ok(value: T) | Err(error: PyError)
}
