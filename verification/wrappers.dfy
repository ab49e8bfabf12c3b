/** Optional values and fallible results: an absent table cell is `None`, and a
    file the converter gives up on is an `Err`. */
module Wrappers {

  datatype Option<+T> = None | Some(value: T)

  datatype Result<+T, +E> = Ok(value: T) | Err(error: E)
}
