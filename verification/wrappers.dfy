/** Failure-carrying values shared by the puzzle models: a missing value
    (`null`, an empty optional) and a thrown exception or error return. */
module Wrappers {

  datatype Option<+T> = None | Some(value: T)

  datatype Result<+T, +E> = Ok(value: T) | Err(error: E)
}
