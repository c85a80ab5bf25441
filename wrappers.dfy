/** Optional values and results with an error, used where the catalogue code
    reads `undefined` or lets an exception escape. */
module Wrappers {
  datatype Option<+T> = None | Some(value: T)

  datatype Result<+R, +E> = Ok(value: R) | Err(error: E)
}
