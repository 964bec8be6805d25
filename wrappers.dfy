/** Optional values and results with an error, used for the lookups and
    the error paths of the service. */
module Wrappers {

  datatype Option<T> = None | Some(value: T)

  datatype Result<T, E> = Ok(value: T) | Err(error: E)
}
