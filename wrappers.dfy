/** Optional values (Java's nullable references) and results that carry an
    exception instead of a value (Java's thrown exceptions). */
module Wrappers {

  datatype Option<+T> = None | Some(value: T)

  datatype Result<+T, +E> = Ok(value: T) | Err(error: E)
}
