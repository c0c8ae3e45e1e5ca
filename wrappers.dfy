/** Optional values and results with an error, shared by the rewards modules. */
module Wrappers {

  /** A value that may be absent; Python's `None` is `None` here. */
  datatype Option<T> = None | Some(value: T)

  /** The outcome of a step that may raise an exception. */
  datatype Result<T, E> = Ok(value: T) | Err(error: E)
}
