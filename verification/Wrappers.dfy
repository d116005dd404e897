/** Optional values and exceptions-as-values, shared by every component. */
module Wrappers {

  datatype Option<+T> = None | Some(value: T)

  /** The outcome of a Python call: a returned value or a raised exception. */
  datatype Result<+T, +E> = Returned(value: T) | Raised(error: E)
}
