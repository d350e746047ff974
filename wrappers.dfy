/** Optional values, used for the query parameters that a caller may leave out. */
module Wrappers {
  datatype Option<+T> = None | Some(value: T)
}
