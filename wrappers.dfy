/** Optional values: Python's `None` and attributes that have not been set yet. */
module Wrappers {
  datatype Option<+T> = None | Some(value: T)
}
