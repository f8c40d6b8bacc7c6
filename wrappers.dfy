/** Optional values: Python's None and JavaScript's null/absent. */
module Wrappers {
  datatype Option<+T> = None | Some(value: T)
}
