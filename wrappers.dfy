/** Optional values: a Go pointer or map entry that may be absent. */
module Wrappers {
  datatype Option<+T> = None | Some(value: T)
}
