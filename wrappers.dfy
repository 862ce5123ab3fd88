/** Optional values: JavaScript's `null`/`undefined` for a field that may be unset. */
module Wrappers {
  datatype Option<+T> = None | Some(value: T)
}
