/** Optional values: a JavaScript `null`/`undefined` or a missing match. */
module Wrappers {
  datatype Option<+T> = None | Some(value: T)
}
