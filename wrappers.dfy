/** Optional values: a PHP `null` / `false` return becomes `None`. */
module Wrappers {
  datatype Option<+T> = None | Some(value: T)
}
