/** Optional values, for results that may be absent (a failed parse). */
module Wrappers {

  datatype Option<+T> = None | Some(value: T)
}
