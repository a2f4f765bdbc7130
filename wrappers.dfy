/** Optional values, for results that may be absent (a formatter that fails, a fence without a tag). */
module Wrappers {

  datatype Option<+T> = None | Some(value: T)
}
