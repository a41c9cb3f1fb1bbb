/** Optional values: a missing DOM element, an unset timer, an empty pending slot. */
module Wrappers {

  datatype Option<+T> = None | Some(value: T)
}
