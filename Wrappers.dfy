/** Optional values, used for the absent and null cases of the source. */
module Wrappers {

  datatype Option<+T> = None | Some(value: T)
}
