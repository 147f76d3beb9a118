/** Optional values, used for the error results of bus transfers. */
module Wrappers {

  datatype Option<+T> = None | Some(value: T)
}
