/** Optional values, shared by all modules. */
module Wrappers {

  datatype Option<+T> = None | Some(value: T)
}
