/** Optional values, shared by the modules that model nullable results. */
module Wrappers {
  datatype Option<+T> = None | Some(value: T)
}
