/** Optional values, standing in for the source's nullable pointers. */
module Wrappers {

  datatype Option<+T> = None | Some(value: T)
}
