/** Optional values, for Java's `null`. */
module Wrappers {

  datatype Option<T(!new)> = None | Some(value: T)
}
