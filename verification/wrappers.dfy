/** Optional values, used where a stored integer may name no enumerator. */
module Wrappers {

  datatype Option<+T> = None | Some(value: T)
}
