/** Optional values: a field that a request body or a stored document may lack. */
module Wrappers {

  datatype Option<+T> = None | Some(value: T)
}
