/** Optional values: a payload that may be Python's None, a search that may find nothing,
    a regular-expression match that may fail. */
module Wrappers {

  datatype Option<+T> = None | Some(value: T)

}
