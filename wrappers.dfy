/** Optional values, used for Python's `None` results and for operations
    that raise an exception the caller catches. */
module Wrappers {

  datatype Option<+T> = None | Some(value: T)

}
