/** Optional values, standing for Python's `None` where the proxy uses it. */
module Wrappers {

  datatype Option<+T> = None | Some(value: T)
}
