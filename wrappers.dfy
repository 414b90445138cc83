/** Optional values: Python's `None`-or-value results and the
    absent predecessor of the start node. */
module Wrappers {

  datatype Option<T> = None | Some(value: T)
}
