/** Optional values, used for Python's `None`, JavaScript's `null`/`undefined`
    and for parsers that can fail. */
module Wrappers {

  datatype Option<+T> = None | Some(value: T)
}
