/** Optional values: `None` stands for a value that could not be obtained. */
module Wrappers {

  datatype Option<+T> = None | Some(value: T)
}
