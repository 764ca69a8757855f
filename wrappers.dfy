/** Optional values: `None` stands for a pandas NaN/None cell. */
module Wrappers {
  datatype Option<+T> = None | Some(value: T)
}
