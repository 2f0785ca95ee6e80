/** Optional values, for the source's std::optional results and null pointers. */
module Wrappers {
  datatype Option<+T> = None | Some(value: T)
}
