/** Optional values, for the NULL results and NULL arguments of the C code. */
module Wrappers {
  datatype Option<T> = None | Some(value: T)
}
