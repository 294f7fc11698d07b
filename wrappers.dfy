/** An optional value, used for field data that may not be allocated yet. */
module Wrappers {
  datatype Option<T> = None | Some(value: T)
}
