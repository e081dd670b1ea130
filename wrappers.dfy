/** The optional value the source expresses as a null pointer. */
module Wrappers {
  datatype Option<T> = None | Some(value: T)
}
