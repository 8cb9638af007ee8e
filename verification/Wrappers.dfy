/** The result of a search, a conversion or a missing member. */
module Wrappers {
  datatype Option<T> = None | Some(value: T)
}
