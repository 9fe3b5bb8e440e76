/** The optional value the server writes as `null` or a value. */
module Wrappers {
  datatype Option<T> = None | Some(value: T)
}
