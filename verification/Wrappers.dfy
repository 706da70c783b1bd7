/** An optional value: the source's null pointers, empty optionals and failed look-ups. */
module Wrappers {

  datatype Option<T> = None | Some(value: T)
}
