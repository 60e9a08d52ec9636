/** The optional value used for the source's nullable pointers and C strings. */
module Wrappers {

  datatype Option<+T> = None | Some(value: T)
}
