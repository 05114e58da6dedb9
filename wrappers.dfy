/** The optional value used for nullable pointers and for the optional error cell. */
module Wrappers {

  datatype Option<+T> = None | Some(value: T)
}
