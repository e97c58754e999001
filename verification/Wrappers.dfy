/** Option, in place of the source's null pointers and "not found" values. */
module Wrappers {

  datatype Option<+T> = None | Some(value: T)
}
