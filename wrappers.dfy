/** The optional result of a loader that may hand back a null pointer. */
module Wrappers {

  datatype Option<+T> = None | Some(value: T)
}
