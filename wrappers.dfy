/** The optional value used where the JavaScript source reads a key that may be absent. */
module Wrappers {

  datatype Option<+T> = None | Some(value: T)
}
