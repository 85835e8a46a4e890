/** The optional value used wherever the JavaScript source has `undefined`. */
module Wrappers {

  datatype Option<+T> = None | Some(value: T)
}
