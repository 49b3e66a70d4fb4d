/** The optional value used wherever a JavaScript value may be `undefined`. */
module Wrappers {
  datatype Option<+T> = None | Some(value: T)
}
