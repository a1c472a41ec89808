/** The optional value used wherever the source has a field or result that may be `undefined`. */
module Wrappers {

  datatype Option<+T> = None | Some(value: T)
}
