/** The optional value used wherever the program either has a result or has none. */
module Wrappers {
  datatype Option<+T> = None | Some(value: T)
}
