/** The optional value returned by the parsing helpers. */
module Wrappers {
  datatype Option<+T> = None | Some(value: T)
}
