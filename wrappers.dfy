/** The optional-value datatype used for absent dates and partial parses. */
module Wrappers {
  datatype Option<+T> = None | Some(value: T)
}
