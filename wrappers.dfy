/** The optional-value datatype used for the source's failure paths. */
module Wrappers {
  datatype Option<+T> = None | Some(value: T)
}
