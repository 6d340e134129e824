/** The optional-value datatype used wherever the source has `T | null`. */
module Wrappers {

  datatype Option<+T> = None | Some(value: T)
}
