/** The optional-value datatype that the statistics return where the source returns `Option`. */
module Wrappers {

  datatype Option<+T> = None | Some(value: T)
}
