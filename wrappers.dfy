/** The optional-value datatype used for every nullable column of the model. */
module Wrappers {

  datatype Option<+T> = None | Some(value: T)
}
