/** The optional-value datatype used throughout the model for JavaScript's `null`,
    a missing `indexOf` result and a regex that does not match. */
module Wrappers {

  datatype Option<+T> = None | Some(value: T)
}
