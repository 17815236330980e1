/** The optional-value type shared by the whole model. */
module Wrappers {

  /** Some value, or none at all (a nil pointer, a failed parse). */
  datatype Option<+T> = None | Some(value: T)
}
