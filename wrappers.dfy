/** The optional-value type shared by the whole model. */
module Wrappers {

  /** A value that may be missing: the model's stand-in for a Python exception
      raised on the way to it (an IndexError, a ValueError). */
  datatype Option<+T> = None | Some(value: T)
}
