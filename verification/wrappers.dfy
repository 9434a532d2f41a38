/** The optional-value type shared by the modules of this model. */
module Wrappers {

  /** Either nothing (`None`) or exactly one value (`Some`). */
  datatype Option<+T> = None | Some(value: T)
}
