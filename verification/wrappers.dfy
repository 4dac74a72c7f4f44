/** Small optional-value wrapper shared by the other modules. */
module Wrappers {

  /** A value that may be missing, as `undefined` is in the camera screen. */
  datatype Option<+T> = None | Some(value: T)
}
