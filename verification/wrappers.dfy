/** Small optional-value datatype shared by the three game models. */
module Wrappers {

  /** A value that may be absent: the source's `null`/not-yet-reported cases. */
  datatype Option<+T> = None | Some(value: T)
}
