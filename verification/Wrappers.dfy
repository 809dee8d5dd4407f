/** Outcomes shared by every module of the model. */
module Wrappers {
  /** A pointer that may be null. */
  datatype Option<+T> = None | Some(value: T)
}
