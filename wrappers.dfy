/** Optional values shared by the whole model. */
module Wrappers {

  /** A value that may be absent (a null stage or value, or a missing attribute, in the source). */
  datatype Option<+T> = None | Some(value: T)
}
