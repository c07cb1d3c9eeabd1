/** Optional values: the model's stand-in for the nullable pointers of the viewer. */
module Wrappers {

  /** `None` plays the part of a null pointer, `Some(v)` of a pointer to `v`. */
  datatype Option<+T> = None | Some(value: T)
}
