/** Optional values, used wherever the source has `None` or an absent form field. */
module Wrappers {
  datatype Option<+T> = None | Some(value: T)
}
