/** Optional values, standing for PHP's `null`-or-value and for "not found". */
module Wrappers {

  datatype Option<+T> = None | Some(value: T)
}
