/** Optional values: a camera frame that may be missing, a decoder that may reject. */
module Wrappers {

  datatype Option<+T> = None | Some(value: T)

}
