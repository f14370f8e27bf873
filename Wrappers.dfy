/** Optional values, shared by the image engine and the chart uploader. */
module Wrappers {

  datatype Option<T> = None | Some(value: T)
}
