/** Optional values: the model's stand-in for a JavaScript field that may be `undefined`. */
module Wrappers {

  datatype Option<+T> = None | Some(value: T)
}
