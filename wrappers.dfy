/** Optional values, used for the partial parsers of the model. */
module Wrappers {
  datatype Option<+T> = None | Some(value: T)
}
