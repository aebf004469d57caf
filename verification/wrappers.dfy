/** Optional values: the model's counterpart of a JavaScript property that may be
    `null` or `undefined`. */
module Wrappers {

  datatype Option<+T> = None | Some(value: T)
}
