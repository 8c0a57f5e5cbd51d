/** Optional values: a JavaScript `null`, `undefined` or `NaN` where the converter
    has no value. */
module Wrappers {

  datatype Option<+T> = None | Some(value: T)
}
