/** Optional values: `undefined` / a missing array element / a failed `find`. */
module Wrappers {

  datatype Option<+T> = None | Some(value: T)

}
