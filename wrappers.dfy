/** Optional values: `undefined` and `null` results of the TypeScript source. */
module Wrappers {

  datatype Option<+T> = None | Some(value: T)
}
