/** Optional values: `None` stands for JavaScript's `null`, `undefined` and array holes. */
module Wrappers {

  datatype Option<+T> = None | Some(value: T)
}
