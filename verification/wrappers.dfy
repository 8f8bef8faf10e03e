/** Optional values: JavaScript's `T | null` / `T | undefined` where the distinction does not matter. */
module Wrappers {
  datatype Option<+T> = None | Some(value: T)
}
