/** Optional values: a C# null reference, a missing query parameter or a failed parse. */
module Wrappers {
  datatype Option<+T> = None | Some(value: T)
}
