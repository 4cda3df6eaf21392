/** Optional values: Ruby's `nil` in the driver's reads and store replies. */
module Wrappers {

  datatype Option<+T> = None | Some(value: T)
}
