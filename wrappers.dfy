/** Optional values, used for "maybe decoded" inputs and "maybe sent" responses. */
module Wrappers {

  datatype Option<+T> = None | Some(value: T)
}
