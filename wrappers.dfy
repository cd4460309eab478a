/** Optional values, used for the operations of the program that can fail. */
module Wrappers {

  datatype Option<+T> = None | Some(value: T)

}
