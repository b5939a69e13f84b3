/** Optional values: Java's nullable references and absent annotations. */
module Wrappers {

  datatype Option<+T> = None | Some(value: T)

}
