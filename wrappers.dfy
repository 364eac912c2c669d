/** Optional values: a nullable SQL column, a row that may be missing, a handler that may post nothing. */
module Wrappers {

  datatype Option<+T> = None | Some(value: T)

}
