/** Optional values: a query parameter that may be absent, a row that may not exist. */
module Wrappers {

  datatype Option<+T> = None | Some(value: T)

}
