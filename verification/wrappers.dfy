/** A value that may be absent; stands in for the page's nullable references. */
module Wrappers {

  datatype Option<T> = None | Some(value: T)
}
