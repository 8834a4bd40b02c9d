/** The optional value used for absent map entries, absent timeouts and search misses. */
module Wrappers {

  datatype Option<+T> = None | Some(value: T)

}
