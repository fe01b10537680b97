/** The optional value used for absent request fields, absent headers and
    lookups that may find nothing. */
module Wrappers {

  datatype Option<+T> = None | Some(value: T)
}
