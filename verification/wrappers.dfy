/** The optional value used for absent map entries, failed parses and
    events that produce no reply. */
module Wrappers {

  datatype Option<+T> = None | Some(value: T)
}
