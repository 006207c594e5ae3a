/** The optional value used for the source's "maybe absent" results. */
module Wrappers {
  datatype Option<+T> = None | Some(value: T)
}
