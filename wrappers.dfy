/** The optional value used for the components' nullable state (`number | null`). */
module Wrappers {

  datatype Option<+T> = None | Some(value: T)
}
