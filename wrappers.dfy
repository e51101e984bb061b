/** Option, the value-or-nothing wrapper used for the type registry lookup
    and for the literal grammar, whose exceptions become None. */
module Wrappers {

  datatype Option<+T> = None | Some(value: T)
}
