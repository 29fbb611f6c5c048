/** The nullable results of the source (`null` from a lookup, an unset
    state field) as an explicit Option. */
module Wrappers {

  datatype Option<+T> = None | Some(value: T)
}
