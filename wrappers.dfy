/** The absent-or-present wrapper used for every reading that may be missing
    (a NaN cell of the table) and for every aggregate that may be undefined. */
module Wrappers {

  datatype Option<+T> = None | Some(value: T)
}
