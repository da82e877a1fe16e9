/** The Some/None datatype used for the optional bounds of the new-entry form
    (a cleared date picker hands the reducer `null`). */
module Wrappers {

  datatype Option<+T> = None | Some(value: T)
}
