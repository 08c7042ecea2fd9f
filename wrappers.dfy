/** Absent-or-present values: an unset environment variable, a missing JSON
    property, a database lookup that found no row (`null`/`undefined`). */
module Wrappers {

  datatype Option<+T> = None | Some(value: T)
}
