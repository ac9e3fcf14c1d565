/** The optional value used wherever the source can yield "nothing": an empty
    query result, `NaN` from a number parse, an invalid `Date`. */
module Wrappers {

  datatype Option<+T> = None | Some(value: T)
}
