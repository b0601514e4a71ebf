/** The Option datatype used for partial results: a lookup that may miss,
    a parser that may reject its input, a query parameter that may be absent. */
module Wrappers {

  datatype Option<+T> = None | Some(value: T)
}
