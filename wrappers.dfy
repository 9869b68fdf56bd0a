/** The Some/None datatype used for results that may be absent, such as a
    duration string that does not parse. */
module Wrappers {

  datatype Option<+T> = None | Some(value: T)
}
