/** An optional value: `None` where a text does not parse, or where a step has no result. */
module Wrappers {

  datatype Option<+T> = None | Some(value: T)
}
