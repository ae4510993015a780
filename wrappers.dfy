/** The optional value that the evaluator returns where the source returns an object or `null`. */
module Wrappers {
  datatype Option<+T> = None | Some(value: T)
}
