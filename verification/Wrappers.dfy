/** The values of the source that may be absent: Python's None, JavaScript's null or
    undefined, a failed lookup. */
module Wrappers {
  datatype Option<+T> = None | Some(value: T)
}
