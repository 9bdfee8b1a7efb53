/** The optional value used for lookups that can miss (JavaScript `null`/`undefined`, Python's absent key). */
module Wrappers {

  datatype Option<+T> = None | Some(value: T)
}
