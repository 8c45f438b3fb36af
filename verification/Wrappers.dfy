/** Values that may be missing, and the members of a list. */
module Wrappers {
  datatype Option<+T> = None | Some(value: T)

  function Members<T(==)>(s: seq<T>): set<T> {
    set x | x in s
  }
}
