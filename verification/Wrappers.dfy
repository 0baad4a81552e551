/** The value-or-nothing type, whose None stands for a NULL pointer, and lists without repetitions. */
module Wrappers {
  datatype Option<+T> = None | Some(value: T)

  predicate NoTwice<T(==)>(s: seq<T>) { forall i, j | 0 <= i < j < |s| :: s[i] != s[j] }
}
