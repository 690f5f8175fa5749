/** A value that may be absent, like the NULL pointers of the source; and sequences
    without repetitions. */
module Wrappers {
  datatype Option<+T> = None | Some(value: T)

  ghost predicate NoDup<T>(s: seq<T>) { forall i, j | 0 <= i < j < |s| :: s[i] != s[j] }
}
