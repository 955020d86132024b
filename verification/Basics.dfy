/** What several modules need: values that may be missing, results that may be errors, and sequences in order. */
module Basics {
  datatype Option<+T> = None | Some(value: T)

  /** A value, or the error that there is instead. Each component has its own errors, and its own name for this. */
  datatype Fallible<+T, +E> = Ok(value: T) | Err(error: E)

  predicate Ascending(s: seq<nat>) {
    forall i, j | 0 <= i < j < |s| :: s[i] < s[j]
  }
}
