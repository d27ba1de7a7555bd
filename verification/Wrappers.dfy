/** What the models share: an optional value, for Python's `None` and C's `NULL`, and a fact about sequences. */
module Wrappers {
  datatype Option<+T> = None | Some(value: T)

  lemma Associate<T>(a: seq<T>, b: seq<T>, c: seq<T>)
    ensures a + (b + c) == (a + b) + c
  {
  }
}
