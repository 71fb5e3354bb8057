/**
  The one law of sequences that the solver has to be told.
 */
module Sequences {
  lemma Append<T>(a: seq<T>, b: seq<T>, c: seq<T>)
    ensures (a + b) + c == a + (b + c)
  {
  }
}
