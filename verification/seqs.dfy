/** Facts about sequences shared by the other modules. */
module Seqs {

  /** Concatenation is associative; stated once so that proofs can regroup
      a concatenation in a single step. */
  lemma AppendAssoc<T>(a: seq<T>, b: seq<T>, c: seq<T>)
    ensures a + b + c == a + (b + c)
  {
  }
}
