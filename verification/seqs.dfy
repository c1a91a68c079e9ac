/** Facts about sequences that several proofs share. */
module Seqs {

  /** The tail of a concatenation whose left part is non-empty. */
  lemma AppendTail<T>(a: seq<T>, b: seq<T>)
    requires |a| > 0
    ensures (a + b)[0] == a[0]
    ensures (a + b)[1..] == a[1..] + b
  {
  }
}
