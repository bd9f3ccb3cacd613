/** Small facts about sequences that several proofs share. */
module Seqs {

  /** Concatenation regroups freely. */
  lemma ConcatAssoc<T>(a: seq<T>, b: seq<T>, c: seq<T>)
    ensures a + b + c == a + (b + c)
  {
  }

  /** The empty sequence is a unit on either side. */
  lemma EmptyUnit<T>(s: seq<T>)
    ensures [] + s == s && s + [] == s
  {
  }
}
