/** Facts about sequences that proofs name rather than leave to the verifier. */
module Seqs {

  lemma Assoc<T>(a: seq<T>, b: seq<T>, c: seq<T>)
    ensures (a + b) + c == a + (b + c)
  {
  }

  lemma TakeTwice<T>(b: seq<T>, m: nat, n: nat)
    requires m + n <= |b|
    ensures b[..m + n] == b[..m] + b[m..][..n]
  {
  }

  /** Splitting a concatenation where it was joined. */
  lemma Split<T>(a: seq<T>, b: seq<T>)
    ensures (a + b)[..|a|] == a && (a + b)[|a|..] == b
  {
  }
}
