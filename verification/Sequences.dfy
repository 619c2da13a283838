/** Equations of sequence concatenation, one at a time: proofs that join many pieces call them instead of leaving them
    all open. */
module Sequences {

  lemma Assoc<T>(a: seq<T>, b: seq<T>, c: seq<T>)
    ensures a + b + c == a + (b + c)
  {
  }

  lemma Neutral<T>(s: seq<T>)
    ensures [] + s == s && s + [] == s
  {
  }

  lemma Tail<T>(x: T, s: seq<T>)
    ensures ([x] + s)[1..] == s
  {
  }

  /** A sequence is its first element, the next `n` and the others. */
  lemma Pieces<T>(s: seq<T>, n: nat)
    requires 1 + n <= |s|
    ensures s == [s[0]] + s[1..][..n] + s[1..][n..]
  {
  }
}
