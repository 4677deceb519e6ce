/** Two facts about concatenation that the verifier is slow to see where the elements are sequences themselves. */
module Sequences {

  lemma Regroup<T>(p: seq<T>, q: seq<T>, r: seq<T>)
    ensures p + (q + r) == p + q + r
  {
  }

  lemma AllButLast<T>(s: seq<T>, last: T)
    ensures (s + [last])[..|s|] == s
  {
  }
}
