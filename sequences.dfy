/** Sequence helpers shared by the list-based parts of the model. */
module Sequences {

  /** Position of the first occurrence of `x` in `s`: Java's `List.indexOf` on a list that holds it. */
  function FirstIndex<T(==)>(s: seq<T>, x: T): (i: nat)
    requires x in s
    ensures i < |s| && s[i] == x && x !in s[..i]
  {
    if s[0] == x then 0 else 1 + FirstIndex(s[1..], x)
  }
}
