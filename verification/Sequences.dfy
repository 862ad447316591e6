/** Sequences without repeated elements, and the regrouping of concatenations. */
module Sequences {
  predicate Distinct<T(==)>(xs: seq<T>) {
    forall i, j :: 0 <= i < j < |xs| ==> xs[i] != xs[j]
  }

  lemma Regroup<T>(a: seq<T>, x: T, c: seq<T>)
    ensures a + [x] + c == a + ([x] + c)
  {
  }
}
