/** Sequences without repetition. */
module Sequences {

  ghost predicate Distinct<T(!new)>(s: seq<T>) {
    forall i, j :: 0 <= i < j < |s| ==> s[i] != s[j]
  }

  /** Removing every occurrence, keeping the order. */
  function Without<T(==, !new)>(s: seq<T>, x: T): (r: seq<T>)
    ensures forall y :: y in r <==> y in s && y != x
  {
    if s == [] then [] else if s[0] == x then Without(s[1..], x) else [s[0]] + Without(s[1..], x)
  }

  lemma {:induction false} WithoutDistinct<T(!new)>(s: seq<T>, x: T)
    requires Distinct(s)
    ensures Distinct(Without(s, x))
  {
    if s != [] {
      WithoutDistinct(s[1..], x);
      if s[0] != x {
        var r := Without(s[1..], x);
        assert forall y :: y in r ==> y != s[0];
      }
    }
  }
}
