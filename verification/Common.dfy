/** What several modules share.

    A note on style: predicates that are asserted or re-established often, such as the invariants of
    the classes, are written `var valid := A && B && ...; valid` instead of as a bare conjunction.
    The meaning is the same. The verifier proves the bound value in one goal, where it would split a
    bare conjunction into one goal per conjunct at every place where the predicate is established. */
module Common {
  datatype Option<T> = None | Some(value: T)

  function Min(a: nat, b: nat): nat { if a < b then a else b }

  function Max(a: nat, b: nat): nat { if a < b then b else a }

  lemma SubsetSize(a: set<nat>, b: set<nat>)
    requires a <= b
    ensures |a| <= |b| && (|a| == |b| ==> a == b)
  {
    assert b == a + (b - a);
  }

  lemma {:induction false} AtMostLength(s: set<nat>, q: seq<nat>)
    requires forall x :: x in s ==> x in q
    ensures |s| <= |q|
  {
    if q != [] {
      var last := q[|q| - 1];
      forall x | x in s - {last} ensures x in q[..|q| - 1] {}
      AtMostLength(s - {last}, q[..|q| - 1]);
      if last in s { assert s == (s - {last}) + {last}; } else { assert s == s - {last}; }
    }
  }
}
