// Shared vocabulary: optional values and repeat-free sequences.
module Basics {

  datatype Option<+T> = None | Some(value: T)

  ghost predicate NoDup<T>(s: seq<T>) {
    forall i, j :: 0 <= i < j < |s| ==> s[i] != s[j]
  }

  ghost function Elems<T>(s: seq<T>): set<T> {
    set x | x in s
  }

  // A Go `range` over a map visits every key once, in any order: any sequence that lists a set.
  ghost predicate Lists<T>(s: seq<T>, xs: set<T>) {
    NoDup(s) && Elems(s) == xs
  }

  // Extending a listing by a new element.
  lemma ListsSnoc<T>(s: seq<T>, xs: set<T>, x: T)
    requires Lists(s, xs) && x !in xs
    ensures Lists(s + [x], xs + {x})
  {
    forall i | 0 <= i < |s| ensures s[i] != x { assert s[i] in Elems(s); }
  }

  lemma ElemsOfPrefix<T>(s: seq<T>, i: nat)
    requires i < |s|
    ensures Elems(s[..i + 1]) == Elems(s[..i]) + {s[i]}
  {
    assert s[..i + 1] == s[..i] + [s[i]];
  }

  // A repeat-free sequence is as long as its set of elements.
  lemma {:induction false} NoDupCardinality<T>(s: seq<T>)
    requires NoDup(s)
    ensures |Elems(s)| == |s|
  {
    if s != [] {
      var t := s[..|s| - 1];
      NoDupCardinality(t);
      assert Elems(s) == Elems(t) + {s[|s| - 1]};
    }
  }
}
