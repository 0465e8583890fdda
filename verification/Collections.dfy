/** Small facts about numbers, sequences and sets that several modules share. */
module Collections {

  function Min(a: int, b: int): int { if a <= b then a else b }

  function Max(a: int, b: int): int { if a >= b then a else b }

  predicate AllDistinct<T(==)>(s: seq<T>) {
    forall i, j :: 0 <= i < j < |s| ==> s[i] != s[j]
  }

  /** The elements in order of first appearance, as a set keeps them. */
  function Distinct<T(==)>(s: seq<T>): seq<T> {
    if s == [] then []
    else
      var r := Distinct(s[..|s| - 1]);
      if s[|s| - 1] in r then r else r + [s[|s| - 1]]
  }

  lemma {:induction false} DistinctIsTheSet<T>(s: seq<T>)
    ensures AllDistinct(Distinct(s)) && (forall x :: x in Distinct(s) <==> x in s) && |Distinct(s)| <= |s|
    ensures AllDistinct(s) ==> Distinct(s) == s
  {
    if s != [] {
      var last := |s| - 1;
      DistinctIsTheSet(s[..last]);
      assert s == s[..last] + [s[last]];
      if AllDistinct(s) { assert s[last] !in s[..last]; }
    }
  }

  /** A sequence without repetitions has as many elements as the set of them. */
  lemma {:induction false} CountOfDistinct<T>(s: seq<T>)
    requires AllDistinct(s)
    ensures |set x | x in s| == |s|
  {
    if s == [] {
      assert (set x | x in s) == {};
    } else {
      var last := |s| - 1;
      CountOfDistinct(s[..last]);
      assert s == s[..last] + [s[last]];
      assert (set x | x in s) == (set x | x in s[..last]) + {s[last]};
    }
  }

  lemma CountOfSubset<T>(a: set<T>, b: set<T>)
    requires a <= b
    ensures |a| <= |b|
  {
    assert b == a + (b - a);
  }
}
