/** Unions of finitely many sets of addresses. */
module Unions {

  function BigUnion(sets: seq<set<string>>): set<string> {
    if |sets| == 0 then {} else BigUnion(sets[..|sets| - 1]) + sets[|sets| - 1]
  }

  lemma {:induction false} InBigUnion(sets: seq<set<string>>, p: string)
    ensures p in BigUnion(sets) <==> exists i :: 0 <= i < |sets| && p in sets[i]
  {
    if |sets| > 0 {
      var n := |sets| - 1;
      InBigUnion(sets[..n], p);
      if i :| 0 <= i < |sets| && p in sets[i] {
        assert i < n ==> p in sets[..n][i];
      }
    }
  }

  lemma UnionStep(sets: seq<set<string>>, n: nat)
    requires n < |sets|
    ensures BigUnion(sets[..n + 1]) == BigUnion(sets[..n]) + sets[n]
  {
    assert sets[..n + 1][..n] == sets[..n];
  }

  lemma UnionAppend(sets: seq<set<string>>, s: set<string>)
    ensures BigUnion(sets + [s]) == BigUnion(sets) + s
  {
    assert (sets + [s])[..|sets|] == sets;
  }

  lemma UnionGrowLast(sets: seq<set<string>>, more: set<string>)
    requires |sets| > 0
    ensures BigUnion(sets[|sets| - 1 := sets[|sets| - 1] + more]) == BigUnion(sets) + more
  {
    var n := |sets| - 1;
    assert sets[n := sets[n] + more][..n] == sets[..n];
  }
}
