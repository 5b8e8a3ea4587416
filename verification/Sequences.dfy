/** Facts about sequences without repetition. */
module Sequences {
  ghost predicate Distinct<T>(s: seq<T>)
  {
    forall i, j :: 0 <= i < j < |s| ==> s[i] != s[j]
  }

  ghost predicate Disjoint<T>(s: seq<T>, t: seq<T>)
  {
    forall x :: x in s ==> x !in t
  }

  lemma DistinctConcat<T>(s: seq<T>, t: seq<T>)
    ensures Distinct(s + t) <==> Distinct(s) && Distinct(t) && Disjoint(s, t)
  {
    var u := s + t;
    if Distinct(u) {
      assert forall i :: 0 <= i < |s| ==> s[i] == u[i];
      assert forall i :: 0 <= i < |t| ==> t[i] == u[|s| + i];
      forall i, j | 0 <= i < |s| && 0 <= j < |t| ensures s[i] != t[j] {
        assert u[i] == s[i] && u[|s| + j] == t[j];
      }
    }
    if Distinct(s) && Distinct(t) && Disjoint(s, t) {
      forall i, j | 0 <= i < j < |u| ensures u[i] != u[j] {
        if i < |s| <= j {
          assert u[i] in s && u[j] == t[j - |s|] && u[j] in t;
        }
      }
    }
  }
}
