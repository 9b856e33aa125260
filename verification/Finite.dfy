/** Counting facts about finite sets of indices. */
module Finite {

  function Upto(n: nat): (S: set<nat>)
    ensures |S| == n && forall i :: i in S <==> 0 <= i < n
  {
    if n == 0 then {} else Upto(n - 1) + {n - 1}
  }

  lemma {:induction false} InjectionIsOnto(P: set<nat>, f: map<nat, nat>)
    requires f.Keys == P && f.Values <= P
    requires forall a, b :: a in P && b in P && f[a] == f[b] ==> a == b
    ensures f.Values == P
  {
    ImageSize(P, f);
    SubsetOfSameSize(f.Values, P);
  }

  lemma {:induction false} ImageSize(P: set<nat>, f: map<nat, nat>)
    requires f.Keys == P
    requires forall a, b :: a in P && b in P && f[a] == f[b] ==> a == b
    ensures |f.Values| == |P|
    decreases |P|
  {
    if P == {} {
      assert f.Values == {};
    } else {
      var a :| a in P;
      var Q, g := P - {a}, f - {a};
      ImageSize(Q, g);
      assert f[a] !in g.Values;
      forall y | y in f.Values ensures y in g.Values + {f[a]} {
        var x :| x in f && f[x] == y;
        if x != a { assert x in g && g[x] == y; }
      }
      forall y | y in g.Values ensures y in f.Values {
        var x :| x in g && g[x] == y;
        assert x in f && f[x] == y;
      }
      assert f.Values == g.Values + {f[a]};
    }
  }

  lemma SubsetOfSameSize(A: set<nat>, B: set<nat>)
    requires A <= B && |A| == |B|
    ensures A == B
  {
    assert |B - A| == |B| - |A|;
    assert B - A == {};
  }

  lemma SubsetSize(A: set<nat>, B: set<nat>)
    requires A <= B
    ensures |A| <= |B|
  {
    assert |B - A| == |B| - |A|;
  }

  function Elements(xs: seq<nat>): (S: set<nat>)
    ensures |S| <= |xs| && forall x :: x in S <==> x in xs
  {
    if xs == [] then {} else Elements(xs[..|xs| - 1]) + {xs[|xs| - 1]}
  }

  lemma {:induction false} DistinctCount(xs: seq<nat>)
    requires forall i, j :: 0 <= i < j < |xs| ==> xs[i] != xs[j]
    ensures |Elements(xs)| == |xs|
    decreases |xs|
  {
    if xs != [] { DistinctCount(xs[..|xs| - 1]); }
  }
}
