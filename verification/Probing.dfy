/**
 Linear probing without removals (src/containers.c): where a key sits, what a probe that stops has
 established, and that insertion keeps every key reachable.
 */
module Probing {
  import opened Words
  import opened Finite

  /** 0 stands for the null pointer. */
  type Value = nat

  datatype Node = Free | Taken(key: Word, value: Value)

  /** The slot d steps after h, around the end of the table. */
  function At(h: int, d: int, cap: int): int
  {
    if h + d < cap then h + d else h + d - cap
  }

  function Home(key: Word, mask: nat): (h: nat)
    ensures h <= mask
  {
    BitAnd(key, mask)
  }

  function Next(idx: nat, mask: nat): nat
  {
    BitAnd(idx + 1, mask)
  }

  lemma {:induction false} TrailingZerosOfPow2(n: nat)
    ensures TrailingZeros(Pow2(n)) == n
  {
    if n > 0 {
      TrailingZerosOfPow2(n - 1);
      assert Pow2(n) / 2 == Pow2(n - 1);
    }
  }

  /** With a power-of-two capacity, masking the successor wraps around the end. */
  lemma NextWraps(idx: nat, log: nat)
    requires idx < Pow2(log)
    ensures Next(idx, Pow2(log) - 1) == At(idx, 1, Pow2(log))
  {
    if idx + 1 < Pow2(log) {
      BitAndOnes(idx + 1, log);
    } else {
      TrailingZerosOfPow2(log);
      PowerOfTwoTest(Pow2(log));
    }
  }

  /** The d slots from h on are taken by other keys. */
  predicate Path(es: seq<Node>, h: int, key: Word, d: int)
  {
    && 0 <= h < |es| && 0 <= d < |es|
    && forall e :: 0 <= e < d ==> TakenByOther(es, h, e, key)
  }

  predicate TakenByOther(es: seq<Node>, h: int, e: int, key: Word)
  {
    var j := At(h, e, |es|);
    0 <= j < |es| && es[j].Taken? && es[j].key != key
  }

  /** A probe for `key` gets as far as slot j. */
  ghost predicate Reaches(es: seq<Node>, key: Word, j: int)
    requires |es| > 0
  {
    exists d :: ReachesIn(es, key, j, d)
  }

  predicate ReachesIn(es: seq<Node>, key: Word, j: int, d: int)
    requires |es| > 0
  {
    Path(es, Home(key, |es| - 1), key, d) && At(Home(key, |es| - 1), d, |es|) == j
  }

  /** Every key in the table is reached by its own probe. */
  ghost predicate Reachable(es: seq<Node>)
  {
    |es| > 0 && forall j :: 0 <= j < |es| && es[j].Taken? ==> Reaches(es, es[j].key, j)
  }

  /** A probe that ends at a free slot has shown the key absent. */
  lemma StoppedMeansAbsent(es: seq<Node>, key: Word, idx: nat, j: nat)
    requires Reachable(es) && idx < |es| && es[idx].Free? && Reaches(es, key, idx)
    requires j < |es| && es[j].Taken?
    ensures es[j].key != key
  {
    var d :| ReachesIn(es, key, idx, d);
    var dj :| ReachesIn(es, es[j].key, j, dj);
    var h := Home(key, |es| - 1);
    assert dj < d ==> TakenByOther(es, h, dj, key);
    assert d < dj ==> TakenByOther(es, Home(es[j].key, |es| - 1), d, es[j].key);
  }

  /** A key sits in one slot only. */
  lemma OneSlotPerKey(es: seq<Node>, i: nat, j: nat)
    requires Reachable(es) && i < |es| && j < |es| && es[i].Taken? && es[j].Taken? && es[i].key == es[j].key
    ensures i == j
  {
    var di :| ReachesIn(es, es[i].key, i, di);
    var dj :| ReachesIn(es, es[j].key, j, dj);
    var h := Home(es[i].key, |es| - 1);
    assert di < dj ==> TakenByOther(es, h, di, es[j].key);
    assert dj < di ==> TakenByOther(es, h, dj, es[i].key);
  }

  /** Filling the slot where the probe stopped keeps every key reachable. */
  lemma InsertReachable(es: seq<Node>, key: Word, value: Value, idx: nat)
    requires Reachable(es) && idx < |es| && Reaches(es, key, idx)
    requires es[idx].Free? || es[idx].key == key
    ensures Reachable(es[idx := Taken(key, value)])
  {
    hide At, Home;
    var es' := es[idx := Taken(key, value)];
    forall j | 0 <= j < |es'| && es'[j].Taken? ensures Reaches(es', es'[j].key, j) {
      var k := es'[j].key;
      assert Reaches(es, k, j);
      var d :| ReachesIn(es, k, j, d);
      var h := Home(k, |es| - 1);
      forall e | 0 <= e < d ensures TakenByOther(es', h, e, k) {
        assert TakenByOther(es, h, e, k);
      }
      assert ReachesIn(es', k, j, d);
    }
  }

  /** A slot j is met within a full turn from h. */
  lemma MetOnce(h: nat, j: nat, cap: nat) returns (d: nat)
    requires h < cap && j < cap
    ensures d < cap && At(h, d, cap) == j
  {
    d := if j >= h then j - h else j + cap - h;
  }

  // ----- the insertion order -----

  /** `indexes` lists the taken slots, once each, in the order `order` of their keys. */
  ghost predicate Ordered(es: seq<Node>, indexes: seq<nat>, order: seq<Word>)
  {
    && |indexes| == |order|
    && (forall i :: 0 <= i < |indexes| ==> indexes[i] < |es| && es[indexes[i]].Taken? && es[indexes[i]].key == order[i])
    && (forall i, j :: 0 <= i < j < |indexes| ==> indexes[i] != indexes[j])
    && (forall j :: 0 <= j < |es| && es[j].Taken? ==> j in indexes)
  }

  /** The table holds exactly the pairs of m. */
  ghost predicate Holds(es: seq<Node>, m: map<Word, Value>)
  {
    && (forall j :: 0 <= j < |es| && es[j].Taken? ==> es[j].key in m && m[es[j].key] == es[j].value)
    && (forall k :: k in m ==> exists j :: 0 <= j < |es| && es[j].Taken? && es[j].key == k)
  }

  lemma SomeFree(es: seq<Node>, indexes: seq<nat>, order: seq<Word>) returns (j: nat)
    requires Ordered(es, indexes, order) && |indexes| < |es|
    ensures j < |es| && es[j].Free?
  {
    var S := Elements(indexes);
    if Upto(|es|) <= S {
      SubsetSize(Upto(|es|), S);
      assert false;
    }
    j :| j in Upto(|es|) && j !in S;
  }

  /** Adding a new key at the end of the order. */
  lemma AppendOrdered(es: seq<Node>, indexes: seq<nat>, order: seq<Word>, idx: nat, key: Word, value: Value)
    requires Ordered(es, indexes, order) && idx < |es| && es[idx].Free?
    ensures Ordered(es[idx := Taken(key, value)], indexes + [idx], order + [key])
  {
    var es', ix := es[idx := Taken(key, value)], indexes + [idx];
    forall j | 0 <= j < |es'| && es'[j].Taken? ensures j in ix {
      if j != idx { assert j in indexes; }
    }
  }

  lemma InsertHolds(es: seq<Node>, m: map<Word, Value>, idx: nat, key: Word, value: Value)
    requires Reachable(es) && Holds(es, m) && idx < |es|
    requires if es[idx].Free? then key !in m else es[idx].key == key
    ensures Holds(es[idx := Taken(key, value)], m[key := value])
  {
    var es', m' := es[idx := Taken(key, value)], m[key := value];
    forall j | 0 <= j < |es'| && es'[j].Taken? ensures es'[j].key in m' && m'[es'[j].key] == es'[j].value {
      if j != idx && es[j].key == key {
        if es[idx].Taken? { OneSlotPerKey(es, idx, j); }
      }
    }
    forall k | k in m' ensures exists j :: 0 <= j < |es'| && es'[j].Taken? && es'[j].key == k {
      if k == key {
        assert es'[idx].key == k;
      } else {
        var j :| 0 <= j < |es| && es[j].Taken? && es[j].key == k;
        assert es'[j] == es[j];
      }
    }
  }

  lemma OrderKeys(es: seq<Node>, indexes: seq<nat>, order: seq<Word>, m: map<Word, Value>)
    requires Reachable(es) && Ordered(es, indexes, order) && Holds(es, m)
    ensures forall k :: k in order <==> k in m
    ensures forall i, j :: 0 <= i < j < |order| ==> order[i] != order[j]
  {
    forall k | k in m ensures k in order {
      var j :| 0 <= j < |es| && es[j].Taken? && es[j].key == k;
      var i :| 0 <= i < |indexes| && indexes[i] == j;
      assert order[i] == k;
    }
    forall i, j | 0 <= i < j < |order| ensures order[i] != order[j] {
      if order[i] == order[j] { OneSlotPerKey(es, indexes[i], indexes[j]); }
    }
  }
}
