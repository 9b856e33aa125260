/**
 Stack slots for temporaries (the linear-scan part of irCgAllocAllTmps): recording of textual live
 ranges, first-fit assignment of slots in order of first reference, and why that is both sound and
 as small as possible.
 */
module SlotAlloc {
  import opened Finite

  /** A temporary and the first and last position that mention it. */
  datatype Range = Range(id: nat, first: int, last: int)

  predicate Covers(r: Range, pos: int)
  {
    r.first <= pos <= r.last
  }

  predicate Disjoint(r: Range, q: Range)
  {
    r.last < q.first || q.last < r.first
  }

  // ----- recording references -----

  /** What the recorder knows after some instructions: exactly the temporaries mentioned, each with
      its extreme positions. */
  ghost predicate Records(ranges: map<nat, Range>, refs: seq<set<nat>>)
  {
    && (forall t :: t in ranges <==> exists p :: 0 <= p < |refs| && t in refs[p])
    && (forall t :: t in ranges ==>
          var r := ranges[t];
          && r.id == t && 0 <= r.first <= r.last < |refs| && t in refs[r.first] && t in refs[r.last]
          && forall p :: 0 <= p < |refs| && t in refs[p] ==> Covers(r, p))
  }

  /** irCgRecordRef */
  function Record(ranges: map<nat, Range>, t: nat, pos: int): map<nat, Range>
  {
    if t !in ranges then ranges[t := Range(t, pos, pos)]
    else
      var r := ranges[t];
      var r1 := if pos < r.first then r.(first := pos) else r;
      ranges[t := if pos > r1.last then r1.(last := pos) else r1]
  }

  /** The recording loop: one position per instruction that is not a NOP. */
  method RecordAll(refs: seq<set<nat>>) returns (ranges: map<nat, Range>)
    ensures Records(ranges, refs)
  {
    ranges := map[];
    var pos := 0;
    while pos < |refs|
      invariant 0 <= pos <= |refs| && Records(ranges, refs[..pos])
    {
      var todo := refs[pos];
      NothingRecordedYet(ranges, refs[..pos]);
      assert refs[pos] - todo == {};
      while todo != {}
        invariant todo <= refs[pos] && Records(ranges, refs[..pos] + [refs[pos] - todo])
        decreases todo
      {
        var t :| t in todo;
        RecordOne(ranges, refs[..pos], refs[pos] - todo, t);
        ranges := Record(ranges, t, pos);
        assert refs[pos] - todo + {t} == refs[pos] - (todo - {t});
        todo := todo - {t};
      }
      assert refs[..pos] + [refs[pos] - {}] == refs[..pos + 1] by { assert refs[pos] - {} == refs[pos]; }
      pos := pos + 1;
    }
    assert refs[..pos] == refs;
  }

  lemma NothingRecordedYet(ranges: map<nat, Range>, done: seq<set<nat>>)
    requires Records(ranges, done)
    ensures Records(ranges, done + [{}])
  {
    var after := done + [{}];
    forall x ensures x in ranges <==> exists p :: 0 <= p < |after| && x in after[p] {
      if x in ranges {
        var p :| 0 <= p < |done| && x in done[p];
        assert x in after[p];
      } else {
        assert forall p :: 0 <= p < |done| ==> x !in done[p] && after[p] == done[p];
      }
    }
  }

  lemma RecordOne(ranges: map<nat, Range>, done: seq<set<nat>>, seen: set<nat>, t: nat)
    requires Records(ranges, done + [seen])
    ensures Records(Record(ranges, t, |done|), done + [seen + {t}])
  {
    RecordedNames(ranges, done, seen, t);
    var before, after, m := done + [seen], done + [seen + {t}], Record(ranges, t, |done|);
    forall x | x in m
      ensures var r := m[x];
              && r.id == x && 0 <= r.first <= r.last < |after| && x in after[r.first] && x in after[r.last]
              && forall p :: 0 <= p < |after| && x in after[p] ==> Covers(r, p)
    {
      if x in ranges {
        assert x in before[ranges[x].first] && x in before[ranges[x].last];
        assert x in after[ranges[x].first] && x in after[ranges[x].last];
      }
      forall p | 0 <= p < |after| && x in after[p] ensures Covers(m[x], p) {
        if p < |done| { assert x in before[p]; }
      }
    }
  }

  lemma RecordedNames(ranges: map<nat, Range>, done: seq<set<nat>>, seen: set<nat>, t: nat)
    requires Records(ranges, done + [seen])
    ensures forall x :: x in Record(ranges, t, |done|) <==>
              exists p :: 0 <= p < |done| + 1 && x in (done + [seen + {t}])[p]
  {
    var before, after := done + [seen], done + [seen + {t}];
    assert Record(ranges, t, |done|).Keys == ranges.Keys + {t};
    assert t in after[|done|];
    forall x | x in ranges ensures exists p :: 0 <= p < |after| && x in after[p] {
      var p :| 0 <= p < |before| && x in before[p];
      assert x in after[p];
    }
    forall p, x | 0 <= p < |after| && x in after[p] && x != t ensures x in ranges {
      assert x in before[p];
    }
  }

  // ----- the order of the scan -----

  predicate Before(r: Range, q: Range)
  {
    r.first < q.first || (r.first == q.first && r.last <= q.last)
  }

  predicate Sorted(a: seq<Range>)
  {
    forall i, j :: 0 <= i < j < |a| ==> Before(a[i], a[j])
  }

  predicate WellFormed(a: seq<Range>)
  {
    forall i :: 0 <= i < |a| ==> a[i].first <= a[i].last
  }

  /** The comparison irCgRangeCmp orders by; the library sort is any sort by it. */
  function Insert(a: seq<Range>, r: Range): seq<Range>
  {
    if a == [] || Before(r, a[0]) then [r] + a else [a[0]] + Insert(a[1..], r)
  }

  function Sort(a: seq<Range>): seq<Range>
  {
    if a == [] then [] else Insert(Sort(a[1..]), a[0])
  }

  lemma {:induction false} InsertSorted(a: seq<Range>, r: Range)
    requires Sorted(a)
    ensures Sorted(Insert(a, r)) && multiset(Insert(a, r)) == multiset(a) + multiset{r}
    decreases |a|
  {
    if a == [] || Before(r, a[0]) {
    } else {
      InsertSorted(a[1..], r);
      var rest := Insert(a[1..], r);
      assert a == [a[0]] + a[1..];
      forall j | 0 <= j < |rest| ensures Before(a[0], rest[j]) {
        assert rest[j] in multiset(rest);
        assert rest[j] in multiset(a[1..]) + multiset{r};
        if rest[j] != r { assert rest[j] in a[1..]; }
      }
    }
  }

  lemma {:induction false} SortSorts(a: seq<Range>)
    ensures Sorted(Sort(a)) && multiset(Sort(a)) == multiset(a)
    decreases |a|
  {
    if a != [] {
      SortSorts(a[1..]);
      InsertSorted(Sort(a[1..]), a[0]);
      assert a == [a[0]] + a[1..];
    }
  }

  // ----- first fit -----

  /** Ranges that share a slot do not overlap. */
  predicate Sound(a: seq<Range>, slot: seq<nat>)
  {
    |slot| == |a| && forall i, j :: 0 <= i < j < |a| && slot[i] == slot[j] ==> Disjoint(a[i], a[j])
  }

  function Covering(a: seq<Range>, pos: int): set<nat>
  {
    set i | 0 <= i < |a| && Covers(a[i], pos)
  }

  /** Some position is covered by n ranges at once. */
  ghost predicate Peak(a: seq<Range>, n: nat)
  {
    exists pos: int :: |Covering(a, pos)| >= n
  }

  /** First-fit choice: the lowest slot whose holder is past, or a new one. */
  method Choose(last: seq<int>, first: int) returns (s: nat)
    ensures s <= |last|
    ensures s < |last| ==> last[s] < first
    ensures forall k :: 0 <= k < s ==> last[k] >= first
  {
    s := 0;
    while s < |last| && last[s] >= first
      invariant s <= |last| && forall k :: 0 <= k < s ==> last[k] >= first
    {
      s := s + 1;
    }
  }

  /** What holds after the ranges a[..i] have been placed. `holder[s]` is the last range put in slot s. */
  ghost predicate Placed(a: seq<Range>, slot: seq<nat>, last: seq<int>, holder: seq<nat>)
  {
    && |slot| <= |a| && |holder| == |last|
    && (forall j :: 0 <= j < |slot| ==> slot[j] < |last| && a[j].last <= last[slot[j]])
    && (forall s :: 0 <= s < |last| ==>
          holder[s] < |slot| && slot[holder[s]] == s && last[s] == a[holder[s]].last)
    && Sound(a[..|slot|], slot)
  }

  /**
   The colouring loop. Ranges sharing a slot are disjoint; and the number of slots opened is exactly the
   largest number of ranges that cover one position.
   */
  method Colour(a: seq<Range>) returns (slot: seq<nat>, slots: nat)
    requires Sorted(a) && WellFormed(a)
    ensures Sound(a, slot)
    ensures forall i :: 0 <= i < |a| ==> slot[i] < slots
    ensures Peak(a, slots)
    ensures forall pos: int :: |Covering(a, pos)| <= slots
  {
    hide Placed, Peak, Sound, Covering, Sorted, WellFormed;
    slot := [];
    var last: seq<int> := [];
    ghost var holder: seq<nat> := [];
    NoPeak(a);
    while |slot| < |a|
      invariant |slot| <= |a| && Placed(a, slot, last, holder) && Peak(a, |last|)
    {
      var i := |slot|;
      PlacedSizes(a, slot, last, holder);
      var s := Choose(last, a[i].first);
      if s == |last| {
        Opened(a, slot, last, holder);
        slot, last, holder := slot + [s], last + [a[i].last], holder + [i];
      } else {
        Reused(a, slot, last, holder, s);
        slot, last, holder := slot + [s], last[s := a[i].last], holder[s := i];
      }
    }
    AllPlaced(a, slot, last, holder);
    slots := |last|;
    forall pos: int ensures |Covering(a, pos)| <= slots {
      SoundNeedsSlots(a, slot, slots, pos);
    }
  }

  lemma PlacedSizes(a: seq<Range>, slot: seq<nat>, last: seq<int>, holder: seq<nat>)
    requires Placed(a, slot, last, holder)
    ensures |holder| == |last|
  {
  }

  lemma AllPlaced(a: seq<Range>, slot: seq<nat>, last: seq<int>, holder: seq<nat>)
    requires Placed(a, slot, last, holder) && |slot| == |a|
    ensures Sound(a, slot) && forall i :: 0 <= i < |a| ==> slot[i] < |last|
  {
    assert a[..|slot|] == a;
  }

  lemma NoPeak(a: seq<Range>)
    ensures Peak(a, 0) && Placed(a, [], [], [])
  {
    assert |Covering(a, 0)| >= 0;
  }

  lemma PrefixSound(a: seq<Range>, slot: seq<nat>, i: nat, s: nat)
    requires i < |a| && |slot| == i && Sound(a[..i], slot)
    requires forall j :: 0 <= j < i && slot[j] == s ==> a[j].last < a[i].first
    ensures Sound(a[..i + 1], slot + [s])
  {
    var b, t := a[..i + 1], slot + [s];
    forall j, k | 0 <= j < k < |b| && t[j] == t[k] ensures Disjoint(b[j], b[k]) {
      if k < i { assert Disjoint(a[..i][j], a[..i][k]); }
    }
  }

  lemma Reused(a: seq<Range>, slot: seq<nat>, last: seq<int>, holder: seq<nat>, s: nat)
    requires Sorted(a) && WellFormed(a) && Placed(a, slot, last, holder) && |slot| < |a|
    requires s < |last| && last[s] < a[|slot|].first
    ensures var i := |slot|; Placed(a, slot + [s], last[s := a[i].last], holder[s := i])
  {
    var i := |slot|;
    PrefixSound(a, slot, i, s);
    var slot', last', holder' := slot + [s], last[s := a[i].last], holder[s := i];
    forall j | 0 <= j < |slot'| ensures slot'[j] < |last'| && a[j].last <= last'[slot'[j]] {
      if j < i && slot[j] == s { assert a[j].last <= last[s] < a[i].first <= a[i].last; }
    }
    forall k | 0 <= k < |last'|
      ensures holder'[k] < |slot'| && slot'[holder'[k]] == k && last'[k] == a[holder'[k]].last
    {
    }
  }

  /** A slot is opened only when every existing slot is held by a range that covers the new one's start. */
  lemma Opened(a: seq<Range>, slot: seq<nat>, last: seq<int>, holder: seq<nat>)
    requires Sorted(a) && WellFormed(a) && Placed(a, slot, last, holder) && |slot| < |a|
    requires forall k :: 0 <= k < |last| ==> last[k] >= a[|slot|].first
    ensures var i := |slot|;
            Placed(a, slot + [|last|], last + [a[i].last], holder + [i]) && Peak(a, |last| + 1)
  {
    var i := |slot|;
    PrefixSound(a, slot, i, |last|);
    OpenedPeak(a, slot, last, holder);
    hide Sound, Peak;
    assert Placed(a, slot + [|last|], last + [a[i].last], holder + [i]);
  }

  lemma OpenedPeak(a: seq<Range>, slot: seq<nat>, last: seq<int>, holder: seq<nat>)
    requires Sorted(a) && WellFormed(a) && Placed(a, slot, last, holder) && |slot| < |a|
    requires forall k :: 0 <= k < |last| ==> last[k] >= a[|slot|].first
    ensures Peak(a, |last| + 1)
  {
    hide Sound, Peak;
    var i := |slot|;
    var all := holder + [i];
    forall k | 0 <= k < |all| ensures all[k] < |a| && Covers(a[all[k]], a[i].first) {
      if k < |holder| {
        assert all[k] == holder[k] && last[k] == a[holder[k]].last;
        assert Before(a[holder[k]], a[i]);
      }
    }
    assert forall j, k :: 0 <= j < k < |holder| ==> slot[holder[j]] == j && slot[holder[k]] == k;
    CoveredBy(a, all, a[i].first);
  }

  /** As many ranges as `all` lists meet at `pos`. */
  lemma CoveredBy(a: seq<Range>, all: seq<nat>, pos: int)
    requires forall k :: 0 <= k < |all| ==> all[k] < |a| && Covers(a[all[k]], pos)
    requires forall i, j :: 0 <= i < j < |all| ==> all[i] != all[j]
    ensures Peak(a, |all|)
  {
    DistinctCount(all);
    SubsetSize(Elements(all), Covering(a, pos));
  }

  // ----- no assignment can do with fewer -----

  /** Whatever way slots are shared soundly, ranges covering one position sit in different slots. */
  lemma SoundNeedsSlots(a: seq<Range>, slot: seq<nat>, n: nat, pos: int)
    requires Sound(a, slot) && forall i :: 0 <= i < |a| ==> slot[i] < n
    ensures |Covering(a, pos)| <= n
  {
    var C := Covering(a, pos);
    var f := map i | i in C :: slot[i];
    forall x, y | x in C && y in C && x != y ensures f[x] != f[y] {
      assert Covers(a[x], pos) && Covers(a[y], pos);
    }
    ImageSize(C, f);
    forall v | v in f.Values ensures v in Upto(n) {
      var i :| i in f && f[i] == v;
    }
    SubsetSize(f.Values, Upto(n));
  }

  /** Linear scan is optimal: every sound assignment of slots needs at least as many. */
  lemma NoSoundAssignmentIsSmaller(a: seq<Range>, slots: nat, other: seq<nat>, n: nat)
    requires Peak(a, slots)
    requires Sound(a, other) && forall i :: 0 <= i < |a| ==> other[i] < n
    ensures slots <= n
  {
    var pos: int :| |Covering(a, pos)| >= slots;
    SoundNeedsSlots(a, other, n, pos);
  }
}
