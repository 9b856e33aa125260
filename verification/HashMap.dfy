/**
 The integer-keyed hash map (src/containers.c): open addressing with automatic resize, a one-entry lookup
 cache, scopes through a parent pointer, and iteration in insertion order. Every operation is tied to a
 mathematical map and the list of its keys in first-insertion order. Removal is not modelled.
 */
module HashMap {
  import opened Words
  import opened Probing
  import RoundUp

  /** ULONG_MAX, the mark of an empty cache. */
  const SENTINEL: Word := 0xFFFF_FFFF_FFFF_FFFF

  /** Entries of 32 bytes: an allocation of more than this many cannot succeed. */
  const MAX_CAPACITY: nat := 0x800_0000_0000_0000

  function Threshold(capacity: nat): nat
  {
    capacity * 3 / 5
  }

  lemma ThresholdGrows(capacity: nat, n: nat)
    requires n <= Threshold(capacity) && capacity > 0
    ensures n < Threshold(2 * capacity) < 2 * capacity
  {
  }

  /** The table as a whole: its keys can be found, and it holds m in the order `order`. */
  ghost predicate Table(es: seq<Node>, indexes: seq<nat>, order: seq<Word>, m: map<Word, Value>)
  {
    Reachable(es) && Ordered(es, indexes, order) && Holds(es, m)
  }

  predicate Sized(es: seq<Node>, mask: nat, log: nat)
  {
    |es| == Pow2(log) && mask == |es| - 1
  }

  // ----- probing -----

  lemma StepOn(es: seq<Node>, key: Word, idx: nat, d: nat, free: nat, far: nat)
    requires |es| > 0 && ReachesIn(es, key, idx, d) && idx < |es| && es[idx].Taken? && es[idx].key != key
    requires far < |es| && free < |es| && es[free].Free? && At(Home(key, |es| - 1), far, |es|) == free && d <= far
    ensures d < far && ReachesIn(es, key, At(idx, 1, |es|), d + 1)
  {
    hide Home;
    var h := Home(key, |es| - 1);
    assert TakenByOther(es, h, d, key);
  }

  /** mapGetNextIdx: the slot that holds the key, or the free slot where it belongs. */
  method GetNextIdx(es: seq<Node>, mask: nat, key: Word, ghost log: nat, ghost free: nat)
    returns (idx: nat, isFree: bool)
    requires Sized(es, mask, log) && Reachable(es) && free < |es| && es[free].Free?
    ensures idx < |es| && Reaches(es, key, idx)
    ensures isFree <==> es[idx].Free?
    ensures !isFree ==> es[idx].key == key
    ensures isFree ==> forall j :: 0 <= j < |es| && es[j].Taken? ==> es[j].key != key
  {
    hide Reachable, Home, Next;
    idx := Home(key, mask);
    ghost var d := 0;
    ghost var far := MetOnce(idx, free, |es|);
    while !(es[idx].Free? || es[idx].key == key)
      invariant idx < |es| && ReachesIn(es, key, idx, d) && 0 <= d <= far
      decreases far - d
    {
      StepOn(es, key, idx, d, free, far);
      NextWraps(idx, log);
      idx := Next(idx, mask);
      d := d + 1;
    }
    isFree := es[idx].Free?;
    if isFree {
      forall j | 0 <= j < |es| && es[j].Taken? ensures es[j].key != key {
        StoppedMeansAbsent(es, key, idx, j);
      }
    }
  }

  /** mapGetIdx: finds exactly the keys that are there. */
  method GetIdx(es: seq<Node>, mask: nat, key: Word, ghost log: nat, ghost free: nat) returns (idx: nat, ok: bool)
    requires Sized(es, mask, log) && Reachable(es) && free < |es| && es[free].Free?
    ensures ok ==> idx < |es| && es[idx].Taken? && es[idx].key == key
    ensures !ok ==> idx == 0 && forall j :: 0 <= j < |es| && es[j].Taken? ==> es[j].key != key
  {
    hide Reachable, Home, Next;
    idx := Home(key, mask);
    ghost var d := 0;
    ghost var far := MetOnce(idx, free, |es|);
    while es[idx].Taken?
      invariant idx < |es| && ReachesIn(es, key, idx, d) && 0 <= d <= far
      decreases far - d
    {
      if es[idx].key == key {
        return idx, true;
      }
      StepOn(es, key, idx, d, free, far);
      NextWraps(idx, log);
      idx := Next(idx, mask);
      d := d + 1;
    }
    forall j | 0 <= j < |es| && es[j].Taken? ensures es[j].key != key {
      StoppedMeansAbsent(es, key, idx, j);
    }
    return 0, false;
  }

  // ----- filling a slot -----

  function FreshEntries(capacity: nat): (es: seq<Node>)
    ensures |es| == capacity && forall i :: 0 <= i < capacity ==> es[i].Free?
  {
    seq(capacity, i => Free)
  }

  lemma AllFree(es: seq<Node>)
    requires |es| > 0 && forall i :: 0 <= i < |es| ==> es[i].Free?
    ensures Table(es, [], [], map[])
  {
  }

  lemma Inserted(es: seq<Node>, indexes: seq<nat>, order: seq<Word>, m: map<Word, Value>, idx: nat, key: Word,
                 value: Value)
    requires Table(es, indexes, order, m) && idx < |es| && Reaches(es, key, idx) && es[idx].Free?
    requires forall j :: 0 <= j < |es| && es[j].Taken? ==> es[j].key != key
    ensures key !in m && Table(es[idx := Taken(key, value)], indexes + [idx], order + [key], m[key := value])
  {
    hide Reachable, Ordered;
    InsertReachable(es, key, value, idx);
    AppendOrdered(es, indexes, order, idx, key, value);
    InsertHolds(es, m, idx, key, value);
  }

  lemma Overwritten(es: seq<Node>, indexes: seq<nat>, order: seq<Word>, m: map<Word, Value>, idx: nat, key: Word,
                    value: Value)
    requires Table(es, indexes, order, m) && idx < |es| && Reaches(es, key, idx) && es[idx].Taken? && es[idx].key == key
    ensures key in m && Table(es[idx := Taken(key, value)], indexes, order, m[key := value])
  {
    hide Reachable;
    InsertReachable(es, key, value, idx);
    InsertHolds(es, m, idx, key, value);
    var es' := es[idx := Taken(key, value)];
    forall i | 0 <= i < |indexes|
      ensures indexes[i] < |es'| && es'[indexes[i]].Taken? && es'[indexes[i]].key == order[i]
    {
    }
  }

  // ----- rehashing -----

  /** Every key of the rehashed table so far has its old value. */
  ghost predicate Agrees(part: map<Word, Value>, m: map<Word, Value>)
  {
    forall k :: k in part ==> k in m && part[k] == m[k]
  }

  /** The loop of mapResize: reinserts the entries in the order of `indexes`. */
  method Rehash(es: seq<Node>, indexes: seq<nat>, newCapacity: nat, ghost order: seq<Word>, ghost m: map<Word, Value>,
                ghost log: nat)
    returns (es': seq<Node>, indexes': seq<nat>)
    requires Table(es, indexes, order, m) && newCapacity == Pow2(log) && |indexes| < newCapacity
    ensures |es'| == newCapacity && |indexes'| == |indexes| && Table(es', indexes', order, m)
  {
    hide Reachable, Holds, Reaches;
    es', indexes' := FreshEntries(newCapacity), [];
    AllFree(es');
    ghost var part: map<Word, Value> := map[];
    assert order[..0] == [];
    for i := 0 to |indexes|
      invariant |es'| == newCapacity && |indexes'| == i && Table(es', indexes', order[..i], part) && Agrees(part, m)
    {
      var node := es[indexes[i]];
      ghost var free := SomeFree(es', indexes', order[..i]);
      var idx, isFree := GetNextIdx(es', newCapacity - 1, node.key, log, free);
      NotYetThere(es, indexes, order, m, es', indexes', part, i, idx);
      Inserted(es', indexes', order[..i], part, idx, node.key, node.value);
      es' := es'[idx := Taken(node.key, node.value)];
      indexes' := indexes' + [idx];
      part := part[node.key := node.value];
      assert order[..i + 1] == order[..i] + [node.key];
    }
    assert order[..|indexes|] == order;
    SameMap(es, es', indexes, indexes', order, part, m);
  }

  lemma NotYetThere(es: seq<Node>, indexes: seq<nat>, order: seq<Word>, m: map<Word, Value>, es': seq<Node>,
                    indexes': seq<nat>, part: map<Word, Value>, i: nat, idx: nat)
    requires Table(es, indexes, order, m) && i < |indexes| && Table(es', indexes', order[..i], part)
    requires idx < |es'| && (es'[idx].Taken? ==> es'[idx].key == es[indexes[i]].key)
    ensures es'[idx].Free?
    ensures es[indexes[i]].key in m && m[es[indexes[i]].key] == es[indexes[i]].value && es[indexes[i]].key == order[i]
  {
    KeysInOrder(es, indexes, order, m);
    KeysInOrder(es', indexes', order[..i], part);
    ListedInOrder(es, indexes, order, m, i);
    InModel(es', indexes', order[..i], part, idx);
    hide Table;
    assert order[i] !in order[..i];
  }

  lemma SameMap(es: seq<Node>, es': seq<Node>, indexes: seq<nat>, indexes': seq<nat>, order: seq<Word>,
                part: map<Word, Value>, m: map<Word, Value>)
    requires Table(es, indexes, order, m) && Table(es', indexes', order, part) && Agrees(part, m)
    ensures part == m
  {
    hide Table;
    KeysInOrder(es, indexes, order, m);
    KeysInOrder(es', indexes', order, part);
    assert part.Keys == m.Keys;
  }

  lemma KeysInOrder(es: seq<Node>, indexes: seq<nat>, order: seq<Word>, m: map<Word, Value>)
    requires Table(es, indexes, order, m)
    ensures forall k :: k in m <==> k in order
    ensures forall i, j :: 0 <= i < j < |order| ==> order[i] != order[j]
  {
    OrderKeys(es, indexes, order, m);
  }

  // ----- the map object -----

  datatype Outcome = OutOfBounds | Found(value: Value)

  class Map {
    var size: nat
    var capacity: nat
    var mask: nat
    var threshold: nat
    var entries: seq<Node>
    var indexes: seq<nat>
    var parent: Map?
    var cachedKey: Word
    var cachedIdx: nat

    ghost var log: nat
    ghost var model: map<Word, Value>
    ghost var order: seq<Word>

    ghost predicate Own()
      reads this
    {
      && Sized(entries, mask, log) && |entries| == capacity <= MAX_CAPACITY && threshold == Threshold(capacity)
      && size == |indexes| <= threshold
      && Table(entries, indexes, order, model)
      && (if cachedIdx == SENTINEL then cachedKey == SENTINEL
          else cachedIdx < capacity && entries[cachedIdx].Taken? && entries[cachedIdx].key == cachedKey)
    }

    /** mapNew, mapNewWithParent. A request for no entries yields a table without slots, whose mask lets every probe
        leave it: the map can be used exactly if at least one was asked for. */
    constructor (wanted: Word, scope: Map?)
      requires wanted <= MAX_CAPACITY
      ensures Own() <==> wanted >= 1
      ensures model == map[] && order == [] && parent == scope
      ensures wanted >= 1 ==> wanted <= capacity && (capacity > 1 ==> capacity / 2 < wanted)
      ensures wanted == 0 ==> capacity == 0 && entries == [] && mask == SENTINEL
    {
      hide Table, Pow2, RoundUp.Rounded, Wrap;
      ghost var n := RoundUp.RoundsUp(wanted);
      if wanted >= 1 { CapacityBound(wanted, n); }
      var c: int := RoundUp.Rounded(wanted);
      MaskOf(c);
      NoSlots(n);
      capacity, mask, size, threshold := c, Wrap(c - 1), 0, Threshold(c);
      entries, indexes, parent := FreshEntries(c), [], scope;
      cachedKey, cachedIdx := SENTINEL, SENTINEL;
      log, model, order := n, map[], [];
      if wanted >= 1 { AllFree(FreshEntries(c)); }
    }

    /** mapResize; `room` says whether the allocations succeed. */
    method Resize(room: bool) returns (ok: bool)
      requires Own() && (room ==> 2 * capacity <= MAX_CAPACITY)
      modifies this
      ensures Own() && ok == room && parent == old(parent) && model == old(model) && order == old(order)
      ensures ok ==> size < threshold && size == old(size)
      ensures !ok ==> unchanged(this)
    {
      hide Table, Reaches, Threshold;
      if !room { return false; }
      var newCapacity := 2 * capacity;
      ThresholdGrows(capacity, |indexes|);
      var es, ix := Rehash(entries, indexes, newCapacity, order, model, log + 1);
      mask, entries, capacity, indexes := newCapacity - 1, es, newCapacity, ix;
      size, threshold := |ix|, Threshold(newCapacity);
      cachedKey, cachedIdx := SENTINEL, SENTINEL;
      log := log + 1;
      ok := true;
    }

    /** mapAdd: the key now has this value; a new key comes last in the order. */
    method Add(key: Word, value: Value, room: bool) returns (ok: bool)
      requires Own() && (room ==> 2 * capacity <= MAX_CAPACITY)
      modifies this
      ensures Own() && parent == old(parent) && (ok <==> old(size < threshold) || room)
      ensures model == if ok then old(model)[key := value] else old(model)
      ensures order == if ok && key !in old(model) then old(order) + [key] else old(order)
    {
      hide Table, Reachable, Reaches, Sized;
      if size >= threshold {
        var grown := Resize(room);
        if !grown { return false; }
      }
      var idx, isFree := Locate(key);
      if isFree {
        Inserted(entries, indexes, order, model, idx, key, value);
        indexes := indexes + [idx];
        size := size + 1;
        order := order + [key];
      } else {
        Overwritten(entries, indexes, order, model, idx, key, value);
      }
      CacheKept(entries, cachedIdx, cachedKey, idx, key, value);
      StillSized(entries, mask, log, idx, Taken(key, value));
      entries := entries[idx := Taken(key, value)];
      model := model[key := value];
      ok := true;
    }

    /** mapAddOrErr: like Add, but refuses a key that is there. */
    method AddOrErr(key: Word, value: Value, room: bool) returns (ok: bool)
      requires Own() && (room ==> 2 * capacity <= MAX_CAPACITY)
      modifies this
      ensures Own() && parent == old(parent) && (ok <==> (old(size < threshold) || room) && key !in old(model))
      ensures model == if ok then old(model)[key := value] else old(model)
      ensures order == if ok then old(order) + [key] else old(order)
    {
      hide Table, Reachable, Reaches, Sized;
      if size >= threshold {
        var grown := Resize(room);
        if !grown { return false; }
      }
      var idx, isFree := Locate(key);
      if isFree {
        Inserted(entries, indexes, order, model, idx, key, value);
        indexes := indexes + [idx];
        order := order + [key];
        CacheKept(entries, cachedIdx, cachedKey, idx, key, value);
        StillSized(entries, mask, log, idx, Taken(key, value));
        entries := entries[idx := Taken(key, value)];
        size := size + 1;
        model := model[key := value];
        return true;
      }
      Overwritten(entries, indexes, order, model, idx, key, value);
      return false;
    }

    method Locate(key: Word) returns (idx: nat, isFree: bool)
      requires Own()
      ensures idx < |entries| && Reaches(entries, key, idx) && (isFree <==> entries[idx].Free?)
      ensures !isFree ==> entries[idx].key == key
      ensures isFree ==> forall j :: 0 <= j < |entries| && entries[j].Taken? ==> entries[j].key != key
    {
      hide Reachable, Reaches;
      ghost var free := SomeFree(entries, indexes, order);
      idx, isFree := GetNextIdx(entries, mask, key, log, free);
    }

    method Find(key: Word) returns (idx: nat, ok: bool)
      requires Own()
      ensures ok <==> key in model
      ensures ok ==>
        idx < |entries| && entries[idx].Taken? && entries[idx].key == key && entries[idx].value == model[key]
    {
      hide Reachable, Reaches;
      ghost var free := SomeFree(entries, indexes, order);
      idx, ok := GetIdx(entries, mask, key, log, free);
    }

    /** mapHas: this scope only. */
    method Has(key: Word) returns (yes: bool)
      requires Own()
      modifies this`cachedKey, this`cachedIdx
      ensures Own() && (yes <==> key in model)
    {
      hide Table, Reachable;
      var idx, ok := Find(key);
      if !ok { return false; }
      Remember(key, idx);
      return true;
    }

    /**
     mapGet: the nearest scope that has the key decides. Asking for ULONG_MAX while the cache is empty
     takes the empty cache for a hit and reads outside the table.
     */
    method Get(key: Word, ghost scopes: seq<Map>) returns (r: Outcome, ghost at: nat)
      requires Chain(scopes) && scopes[0] == this
      modifies scopes
      ensures Chain(scopes)
      ensures forall m :: m in scopes ==>
                m.model == old(m.model) && m.order == old(m.order) && m.entries == old(m.entries)
      ensures r.OutOfBounds? <==> key == SENTINEL && old(cachedIdx) == SENTINEL
      ensures r.Found? ==> Decides(scopes, key, at, r.value)
    {
      hide Table, Reachable, Sized;
      if cachedKey == key {
        if cachedIdx == SENTINEL { return OutOfBounds, 0; }
        var n := entries[cachedIdx];
        if n.Taken? {
          InModel(entries, indexes, order, model, cachedIdx);
          return Found(n.value), 0;
        }
      }
      var home, idx;
      home, idx, at := Search(key, scopes);
      if home == null { return Found(0), at; }
      var n := home.entries[idx];
      home.Remember(n.key, idx);
      return Found(n.value), at;
    }

    /** The walk outwards through the scopes. */
    method Search(key: Word, ghost scopes: seq<Map>) returns (cur: Map?, idx: nat, ghost at: nat)
      requires Chain(scopes) && scopes[0] == this
      ensures at <= |scopes| && cur == (if at < |scopes| then scopes[at] else null)
      ensures forall j :: 0 <= j < at ==> key !in scopes[j].model
      ensures cur != null ==> key in cur.model && idx < |cur.entries| && cur.entries[idx].Taken?
                              && cur.entries[idx].key == key && cur.entries[idx].value == cur.model[key]
    {
      hide Table, Reachable, Sized;
      at, idx := 0, 0;
      cur := this;
      while cur != null
        invariant at <= |scopes| && cur == (if at < |scopes| then scopes[at] else null)
        invariant forall j :: 0 <= j < at ==> key !in scopes[j].model
        decreases |scopes| - at
      {
        var ok;
        idx, ok := cur.Find(key);
        if ok { return; }
        NextScope(scopes, at);
        cur := cur.parent;
        at := at + 1;
      }
    }

    method Remember(key: Word, idx: nat)
      requires Own() && idx < capacity && entries[idx].Taken? && entries[idx].key == key
      modifies this`cachedKey, this`cachedIdx
      ensures Own()
    {
      cachedKey, cachedIdx := key, idx;
    }

    /** mapClear */
    method Clear()
      requires Own()
      modifies this
      ensures Own() && model == map[] && order == [] && parent == old(parent) && capacity == old(capacity)
    {
      hide Table, Reachable, Holds;
      var i := 0;
      TakenAreListed(entries, indexes, order, model);
      while i < |indexes|
        invariant 0 <= i <= |indexes| && |entries| == old(|entries|) && indexes == old(indexes)
        invariant forall j :: 0 <= j < |entries| && entries[j].Taken? ==> j in indexes[i..]
        invariant size == old(size) && capacity == old(capacity) && mask == old(mask) && threshold == old(threshold)
        invariant log == old(log) && parent == old(parent)
        invariant forall k :: 0 <= k < |indexes| ==> indexes[k] < |entries|
      {
        var idx := indexes[i];
        assert indexes[i..] == [idx] + indexes[i + 1..];
        if entries[idx].Taken? {
          entries := entries[idx := Free];
        }
        i := i + 1;
      }
      size, indexes := 0, [];
      cachedKey, cachedIdx := SENTINEL, SENTINEL;
      model, order := map[], [];
      AllFree(entries);
    }
  }

  /** A map and its enclosing scopes, innermost first. */
  ghost predicate Chain(scopes: seq<Map>)
    reads scopes
  {
    && |scopes| > 0
    && (forall i, j :: 0 <= i < j < |scopes| ==> scopes[i] != scopes[j])
    && forall i :: 0 <= i < |scopes| ==>
         scopes[i].Own() && scopes[i].parent == if i + 1 < |scopes| then scopes[i + 1] else null
  }

  lemma NextScope(scopes: seq<Map>, i: nat)
    requires Chain(scopes) && i < |scopes|
    ensures scopes[i].parent == if i + 1 < |scopes| then scopes[i + 1] else null
  {
    hide Table, Sized;
  }

  /** The scope number `at` is the first to have the key, and gives the value; none has it and the value is null. */
  ghost predicate Decides(scopes: seq<Map>, key: Word, at: nat, value: Value)
    reads scopes
  {
    && at <= |scopes| && (forall j :: 0 <= j < at ==> key !in scopes[j].model)
    && if at < |scopes| then key in scopes[at].model && value == scopes[at].model[key] else value == 0
  }

  lemma InModel(es: seq<Node>, indexes: seq<nat>, order: seq<Word>, m: map<Word, Value>, j: nat)
    requires Table(es, indexes, order, m) && j < |es|
    ensures es[j].Taken? ==> es[j].key in m && m[es[j].key] == es[j].value
  {
  }

  lemma TakenAreListed(es: seq<Node>, indexes: seq<nat>, order: seq<Word>, m: map<Word, Value>)
    requires Table(es, indexes, order, m)
    ensures forall j :: 0 <= j < |es| && es[j].Taken? ==> j in indexes
    ensures forall k :: 0 <= k < |indexes| ==> indexes[k] < |es|
  {
  }

  /** mapIterInit and mapIterNext. */
  class MapIter {
    const map_: Map
    var idx: nat
    var vecidx: nat
    var node: Node

    constructor (m: Map)
      ensures map_ == m && idx == 0 && vecidx == 0
    {
      map_, idx, vecidx, node := m, 0, 0, Free;
    }

    /** The next key in first-insertion order, with its current value. */
    method Next() returns (more: bool)
      requires map_.Own() && vecidx <= |map_.order|
      modifies this
      ensures more <==> old(vecidx) < |map_.order|
      ensures more ==> vecidx == old(vecidx) + 1 && idx == old(idx) + 1 && node.Taken?
                       && node.key == map_.order[old(vecidx)]
                       && node.key in map_.model && node.value == map_.model[node.key]
      ensures !more ==> vecidx == old(vecidx)
    {
      hide Table;
      AllTaken(map_.entries, map_.indexes, map_.order, map_.model);
      while vecidx < |map_.indexes|
        invariant old(vecidx) <= vecidx <= |map_.indexes| && idx == old(idx)
        invariant forall k :: old(vecidx) <= k < vecidx ==> !TakenAt(map_.entries, map_.indexes, k)
        decreases |map_.indexes| - vecidx
      {
        var i := map_.indexes[vecidx];
        var n := map_.entries[i];
        vecidx := vecidx + 1;
        if n.Taken? {
          ListedInOrder(map_.entries, map_.indexes, map_.order, map_.model, old(vecidx));
          idx := idx + 1;
          node := n;
          return true;
        }
      }
      if old(vecidx) < |map_.order| {
        ListedInOrder(map_.entries, map_.indexes, map_.order, map_.model, old(vecidx));
      }
      return false;
    }
  }

  predicate TakenAt(es: seq<Node>, indexes: seq<nat>, k: int)
  {
    0 <= k < |indexes| && indexes[k] < |es| && es[indexes[k]].Taken?
  }

  lemma AllTaken(es: seq<Node>, indexes: seq<nat>, order: seq<Word>, m: map<Word, Value>)
    requires Table(es, indexes, order, m)
    ensures |indexes| == |order| && forall k :: 0 <= k < |indexes| ==> indexes[k] < |es|
  {
  }

  lemma ListedInOrder(es: seq<Node>, indexes: seq<nat>, order: seq<Word>, m: map<Word, Value>, k: nat)
    requires Table(es, indexes, order, m) && k < |order|
    ensures TakenAt(es, indexes, k) && es[indexes[k]].key == order[k]
    ensures order[k] in m && m[order[k]] == es[indexes[k]].value
  {
  }

  /** Going through an iterator yields every key of the map once, in first-insertion order. */
  method Items(m: Map) returns (items: seq<Node>)
    requires m.Own()
    ensures |items| == |m.order| && forall i :: 0 <= i < |items| ==> Item(items[i], m.order[i], m.model)
    ensures forall k :: k in m.model <==> k in m.order
    ensures forall i, j :: 0 <= i < j < |m.order| ==> m.order[i] != m.order[j]
  {
    hide Table, Reachable, Ordered, Holds;
    var it := new MapIter(m);
    items := [];
    KeysInOrder(m.entries, m.indexes, m.order, m.model);
    var more := it.Next();
    while more
      invariant m.Own() && it.map_ == m && fresh(it) && it.vecidx <= |m.order|
      invariant more ==> it.vecidx == |items| + 1 && Item(it.node, m.order[|items|], m.model)
      invariant !more ==> |items| == |m.order|
      invariant forall i :: 0 <= i < |items| ==> i < |m.order| && Item(items[i], m.order[i], m.model)
      decreases |m.order| - |items|
    {
      items := items + [it.node];
      more := it.Next();
    }
  }

  predicate Item(n: Node, key: Word, m: map<Word, Value>)
  {
    n.Taken? && n.key == key && key in m && n.value == m[key]
  }

  lemma MaskOf(c: Word)
    ensures Wrap(c - 1) == if c == 0 then SENTINEL else c - 1
  {
  }

  lemma NoSlots(log: nat)
    ensures Pow2(log) != 0
  {
  }

  lemma CapacityBound(v: Word, n: nat)
    requires 1 <= v <= MAX_CAPACITY && v <= Pow2(n) && (n > 0 ==> Pow2(n - 1) < v)
    ensures 1 <= Pow2(n) <= MAX_CAPACITY && (n > 0 ==> Pow2(n) / 2 < v) && (Pow2(n) > 1 ==> n > 0)
  {
    Pow2At59();
    if n > 59 { Pow2Monotone(59, n - 1); }
    Pow2Monotone(n, if n > 59 then n else 59);
  }

  lemma Pow2At59()
    ensures Pow2(59) == MAX_CAPACITY
  {
    Pow2At64();
    assert Pow2(64) == 32 * Pow2(59);
  }

  lemma CacheKept(es: seq<Node>, cachedIdx: nat, cachedKey: Word, idx: nat, key: Word, value: Value)
    requires idx < |es| && (es[idx].Free? || es[idx].key == key) && cachedIdx < |es| ==>
      es[cachedIdx].Taken? && es[cachedIdx].key == cachedKey
    requires idx < |es|
    ensures var es' := es[idx := Taken(key, value)];
            (es[idx].Free? || es[idx].key == key) && cachedIdx < |es| ==>
              es'[cachedIdx].Taken? && es'[cachedIdx].key == cachedKey
  {
  }

  lemma StillSized(es: seq<Node>, mask: nat, log: nat, idx: nat, node: Node)
    requires Sized(es, mask, log) && idx < |es|
    ensures Sized(es[idx := node], mask, log)
  {
  }
}
