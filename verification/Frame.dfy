/**
 Frame layout: locals, the hidden out-pointer, parameters and the argument count are placed by
 irCgComputeAstLayout; below them irCgAllocAllTmps puts alloca'd buffers and then the slots shared by
 temporaries. Offsets are relative to the frame pointer and negative.
 */
module Frame {
  import opened Options
  import opened SlotAlloc
  import opened Regions

  /** `skipped`: pinned to a register, or no longer mentioned by any instruction. */
  datatype LocalDecl = LocalDecl(size: nat, skipped: bool)
  datatype ParamDecl = VarArgs | Plain(size: nat, skipped: bool)

  datatype FuncDecl = FuncDecl(locals: seq<LocalDecl>, params: seq<ParamDecl>, hiddenOut: bool, variadicOnStack: bool)

  datatype Layout = Layout(locals: seq<Option<int>>, hidden: Option<int>, params: seq<Option<int>>, total: nat)

  // ----- running totals -----

  function LocalBytes(ls: seq<LocalDecl>, n: nat): nat
    requires n <= |ls|
  {
    if n == 0 then 0 else LocalBytes(ls, n - 1) + (if ls[n - 1].skipped then 0 else ls[n - 1].size)
  }

  function LocalSpace(ls: seq<LocalDecl>, n: nat): nat
    requires n <= |ls|
  {
    if n == 0 then 0 else LocalSpace(ls, n - 1) + (if ls[n - 1].skipped then 0 else Round8(ls[n - 1].size))
  }

  /** The bytes a parameter takes in the frame; a variadic list takes a slot for its count, or none. */
  function ParamSize(p: ParamDecl, onStack: bool): nat
  {
    match p
    case VarArgs => if onStack then 0 else 8
    case Plain(size, skipped) => if skipped then 0 else Round8(size)
  }

  predicate HasSlot(p: ParamDecl, onStack: bool)
  {
    match p
    case VarArgs => !onStack
    case Plain(_, skipped) => !skipped
  }

  function ParamSpace(ps: seq<ParamDecl>, onStack: bool, n: nat): nat
    requires n <= |ps|
  {
    if n == 0 then 0 else ParamSpace(ps, onStack, n - 1) + ParamSize(ps[n - 1], onStack)
  }

  function HiddenSize(f: FuncDecl): nat
  {
    if f.hiddenOut then 8 else 0
  }

  function Total(f: FuncDecl): nat
  {
    LocalSpace(f.locals, |f.locals|) + HiddenSize(f) + ParamSpace(f.params, f.variadicOnStack, |f.params|)
  }

  /** Locals pile downward from the frame pointer. */
  predicate LocalsAt(offsets: seq<Option<int>>, ls: seq<LocalDecl>, n: nat)
    requires n <= |ls|
  {
    && |offsets| == n
    && forall i :: 0 <= i < n ==>
         offsets[i] == if ls[i].skipped then None else Some(0 - LocalBytes(ls, i + 1))
  }

  /** Parameters pile upward from `bottom` bytes below the frame pointer. */
  predicate ParamsAt(offsets: seq<Option<int>>, ps: seq<ParamDecl>, onStack: bool, bottom: int, n: nat)
    requires n <= |ps|
  {
    && |offsets| == n
    && forall i :: 0 <= i < n ==>
         offsets[i] == if HasSlot(ps[i], onStack) then Some(0 - (bottom - ParamSpace(ps, onStack, i))) else None
  }

  predicate Describes(l: Layout, f: FuncDecl)
  {
    && l.total == Total(f)
    && LocalsAt(l.locals, f.locals, |f.locals|)
    && l.hidden == (if f.hiddenOut then Some(0 - Total(f)) else None)
    && ParamsAt(l.params, f.params, f.variadicOnStack, Total(f) - HiddenSize(f), |f.params|)
  }

  lemma ParamStep(ps: seq<ParamDecl>, onStack: bool, i: nat)
    requires i <= |ps|
    ensures ParamSpace(ps, onStack, 0) == 0
    ensures i < |ps| ==> ParamSpace(ps, onStack, i + 1) == ParamSpace(ps, onStack, i) + ParamSize(ps[i], onStack)
    ensures i < |ps| && !HasSlot(ps[i], onStack) ==> ParamSize(ps[i], onStack) == 0
  {
  }

  /** The first loop of irCgComputeAstLayout: the space locals take and the offset of each. */
  method PlaceLocals(ls: seq<LocalDecl>) returns (offsets: seq<Option<int>>, total: nat)
    ensures LocalsAt(offsets, ls, |ls|) && total == LocalSpace(ls, |ls|)
  {
    hide Round8;
    var newOffset := 0;
    total, offsets := 0, [];
    for i := 0 to |ls|
      invariant LocalsAt(offsets, ls, i) && total == LocalSpace(ls, i) && newOffset == 0 - LocalBytes(ls, i)
    {
      if ls[i].skipped {
        offsets := offsets + [None];
      } else {
        total := total + Round8(ls[i].size);
        newOffset := newOffset - ls[i].size;
        offsets := offsets + [Some(newOffset)];
      }
    }
  }

  /** The second loop: the space the hidden pointer and the parameters take. */
  method SizeParams(f: FuncDecl) returns (total: nat)
    ensures total == HiddenSize(f) + ParamSpace(f.params, f.variadicOnStack, |f.params|)
  {
    hide Round8;
    total := if f.hiddenOut then 8 else 0;
    for i := 0 to |f.params|
      invariant total == HiddenSize(f) + ParamSpace(f.params, f.variadicOnStack, i)
    {
      if HasSlot(f.params[i], f.variadicOnStack) {
        total := total + ParamSize(f.params[i], f.variadicOnStack);
      }
    }
  }

  /** The third loop: parameters from the bottom of the area up. */
  method PlaceParams(ps: seq<ParamDecl>, onStack: bool, bottom: int) returns (offsets: seq<Option<int>>)
    ensures ParamsAt(offsets, ps, onStack, bottom, |ps|)
  {
    hide ParamSize, ParamSpace, HasSlot;
    ParamStep(ps, onStack, 0);
    var offset := bottom;
    offsets := [];
    for i := 0 to |ps|
      invariant ParamsAt(offsets, ps, onStack, bottom, i) && offset == bottom - ParamSpace(ps, onStack, i)
    {
      ParamStep(ps, onStack, i);
      if HasSlot(ps[i], onStack) {
        offsets := offsets + [Some(0 - offset)];
        offset := offset - ParamSize(ps[i], onStack);
      } else {
        offsets := offsets + [None];
      }
    }
  }

  /** irCgComputeAstLayout, for the slots that lie in this frame. */
  method ComputeLayout(f: FuncDecl) returns (l: Layout)
    ensures Describes(l, f)
  {
    hide Round8, LocalsAt, ParamsAt, LocalSpace, ParamSpace;
    var locals, total := PlaceLocals(f.locals);
    var paramTotal := SizeParams(f);
    total := total + paramTotal;
    var offset: int := total;
    var hidden := None;
    if f.hiddenOut {
      hidden := Some(0 - offset);
      offset := offset - 8;
    }
    assert offset == Total(f) - HiddenSize(f);
    var params := PlaceParams(f.params, f.variadicOnStack, offset);
    l := Layout(locals, hidden, params, total);
  }

  // ----- running totals grow -----

  lemma {:induction false} LocalSums(ls: seq<LocalDecl>, i: nat, j: nat)
    requires i <= j <= |ls|
    ensures LocalBytes(ls, i) <= LocalBytes(ls, j) && LocalSpace(ls, i) <= LocalSpace(ls, j)
    ensures LocalBytes(ls, j) <= LocalSpace(ls, j)
    decreases j
  {
    if i < j {
      LocalSums(ls, i, j - 1);
    } else if j > 0 {
      LocalSums(ls, j - 1, j - 1);
    }
  }

  lemma {:induction false} ParamSums(ps: seq<ParamDecl>, onStack: bool, i: nat, j: nat)
    requires i <= j <= |ps|
    ensures ParamSpace(ps, onStack, i) <= ParamSpace(ps, onStack, j)
    decreases j
  {
    if i < j { ParamSums(ps, onStack, i, j - 1); }
  }

  // ----- temporaries -----

  /** The slot map and the extra stack counter of the register allocator. */
  class RaCtx {
    var idToLoff: map<nat, int>
    var extraStack: nat

    constructor ()
      ensures idToLoff == map[] && extraStack == 0
    {
      idToLoff, extraStack := map[], 0;
    }

    /** irCgSetLoff; a second offset for the same variable is reported, not stored. */
    method SetLoff(id: nat, loff: int) returns (ok: bool)
      modifies this`idToLoff
      ensures ok <==> id !in old(idToLoff)
      ensures idToLoff == if ok then old(idToLoff)[id := loff] else old(idToLoff)
    {
      ok := id !in idToLoff;
      if ok { idToLoff := idToLoff[id := loff]; }
    }

    /** irCgAllocTmpSized: a buffer of at least 8 bytes right below everything allocated so far. */
    method AllocSized(id: nat, start: nat, bytes: int)
      modifies this
      ensures if id in old(idToLoff) then idToLoff == old(idToLoff) && extraStack == old(extraStack)
              else extraStack == old(extraStack) + AllocaSize(bytes)
                   && idToLoff == old(idToLoff)[id := 0 - (start + extraStack)]
    {
      if id in idToLoff { return; }
      extraStack := extraStack + AllocaSize(bytes);
      var ok := SetLoff(id, 0 - (start + extraStack));
    }

    /** The first pass of irCgAllocAllTmps: an alloca whose variable has no offset yet gets a buffer of its own;
        one that is already bound, because it stands for a local, stays where it is. */
    method AllocBuffers(allocas: seq<Alloca>, start: nat)
      modifies this
      ensures var own := Unbound(allocas, |allocas|, old(idToLoff.Keys));
              && extraStack == old(extraStack) + BufferSpace(own, |own|)
              && idToLoff.Keys == old(idToLoff.Keys) + Names(own)
              && BuffersAt(idToLoff, own, |own|, start + old(extraStack))
      ensures forall id :: id in old(idToLoff) ==> idToLoff[id] == old(idToLoff)[id]
    {
      hide AllocaSize, BufferSpace, BuffersAt, Names;
      ghost var bound, own := idToLoff.Keys, [];
      var k := 0;
      NoBuffers(idToLoff, start + extraStack);
      while k < |allocas|
        invariant 0 <= k <= |allocas| && own == Unbound(allocas, k, bound)
        invariant extraStack == old(extraStack) + BufferSpace(own, |own|)
        invariant idToLoff.Keys == bound + Names(own)
        invariant forall id :: id in old(idToLoff) ==> idToLoff[id] == old(idToLoff)[id]
        invariant BuffersAt(idToLoff, own, |own|, start + old(extraStack))
      {
        ghost var before := idToLoff;
        AllocSized(allocas[k].id, start, allocas[k].bytes);
        if allocas[k].id !in before {
          OneMoreBuffer(before, idToLoff, own, allocas[k], start + old(extraStack));
          own := own + [allocas[k]];
        }
        k := k + 1;
      }
    }

    /** The second pass: colour the recorded ranges and hand out 8-byte slots. */
    method AllocSlots(ranges: seq<Range>, start: nat) returns (slot: seq<nat>, slots: nat)
      requires Sorted(ranges) && WellFormed(ranges) && DistinctRanges(ranges)
      requires forall i :: 0 <= i < |ranges| ==> ranges[i].id !in idToLoff
      modifies this
      ensures Sound(ranges, slot) && Peak(ranges, slots) && forall i :: 0 <= i < |ranges| ==> slot[i] < slots
      ensures extraStack == old(extraStack) + 8 * slots
      ensures forall id :: id in old(idToLoff) ==> id in idToLoff && idToLoff[id] == old(idToLoff)[id]
      ensures forall i :: 0 <= i < |ranges| ==> InSlot(idToLoff, ranges[i].id, start + old(extraStack), slot[i])
      ensures forall id :: id in idToLoff ==> id in old(idToLoff) || exists i :: 0 <= i < |ranges| && ranges[i].id == id
    {
      slot, slots := Colour(ranges);
      var base := extraStack;
      extraStack := extraStack + 8 * slots;
      var i := 0;
      while i < |ranges|
        invariant 0 <= i <= |ranges| && extraStack == base + 8 * slots
        invariant forall id :: id in old(idToLoff) ==> id in idToLoff && idToLoff[id] == old(idToLoff)[id]
        invariant forall k :: 0 <= k < i ==> InSlot(idToLoff, ranges[k].id, start + base, slot[k])
        invariant forall k :: i <= k < |ranges| ==> ranges[k].id !in idToLoff
        invariant forall id :: id in idToLoff ==> id in old(idToLoff) || exists k :: 0 <= k < i && ranges[k].id == id
      {
        var ok := SetLoff(ranges[i].id, 0 - (start + base + 8 * (slot[i] + 1)));
        i := i + 1;
      }
    }

    /**
     irCgAllocAllTmps. Buffers first; then every temporary mentioned anywhere, unless it already has an
     offset or is pinned to a register, gets a slot. `order` is what was coloured: the number of slots is
     the largest number of its ranges that meet at one position. What was bound before stays where it is.
     */
    method AllocAllTmps(allocas: seq<Alloca>, refs: seq<set<nat>>, pinned: set<nat>, start: nat)
      returns (ranges: map<nat, Range>, order: seq<Range>, slots: nat)
      modifies this
      ensures Records(ranges, refs)
      ensures var own := Unbound(allocas, |allocas|, old(idToLoff.Keys));
              var ids := ranges.Keys - pinned - old(idToLoff.Keys) - Names(own);
              var base := start + old(extraStack);
              && Lists(order, ranges, ids) && Peak(order, slots)
              && extraStack == old(extraStack) + BufferSpace(own, |own|) + 8 * slots
              && BuffersAt(idToLoff, own, |own|, base)
              && Shares(idToLoff, ranges, ids, base + BufferSpace(own, |own|), slots)
              && idToLoff.Keys <= old(idToLoff.Keys) + Names(own) + ids
      ensures forall id :: id in old(idToLoff) ==> id in idToLoff && idToLoff[id] == old(idToLoff)[id]
    {
      hide Records, Lists, Shares, Peak, Sound, AllocaSize, BufferSpace, Sort, DistinctRanges, WellFormed, Sorted;
      hide BuffersAt, Names, Unbound, InSlot;
      ghost var bound, base := idToLoff.Keys, start + extraStack;
      AllocBuffers(allocas, start);
      ghost var own, buffers := Unbound(allocas, |allocas|, bound), idToLoff;
      ranges := RecordAll(refs);
      RecordsAreRanges(ranges, refs);
      var list := Collect(ranges, pinned + idToLoff.Keys);
      ghost var ids := ranges.Keys - pinned - bound - Names(own);
      assert ids == ranges.Keys - (pinned + idToLoff.Keys);
      SortedLists(list, ranges, ids);
      order := Sort(list);
      ListedRanges(order, ranges, ids);
      var slot;
      slot, slots := AllocSlots(order, start);
      SlotsShare(idToLoff, ranges, ids, base + BufferSpace(own, |own|), slots, order, slot);
      BuffersStay(buffers, idToLoff, own, base);
    }

    /** One of the loops of irCgBindAstLoffs: a variable that has both an IR value and an offset is bound. It stops at
        a variable that is bound already. */
    method BindList(ids: seq<Option<nat>>, offsets: seq<Option<int>>) returns (ok: bool)
      requires |ids| == |offsets|
      modifies this`idToLoff
      ensures ok <==> BindsOnce(old(idToLoff.Keys), ids, offsets)
      ensures ok ==> idToLoff.Keys == old(idToLoff.Keys) + ToBind(ids, offsets, |ids|)
      ensures ok ==> AllBound(idToLoff, ids, offsets, |ids|)
      ensures forall id :: id in old(idToLoff) ==> id in idToLoff && idToLoff[id] == old(idToLoff)[id]
      ensures forall id :: id in idToLoff ==> id in old(idToLoff) || BoundBy(idToLoff, ids, offsets, id)
    {
      ghost var bound := idToLoff.Keys;
      for i := 0 to |ids|
        invariant AllBound(idToLoff, ids, offsets, i) && NoClash(bound, ids, offsets, i)
        invariant idToLoff.Keys == bound + ToBind(ids, offsets, i)
        invariant forall id :: id in old(idToLoff) ==> id in idToLoff && idToLoff[id] == old(idToLoff)[id]
        invariant forall id :: id in idToLoff ==> id in old(idToLoff) || BoundBy(idToLoff, ids, offsets, id)
      {
        NextToBind(bound, ids, offsets, i);
        if ids[i].Some? && offsets[i].Some? {
          ghost var before := idToLoff;
          ok := SetLoff(ids[i].value, offsets[i].value);
          if !ok {
            ClashStays(bound, ids, offsets, i + 1);
            return;
          }
          StillBound(before, idToLoff, ids, offsets, i);
        }
      }
      ok := true;
    }

    /** irCgBindAstLoffs: the hidden pointer, then parameters, then locals. It succeeds exactly if no two of them, nor
        anything bound before, are the same IR variable. */
    method BindAstLoffs(l: Layout, ids: Ids) returns (ok: bool)
      requires |ids.locals| == |l.locals| && |ids.params| == |l.params|
      modifies this`idToLoff
      ensures ok <==> BindsOnce(old(idToLoff.Keys), AllIds(ids), AllOffsets(l))
      ensures ok ==> AllBound(idToLoff, [ids.hidden], [l.hidden], 1)
      ensures ok ==> AllBound(idToLoff, ids.params, l.params, |ids.params|)
      ensures ok ==> AllBound(idToLoff, ids.locals, l.locals, |ids.locals|)
      ensures forall id :: id in idToLoff ==>
                || id in old(idToLoff) || BoundBy(idToLoff, [ids.hidden], [l.hidden], id)
                || BoundBy(idToLoff, ids.params, l.params, id) || BoundBy(idToLoff, ids.locals, l.locals, id)
    {
      hide AllBound, BoundBy, BindsOnce, ToBind;
      ThreeLists(idToLoff.Keys, ids, l);
      ok := BindList([ids.hidden], [l.hidden]);
      ghost var m1 := idToLoff;
      if ok { ok := BindList(ids.params, l.params); }
      ghost var m2 := idToLoff;
      if ok { ok := BindList(ids.locals, l.locals); }
      BindingsKept(m1, idToLoff, [ids.hidden], [l.hidden]);
      BindingsKept(m2, idToLoff, ids.params, l.params);
    }

    /** irFunctionPrepForCodeGen: layout, binding, then temporaries from the layout's total down. The stack space is
        kept in sixteen bits. */
    method Prepare(f: FuncDecl, ids: Ids, allocas: seq<Alloca>, refs: seq<set<nat>>, pinned: set<nat>)
      returns (ok: bool, stackSpace: nat, ghost v: FrameView, ghost ranges: map<nat, Range>, ghost temps: set<nat>)
      requires |ids.locals| == |f.locals| && |ids.params| == |f.params|
      modifies this
      ensures ok <==> DistinctDeclared(f, ids)
      ensures Records(ranges, if ok then refs else [])
      ensures ok ==> v.f == f && extraStack == v.Extra() && stackSpace == StackSpace(v)
      ensures ok ==> Housed(v, ids, temps, ranges, idToLoff)
      ensures ok ==> forall k :: 0 <= k < |allocas| ==> allocas[k].id in idToLoff
      ensures ok ==> forall t :: t in ranges && t !in pinned ==> t in idToLoff
      ensures ok ==> temps <= ranges.Keys - pinned
    {
      hide Records, Describes, AllBound, BoundBy, Shares, Lists, BuffersAt, Unbound, Names, Peak, BufferSpace, Total;
      hide Housed, BindsOnce, DistinctDeclared, AllIds, AllOffsets;
      idToLoff, extraStack := map[], 0;
      stackSpace, v, ranges, temps := 0, FrameView(f, [], 0), map[], {};
      NothingRecorded();
      var l := ComputeLayout(f);
      LayoutSizes(l, f);
      DeclaredOnce(l, f, ids);
      assert idToLoff.Keys == {};
      ok := BindAstLoffs(l, ids);
      if !ok { return; }
      ghost var bound := idToLoff;
      var recorded, order, slots := AllocAllTmps(allocas, refs, pinned, l.total);
      stackSpace := Round16(l.total + extraStack) % 0x1_0000;
      ranges := recorded;
      ghost var own := Unbound(allocas, |allocas|, bound.Keys);
      v := FrameView(f, own, slots);
      temps := ranges.Keys - pinned - bound.Keys - Names(own);
      EveryoneHoused(v, l, ids, ranges, temps, bound, idToLoff);
      HaveOffsets(idToLoff, own, l.total, ranges, temps, l.total + BufferSpace(own, |own|), slots);
    }
  }

  lemma HaveOffsets(loff: map<nat, int>, own: seq<Alloca>, base: int, ranges: map<nat, Range>, temps: set<nat>,
                    slotBase: int, slots: nat)
    requires BuffersAt(loff, own, |own|, base) && Shares(loff, ranges, temps, slotBase, slots)
    ensures Names(own) + temps <= loff.Keys
  {
    forall t | t in temps ensures t in loff {
      var k :| 0 <= k < slots && InSlot(loff, t, slotBase, k);
    }
  }

  lemma BuffersStay(before: map<nat, int>, after: map<nat, int>, own: seq<Alloca>, base: int)
    requires BuffersAt(before, own, |own|, base) && forall id :: id in before ==> id in after && after[id] == before[id]
    ensures BuffersAt(after, own, |own|, base)
  {
  }

  lemma RecordsAreRanges(ranges: map<nat, Range>, refs: seq<set<nat>>)
    requires Records(ranges, refs)
    ensures forall t :: t in ranges ==> ranges[t].id == t && ranges[t].first <= ranges[t].last
  {
  }

  lemma ListedRanges(list: seq<Range>, ranges: map<nat, Range>, ids: set<nat>)
    requires Lists(list, ranges, ids)
    requires forall t :: t in ranges ==> ranges[t].first <= ranges[t].last
    ensures DistinctRanges(list) && WellFormed(list)
    ensures forall i :: 0 <= i < |list| ==> list[i].id in ids
  {
  }

  function Names(allocas: seq<Alloca>): set<nat>
  {
    set i | 0 <= i < |allocas| :: allocas[i].id
  }

  /** The IR values of the declared variables, where they have one. */
  datatype Ids = Ids(locals: seq<Option<nat>>, hidden: Option<nat>, params: seq<Option<nat>>)

  predicate AllBound(loff: map<nat, int>, ids: seq<Option<nat>>, offsets: seq<Option<int>>, n: nat)
    requires n <= |ids| == |offsets|
  {
    forall i :: 0 <= i < n && ids[i].Some? && offsets[i].Some? ==>
      ids[i].value in loff && loff[ids[i].value] == offsets[i].value
  }

  predicate BoundBy(loff: map<nat, int>, ids: seq<Option<nat>>, offsets: seq<Option<int>>, id: nat)
    requires |ids| == |offsets| && id in loff
  {
    exists i :: 0 <= i < |ids| && ids[i] == Some(id) && offsets[i] == Some(loff[id])
  }

  /** Variable i is to be bound. */
  predicate Binds(ids: seq<Option<nat>>, offsets: seq<Option<int>>, i: nat)
    requires i < |ids| == |offsets|
  {
    ids[i].Some? && offsets[i].Some?
  }

  /** The variables that the first n places bind. */
  function ToBind(ids: seq<Option<nat>>, offsets: seq<Option<int>>, n: nat): set<nat>
    requires n <= |ids| == |offsets|
  {
    set i | 0 <= i < n && Binds(ids, offsets, i) :: ids[i].value
  }

  /** The first n places bind different variables, none of them bound before. */
  predicate NoClash(bound: set<nat>, ids: seq<Option<nat>>, offsets: seq<Option<int>>, n: nat)
    requires n <= |ids| == |offsets|
  {
    && (forall i :: 0 <= i < n && Binds(ids, offsets, i) ==> ids[i].value !in bound)
    && (forall i, j :: 0 <= i < j < n && Binds(ids, offsets, i) && Binds(ids, offsets, j) ==> ids[i] != ids[j])
  }

  predicate BindsOnce(bound: set<nat>, ids: seq<Option<nat>>, offsets: seq<Option<int>>)
    requires |ids| == |offsets|
  {
    NoClash(bound, ids, offsets, |ids|)
  }

  function AllIds(ids: Ids): seq<Option<nat>>
  {
    [ids.hidden] + ids.params + ids.locals
  }

  function AllOffsets(l: Layout): seq<Option<int>>
  {
    [l.hidden] + l.params + l.locals
  }

  lemma NextToBind(bound: set<nat>, ids: seq<Option<nat>>, offsets: seq<Option<int>>, i: nat)
    requires i < |ids| == |offsets|
    ensures ToBind(ids, offsets, i + 1) ==
            if Binds(ids, offsets, i) then ToBind(ids, offsets, i) + {ids[i].value} else ToBind(ids, offsets, i)
    ensures NoClash(bound, ids, offsets, i + 1) <==>
              NoClash(bound, ids, offsets, i)
              && (Binds(ids, offsets, i) ==> ids[i].value !in bound + ToBind(ids, offsets, i))
  {
    if NoClash(bound, ids, offsets, i) && Binds(ids, offsets, i) {
      forall k | 0 <= k < i && Binds(ids, offsets, k) ensures ids[k].value in ToBind(ids, offsets, i) {}
    }
  }

  lemma ClashStays(bound: set<nat>, ids: seq<Option<nat>>, offsets: seq<Option<int>>, n: nat)
    requires n <= |ids| == |offsets| && !NoClash(bound, ids, offsets, n)
    ensures !BindsOnce(bound, ids, offsets)
  {
  }

  /** Two lists one after the other. */
  lemma BindsTogether(bound: set<nat>, ids: seq<Option<nat>>, offsets: seq<Option<int>>,
                      more: seq<Option<nat>>, moreOffsets: seq<Option<int>>)
    requires |ids| == |offsets| && |more| == |moreOffsets|
    ensures ToBind(ids + more, offsets + moreOffsets, |ids + more|) ==
            ToBind(ids, offsets, |ids|) + ToBind(more, moreOffsets, |more|)
    ensures BindsOnce(bound, ids + more, offsets + moreOffsets) <==>
              BindsOnce(bound, ids, offsets) && BindsOnce(bound + ToBind(ids, offsets, |ids|), more, moreOffsets)
  {
    BindsPrefix(bound, ids, offsets, more, moreOffsets, |ids|);
    BindsTogetherTo(bound, ids, offsets, more, moreOffsets, |more|);
  }

  lemma ThreeLists(bound: set<nat>, ids: Ids, l: Layout)
    requires |ids.locals| == |l.locals| && |ids.params| == |l.params|
    ensures var first := bound + ToBind([ids.hidden], [l.hidden], 1);
            var second := first + ToBind(ids.params, l.params, |ids.params|);
            BindsOnce(bound, AllIds(ids), AllOffsets(l)) <==>
              BindsOnce(bound, [ids.hidden], [l.hidden]) && BindsOnce(first, ids.params, l.params)
              && BindsOnce(second, ids.locals, l.locals)
  {
    hide BindsOnce, ToBind;
    BindsTogether(bound, [ids.hidden], [l.hidden], ids.params, l.params);
    BindsTogether(bound, [ids.hidden] + ids.params, [l.hidden] + l.params, ids.locals, l.locals);
    var a, b := ToBind([ids.hidden], [l.hidden], 1), ToBind(ids.params, l.params, |ids.params|);
    assert bound + (a + b) == bound + a + b;
  }

  lemma {:induction false} BindsPrefix(bound: set<nat>, ids: seq<Option<nat>>, offsets: seq<Option<int>>,
                                       more: seq<Option<nat>>, moreOffsets: seq<Option<int>>, n: nat)
    requires |ids| == |offsets| && |more| == |moreOffsets| && n <= |ids|
    ensures ToBind(ids + more, offsets + moreOffsets, n) == ToBind(ids, offsets, n)
    ensures NoClash(bound, ids + more, offsets + moreOffsets, n) <==> NoClash(bound, ids, offsets, n)
    decreases n
  {
    hide NoClash;
    if n > 0 {
      BindsPrefix(bound, ids, offsets, more, moreOffsets, n - 1);
      NextToBind(bound, ids, offsets, n - 1);
      NextToBind(bound, ids + more, offsets + moreOffsets, n - 1);
    } else {
      NothingToBind(bound, ids, offsets);
      NothingToBind(bound, ids + more, offsets + moreOffsets);
    }
  }

  lemma NothingToBind(bound: set<nat>, ids: seq<Option<nat>>, offsets: seq<Option<int>>)
    requires |ids| == |offsets|
    ensures ToBind(ids, offsets, 0) == {} && NoClash(bound, ids, offsets, 0)
  {
  }

  lemma {:induction false} BindsTogetherTo(bound: set<nat>, ids: seq<Option<nat>>, offsets: seq<Option<int>>,
                                           more: seq<Option<nat>>, moreOffsets: seq<Option<int>>, n: nat)
    requires |ids| == |offsets| && |more| == |moreOffsets| && n <= |more|
    ensures ToBind(ids + more, offsets + moreOffsets, |ids| + n) ==
            ToBind(ids, offsets, |ids|) + ToBind(more, moreOffsets, n)
    ensures NoClash(bound, ids + more, offsets + moreOffsets, |ids| + n) <==>
              NoClash(bound, ids, offsets, |ids|)
              && NoClash(bound + ToBind(ids, offsets, |ids|), more, moreOffsets, n)
    decreases n
  {
    hide NoClash, ToBind;
    var first := ToBind(ids, offsets, |ids|);
    if n > 0 {
      BindsTogetherTo(bound, ids, offsets, more, moreOffsets, n - 1);
      NextToBind(bound, ids + more, offsets + moreOffsets, |ids| + n - 1);
      NextToBind(bound + first, more, moreOffsets, n - 1);
      assert (ids + more)[|ids| + n - 1] == more[n - 1];
    } else {
      BindsPrefix(bound, ids, offsets, more, moreOffsets, |ids|);
      NothingToBind(bound + first, more, moreOffsets);
    }
  }

  lemma StillBound(before: map<nat, int>, after: map<nat, int>, ids: seq<Option<nat>>, offsets: seq<Option<int>>,
                   i: nat)
    requires i < |ids| == |offsets| && ids[i].Some? && offsets[i].Some? && ids[i].value !in before
    requires after == before[ids[i].value := offsets[i].value] && AllBound(before, ids, offsets, i)
    ensures AllBound(after, ids, offsets, i + 1) && BoundBy(after, ids, offsets, ids[i].value)
    ensures forall id :: id in before && BoundBy(before, ids, offsets, id) ==> BoundBy(after, ids, offsets, id)
  {
  }

  lemma BindingsKept(before: map<nat, int>, after: map<nat, int>, ids: seq<Option<nat>>, offsets: seq<Option<int>>)
    requires |ids| == |offsets| && forall id :: id in before ==> id in after && after[id] == before[id]
    ensures AllBound(before, ids, offsets, |ids|) ==> AllBound(after, ids, offsets, |ids|)
    ensures forall id :: id in before && BoundBy(before, ids, offsets, id) ==> BoundBy(after, ids, offsets, id)
  {
  }

  lemma NothingRecorded()
    ensures Records(map[], [])
  {
  }

  lemma LayoutSizes(l: Layout, f: FuncDecl)
    requires Describes(l, f)
    ensures |l.locals| == |f.locals| && |l.params| == |f.params| && l.total == Total(f)
  {
  }

  /** The ranges that still want a slot, in whatever order the map yields them. */
  method Collect(ranges: map<nat, Range>, skip: set<nat>) returns (list: seq<Range>)
    requires forall t :: t in ranges ==> ranges[t].id == t
    ensures Lists(list, ranges, ranges.Keys - skip)
  {
    list := [];
    var todo := ranges.Keys - skip;
    assert ranges.Keys - skip - todo == {};
    while todo != {}
      invariant todo <= ranges.Keys - skip && Lists(list, ranges, ranges.Keys - skip - todo)
      decreases todo
    {
      var t :| t in todo;
      list := list + [ranges[t]];
      assert list[|list| - 1] == ranges[t];
      todo := todo - {t};
    }
    assert ranges.Keys - skip - {} == ranges.Keys - skip;
  }

  /** `list` holds the ranges of exactly the temporaries `ids`, once each. */
  ghost predicate Lists(list: seq<Range>, ranges: map<nat, Range>, ids: set<nat>)
  {
    && DistinctRanges(list)
    && (forall i :: 0 <= i < |list| ==> list[i].id in ids && list[i].id in ranges && list[i] == ranges[list[i].id])
    && (forall t :: t in ids ==> t in ranges && ranges[t].id == t && ranges[t] in list)
  }

  lemma {:induction false} InsertKeeps(a: seq<Range>, r: Range)
    requires DistinctRanges(a) && forall i :: 0 <= i < |a| ==> a[i].id != r.id
    ensures DistinctRanges(Insert(a, r)) && forall x :: x in Insert(a, r) <==> x == r || x in a
    decreases |a|
  {
    if a == [] || Before(r, a[0]) {
    } else {
      InsertKeeps(a[1..], r);
      assert a == [a[0]] + a[1..];
      assert forall i :: 0 <= i < |Insert(a[1..], r)| ==> Insert(a[1..], r)[i] in Insert(a[1..], r);
    }
  }

  lemma {:induction false} SortKeeps(a: seq<Range>)
    requires DistinctRanges(a)
    ensures DistinctRanges(Sort(a)) && forall x :: x in Sort(a) <==> x in a
    decreases |a|
  {
    if a != [] {
      SortKeeps(a[1..]);
      assert a == [a[0]] + a[1..];
      var rest := Sort(a[1..]);
      forall i | 0 <= i < |rest| ensures rest[i].id != a[0].id {
        assert rest[i] in rest;
        assert rest[i] in a[1..];
      }
      InsertKeeps(rest, a[0]);
    }
  }

  lemma SortedLists(list: seq<Range>, ranges: map<nat, Range>, ids: set<nat>)
    requires Lists(list, ranges, ids)
    ensures Lists(Sort(list), ranges, ids) && Sorted(Sort(list))
  {
    SortKeeps(list);
    SortSorts(list);
    var order := Sort(list);
    forall i | 0 <= i < |order|
      ensures order[i].id in ids && order[i].id in ranges && order[i] == ranges[order[i].id]
    {
      assert order[i] in order;
      assert order[i] in list;
    }
  }

  /** Temporary `t` owns the 8-byte slot `k` below `base`. */
  predicate InSlot(loff: map<nat, int>, t: nat, base: int, k: int)
  {
    t in loff && loff[t] == 0 - (base + 8 * (k + 1))
  }

  /** Every temporary in `ids` has one of the slots, and those in the same slot have disjoint ranges. */
  ghost predicate Shares(loff: map<nat, int>, ranges: map<nat, Range>, ids: set<nat>, base: int, slots: nat)
  {
    && (forall t :: t in ids ==> t in ranges && exists k :: 0 <= k < slots && InSlot(loff, t, base, k))
    && (forall t, u :: t in ids && u in ids && t != u && loff[t] == loff[u] ==> Disjoint(ranges[t], ranges[u]))
  }

  lemma SlotsShare(loff: map<nat, int>, ranges: map<nat, Range>, ids: set<nat>, base: int, slots: nat,
                   order: seq<Range>, slot: seq<nat>)
    requires Lists(order, ranges, ids) && Sound(order, slot)
    requires forall i :: 0 <= i < |order| ==> slot[i] < slots && InSlot(loff, order[i].id, base, slot[i])
    ensures Shares(loff, ranges, ids, base, slots)
  {
    forall t | t in ids ensures t in ranges && exists k :: 0 <= k < slots && InSlot(loff, t, base, k) {
      var i :| 0 <= i < |order| && order[i] == ranges[t];
      assert InSlot(loff, order[i].id, base, slot[i]);
    }
    forall t, u | t in ids && u in ids && t != u && loff[t] == loff[u]
      ensures Disjoint(ranges[t], ranges[u])
    {
      var i :| 0 <= i < |order| && order[i] == ranges[t];
      var j :| 0 <= j < |order| && order[j] == ranges[u];
      assert InSlot(loff, order[i].id, base, slot[i]) && InSlot(loff, order[j].id, base, slot[j]);
    }
  }

  datatype Alloca = Alloca(id: nat, bytes: int)

  /** Each buffer sits right below the ones before it. */
  predicate BuffersAt(loff: map<nat, int>, allocas: seq<Alloca>, n: nat, base: int)
    requires n <= |allocas|
  {
    forall k :: 0 <= k < n ==>
      allocas[k].id in loff && loff[allocas[k].id] == 0 - (base + BufferSpace(allocas, k + 1))
  }

  /** The allocas that get a buffer of their own: neither bound before nor met before. */
  function Unbound(allocas: seq<Alloca>, n: nat, bound: set<nat>): (own: seq<Alloca>)
    requires n <= |allocas|
    ensures DistinctIds(own) && Names(own) !! bound
    ensures forall k :: 0 <= k < n ==> allocas[k].id in bound + Names(own)
  {
    if n == 0 then []
    else
      var own := Unbound(allocas, n - 1, bound);
      if allocas[n - 1].id in bound + Names(own) then own
      else NamesAppend(own, allocas[n - 1]); own + [allocas[n - 1]]
  }

  lemma NamesAppend(own: seq<Alloca>, a: Alloca)
    ensures Names(own + [a]) == Names(own) + {a.id}
  {
    var own' := own + [a];
    assert own'[|own|].id == a.id;
    forall x | x in Names(own) ensures x in Names(own') {
      var i :| 0 <= i < |own| && own[i].id == x;
      assert own'[i].id == x;
    }
  }

  lemma NoBuffers(loff: map<nat, int>, base: int)
    ensures BufferSpace([], 0) == 0 && BuffersAt(loff, [], 0, base) && Names([]) == {}
  {
  }

  lemma {:induction false} SamePrefixSpace(own: seq<Alloca>, a: Alloca, n: nat)
    requires n <= |own|
    ensures BufferSpace(own + [a], n) == BufferSpace(own, n)
    decreases n
  {
    if n > 0 { SamePrefixSpace(own, a, n - 1); }
  }

  lemma OneMoreBuffer(before: map<nat, int>, loff: map<nat, int>, own: seq<Alloca>, a: Alloca, base: int)
    requires BuffersAt(before, own, |own|, base) && a.id !in before
    requires loff == before[a.id := 0 - (base + BufferSpace(own, |own|) + AllocaSize(a.bytes))]
    ensures BufferSpace(own + [a], |own| + 1) == BufferSpace(own, |own|) + AllocaSize(a.bytes)
    ensures BuffersAt(loff, own + [a], |own| + 1, base) && Names(own + [a]) == Names(own) + {a.id}
  {
    hide AllocaSize;
    var own' := own + [a];
    SamePrefixSpace(own, a, |own|);
    forall k | 0 <= k < |own'|
      ensures own'[k].id in loff && loff[own'[k].id] == 0 - (base + BufferSpace(own', k + 1))
    {
      if k < |own| { SamePrefixSpace(own, a, k + 1); }
    }
    NamesAppend(own, a);
  }

  predicate DistinctIds(allocas: seq<Alloca>)
  {
    forall i, j :: 0 <= i < j < |allocas| ==> allocas[i].id != allocas[j].id
  }

  predicate DistinctRanges(ranges: seq<Range>)
  {
    forall i, j :: 0 <= i < j < |ranges| ==> ranges[i].id != ranges[j].id
  }

  function AllocaSize(bytes: int): (r: nat)
    ensures r >= 8 && r >= bytes
  {
    if bytes <= 8 then 8 else Round8(bytes)
  }

  function BufferSpace(allocas: seq<Alloca>, n: nat): nat
    requires n <= |allocas|
  {
    if n == 0 then 0 else BufferSpace(allocas, n - 1) + AllocaSize(allocas[n - 1].bytes)
  }

  lemma {:induction false} BufferSums(allocas: seq<Alloca>, i: nat, j: nat)
    requires i <= j <= |allocas|
    ensures BufferSpace(allocas, i) <= BufferSpace(allocas, j)
    decreases j
  {
    if i < j { BufferSums(allocas, i, j - 1); }
  }

  // ----- the whole frame -----

  /** Everything that occupies bytes of the frame. Temporaries are represented by the slot they share. */
  datatype Item = LocalItem(i: nat) | HiddenItem | ParamItem(i: nat) | BufferItem(i: nat) | SlotItem(k: nat)

  datatype FrameView = FrameView(f: FuncDecl, allocas: seq<Alloca>, slots: nat)
  {
    function Extra(): nat { BufferSpace(allocas, |allocas|) + 8 * slots }

    function RegionOf(item: Item): Option<Region>
    {
      match item
      case LocalItem(i) =>
        if i < |f.locals| && !f.locals[i].skipped
        then Some(Region(0 - LocalBytes(f.locals, i + 1), f.locals[i].size)) else None
      case HiddenItem => if f.hiddenOut then Some(Region(0 - Total(f), 8)) else None
      case ParamItem(i) =>
        if i < |f.params| && HasSlot(f.params[i], f.variadicOnStack)
        then Some(Region(0 - (Total(f) - HiddenSize(f) - ParamSpace(f.params, f.variadicOnStack, i)),
                         ParamSize(f.params[i], f.variadicOnStack)))
        else None
      case BufferItem(i) =>
        if i < |allocas|
        then Some(Region(0 - (Total(f) + BufferSpace(allocas, i + 1)), AllocaSize(allocas[i].bytes))) else None
      case SlotItem(k) =>
        if k < slots then Some(Region(0 - (Total(f) + BufferSpace(allocas, |allocas|) + 8 * (k + 1)), 8)) else None
    }
  }

  /** Each kind of item keeps to its own band of the frame. */
  function Band(v: FrameView, item: Item): (int, int)
  {
    var locals: int := LocalSpace(v.f.locals, |v.f.locals|);
    var total: int := Total(v.f);
    var buffers: int := BufferSpace(v.allocas, |v.allocas|);
    match item
    case LocalItem(_) => (-locals, 0)
    case HiddenItem => (-total, -total + HiddenSize(v.f))
    case ParamItem(_) => (-total + HiddenSize(v.f), -locals)
    case BufferItem(_) => (-total - buffers, -total)
    case SlotItem(_) => (-total - buffers - 8 * v.slots, -total - buffers)
  }

  lemma InBand(v: FrameView, item: Item)
    requires v.RegionOf(item).Some?
    ensures Within(v.RegionOf(item).value, Band(v, item).0, Band(v, item).1)
    ensures Within(v.RegionOf(item).value, 0 - (Total(v.f) + v.Extra()), 0)
  {
    var n, m, a := |v.f.locals|, |v.f.params|, |v.allocas|;
    match item
    case LocalItem(i) => LocalSums(v.f.locals, i + 1, n);
    case HiddenItem =>
    case ParamItem(i) => ParamSums(v.f.params, v.f.variadicOnStack, i + 1, m);
    case BufferItem(i) => BufferSums(v.allocas, i + 1, a);
    case SlotItem(k) =>
  }

  lemma SameBandApart(v: FrameView, x: Item, y: Item)
    requires v.RegionOf(x).Some? && v.RegionOf(y).Some? && x != y
    requires (x.LocalItem? && y.LocalItem? && x.i < y.i) || (x.ParamItem? && y.ParamItem? && x.i < y.i)
             || (x.BufferItem? && y.BufferItem? && x.i < y.i) || (x.SlotItem? && y.SlotItem? && x.k < y.k)
    ensures Apart(v.RegionOf(x).value, v.RegionOf(y).value)
  {
    match x
    case LocalItem(i) => LocalSums(v.f.locals, i + 1, y.i);
    case ParamItem(i) => ParamSums(v.f.params, v.f.variadicOnStack, i + 1, y.i);
    case BufferItem(i) => BufferSums(v.allocas, i + 1, y.i);
    case SlotItem(_) =>
  }

  /** No two things in the frame overlap, and all of them lie inside it. */
  lemma FrameDisjoint(v: FrameView, x: Item, y: Item)
    requires v.RegionOf(x).Some? && v.RegionOf(y).Some? && x != y
    ensures Apart(v.RegionOf(x).value, v.RegionOf(y).value)
    ensures Within(v.RegionOf(x).value, 0 - (Total(v.f) + v.Extra()), 0)
  {
    InBand(v, x);
    InBand(v, y);
    match (x, y)
    case (LocalItem(i), LocalItem(j)) => if i < j { SameBandApart(v, x, y); } else { SameBandApart(v, y, x); }
    case (ParamItem(i), ParamItem(j)) => if i < j { SameBandApart(v, x, y); } else { SameBandApart(v, y, x); }
    case (BufferItem(i), BufferItem(j)) => if i < j { SameBandApart(v, x, y); } else { SameBandApart(v, y, x); }
    case (SlotItem(i), SlotItem(j)) => if i < j { SameBandApart(v, x, y); } else { SameBandApart(v, y, x); }
    case _ => BandsApart(v, x, y);
  }

  lemma BandsApart(v: FrameView, x: Item, y: Item)
    requires v.RegionOf(x).Some? && v.RegionOf(y).Some?
    requires !(x.LocalItem? && y.LocalItem?) && !(x.ParamItem? && y.ParamItem?) && !(x.BufferItem? && y.BufferItem?)
    requires !(x.SlotItem? && y.SlotItem?) && !(x.HiddenItem? && y.HiddenItem?)
    ensures Apart(v.RegionOf(x).value, v.RegionOf(y).value)
  {
    InBand(v, x);
    InBand(v, y);
  }

  /** What the methods computed is the picture above. */
  lemma OffsetsAreRegions(v: FrameView, l: Layout, loff: map<nat, int>, item: Item)
    requires Describes(l, v.f) && BuffersAt(loff, v.allocas, |v.allocas|, l.total)
    ensures item.LocalItem? && item.i < |l.locals| ==>
              l.locals[item.i] == if v.RegionOf(item).Some? then Some(v.RegionOf(item).value.lo) else None
    ensures item.HiddenItem? ==>
              l.hidden == if v.RegionOf(item).Some? then Some(v.RegionOf(item).value.lo) else None
    ensures item.ParamItem? && item.i < |l.params| ==>
              l.params[item.i] == if v.RegionOf(item).Some? then Some(v.RegionOf(item).value.lo) else None
    ensures item.BufferItem? && item.i < |v.allocas| ==>
              v.RegionOf(item).Some? && loff[v.allocas[item.i].id] == v.RegionOf(item).value.lo
  {
    hide Round8, LocalBytes, ParamSpace, ParamSize, HasSlot, BufferSpace, AllocaSize, Total, HiddenSize;
  }

  // ----- the layout, from the declarations -----

  /** The bytes a declaration asks for in the frame, if any: nothing for what is pinned to a register or no longer
      mentioned, and eight for the argument count of a variadic list unless the caller's stack has it. */
  function Asked(f: FuncDecl, item: Item): Option<nat>
  {
    match item
    case LocalItem(i) => if i < |f.locals| && !f.locals[i].skipped then Some(f.locals[i].size) else None
    case HiddenItem => if f.hiddenOut then Some(8) else None
    case ParamItem(i) =>
      if i >= |f.params| then None
      else if f.params[i].VarArgs? then if f.variadicOnStack then None else Some(8)
      else if f.params[i].skipped then None else Some(f.params[i].size)
    case _ => None
  }

  function Given(l: Layout, item: Item): Option<int>
  {
    match item
    case LocalItem(i) => if i < |l.locals| then l.locals[i] else None
    case HiddenItem => l.hidden
    case ParamItem(i) => if i < |l.params| then l.params[i] else None
    case _ => None
  }

  lemma AskedRegion(v: FrameView, item: Item)
    requires item.LocalItem? || item.HiddenItem? || item.ParamItem?
    ensures v.RegionOf(item).Some? <==> Asked(v.f, item).Some?
    ensures Asked(v.f, item).Some? ==> Asked(v.f, item).value <= v.RegionOf(item).value.size
  {
    hide Total, ParamSpace, LocalBytes;
  }

  lemma GivenRegion(v: FrameView, l: Layout, item: Item)
    requires Describes(l, v.f) && v.allocas == [] && (item.LocalItem? || item.HiddenItem? || item.ParamItem?)
    ensures Given(l, item) == if v.RegionOf(item).Some? then Some(v.RegionOf(item).value.lo) else None
  {
    LayoutSizes(l, v.f);
    OffsetsAreRegions(v, l, map[], item);
  }

  /** A declaration is given an offset exactly if it asks for bytes, and the bytes from there on are its own: inside
      the layout's area, and shared with no other declaration. */
  lemma EveryDeclarationPlaced(l: Layout, f: FuncDecl, x: Item, y: Item)
    requires Describes(l, f)
    ensures Given(l, x).Some? <==> Asked(f, x).Some?
    ensures Asked(f, x).Some? ==> Within(Region(Given(l, x).value, Asked(f, x).value), 0 - l.total, 0)
    ensures Asked(f, x).Some? && Asked(f, y).Some? && x != y ==>
              Apart(Region(Given(l, x).value, Asked(f, x).value), Region(Given(l, y).value, Asked(f, y).value))
  {
    hide Describes, Total, ParamSpace, LocalBytes, LocalSpace;
    LayoutSizes(l, f);
    var v := FrameView(f, [], 0);
    assert v.Extra() == 0;
    if !x.BufferItem? && !x.SlotItem? {
      AskedRegion(v, x);
      GivenRegion(v, l, x);
      if Asked(f, x).Some? {
        InBand(v, x);
        if Asked(f, y).Some? && x != y {
          AskedRegion(v, y);
          GivenRegion(v, l, y);
          FrameDisjoint(v, x, y);
        }
      }
    }
  }

  lemma {:induction false} NoSpaceBetween(f: FuncDecl, i: nat, j: nat)
    requires i <= j
    ensures j <= |f.params| && (forall k :: i <= k < j ==> Asked(f, ParamItem(k)).None?) ==>
              ParamSpace(f.params, f.variadicOnStack, j) == ParamSpace(f.params, f.variadicOnStack, i)
    ensures j <= |f.locals| && (forall k :: i <= k < j ==> Asked(f, LocalItem(k)).None?) ==>
              LocalBytes(f.locals, j) == LocalBytes(f.locals, i)
    decreases j
  {
    if i < j {
      NoSpaceBetween(f, i, j - 1);
      assert j <= |f.params| && Asked(f, ParamItem(j - 1)).None? ==>
          ParamSize(f.params[j - 1], f.variadicOnStack) == 0;
      assert j <= |f.locals| && Asked(f, LocalItem(j - 1)).None? ==> f.locals[j - 1].skipped;
    }
  }

  lemma AskedParam(f: FuncDecl, i: nat)
    requires i < |f.params|
    ensures HasSlot(f.params[i], f.variadicOnStack) <==> Asked(f, ParamItem(i)).Some?
    ensures Asked(f, ParamItem(i)).Some? ==>
              ParamSize(f.params[i], f.variadicOnStack) == Round8(Asked(f, ParamItem(i)).value)
  {
    EightIsRound();
    hide Round8;
  }

  lemma DescribedParam(l: Layout, f: FuncDecl, i: nat)
    requires Describes(l, f) && i < |f.params| && HasSlot(f.params[i], f.variadicOnStack)
    ensures i < |l.params| && l.params[i] == Some(HiddenSize(f) - l.total + ParamSpace(f.params, f.variadicOnStack, i))
  {
    hide ParamSpace, Total, LocalsAt, HasSlot;
  }

  lemma GivenParam(l: Layout, f: FuncDecl, i: nat)
    requires Describes(l, f) && i < |f.params| && Asked(f, ParamItem(i)).Some?
    ensures Given(l, ParamItem(i)) ==
            Some(HiddenSize(f) - l.total + ParamSpace(f.params, f.variadicOnStack, i))
    ensures ParamSpace(f.params, f.variadicOnStack, i + 1) ==
            ParamSpace(f.params, f.variadicOnStack, i) + Round8(Asked(f, ParamItem(i)).value)
  {
    hide Round8, ParamSpace, Total, Describes, HasSlot, ParamSize, Asked, HiddenSize;
    ParamStep(f.params, f.variadicOnStack, i);
    AskedParam(f, i);
    DescribedParam(l, f, i);
  }

  lemma TotalSplits(l: Layout, f: FuncDecl)
    requires Describes(l, f)
    ensures l.total == LocalSpace(f.locals, |f.locals|) + HiddenSize(f)
                       + ParamSpace(f.params, f.variadicOnStack, |f.params|)
    ensures ParamSpace(f.params, f.variadicOnStack, 0) == 0
    ensures l.hidden.Some? ==> l.hidden.value == 0 - l.total
  {
    hide LocalSpace, LocalsAt, ParamsAt;
  }

  /** Parameters are packed upward in multiples of eight bytes from above the hidden pointer, which is at the bottom. */
  lemma ParamsPacked(l: Layout, f: FuncDecl, i: nat, j: nat)
    requires Describes(l, f) && i < j <= |f.params| && forall k :: i < k < j ==> Asked(f, ParamItem(k)).None?
    requires Asked(f, ParamItem(i)).Some?
    ensures l.hidden.Some? ==> l.hidden.value == 0 - l.total
    ensures j < |f.params| && Asked(f, ParamItem(j)).Some? ==>
              Given(l, ParamItem(j)) == Some(Given(l, ParamItem(i)).value + Round8(Asked(f, ParamItem(i)).value))
    ensures (forall k :: 0 <= k < i ==> Asked(f, ParamItem(k)).None?) ==>
              Given(l, ParamItem(i)) == Some(if f.hiddenOut then 8 - l.total else 0 - l.total)
    ensures j == |f.params| ==>
              Given(l, ParamItem(i)).value + Round8(Asked(f, ParamItem(i)).value) ==
              0 - LocalSpace(f.locals, |f.locals|)
  {
    hide Round8, ParamSpace, LocalSpace, LocalBytes, Describes, Given, Asked;
    GivenParam(l, f, i);
    if j < |f.params| && Asked(f, ParamItem(j)).Some? { GivenParam(l, f, j); }
    NoSpaceBetween(f, i + 1, j);
    NoSpaceBetween(f, 0, i);
    TotalSplits(l, f);
  }

  /** The area of the locals is what they ask for, but for rounding each up to eight bytes. */
  lemma {:induction false} LocalsTight(ls: seq<LocalDecl>, n: nat)
    requires n <= |ls|
    ensures LocalBytes(ls, n) <= LocalSpace(ls, n) <= LocalBytes(ls, n) + 7 * n
    ensures (forall i :: 0 <= i < n && !ls[i].skipped ==> ls[i].size % 8 == 0) ==>
              LocalSpace(ls, n) == LocalBytes(ls, n)
    decreases n
  {
    if n > 0 { LocalsTight(ls, n - 1); }
  }

  lemma EightIsRound()
    ensures Round8(8) == 8
  {
  }

  /** Locals are packed downward from the frame pointer, each as large as declared. */
  lemma LocalsPacked(l: Layout, f: FuncDecl, i: nat, j: nat)
    requires Describes(l, f) && i < j < |f.locals| && forall k :: i < k < j ==> Asked(f, LocalItem(k)).None?
    ensures Asked(f, LocalItem(i)).Some? && Asked(f, LocalItem(j)).Some? ==>
              Given(l, LocalItem(j)) == Some(Given(l, LocalItem(i)).value - Asked(f, LocalItem(j)).value)
    ensures (forall k :: 0 <= k < i ==> Asked(f, LocalItem(k)).None?) && Asked(f, LocalItem(i)).Some? ==>
              Given(l, LocalItem(i)) == Some(0 - Asked(f, LocalItem(i)).value)
  {
    NoSpaceBetween(f, i + 1, j);
    NoSpaceBetween(f, 0, i);
  }

  /** A temporary meets nothing that is not a temporary, and another temporary only when their ranges are disjoint. */
  lemma TempsApart(v: FrameView, loff: map<nat, int>, ranges: map<nat, Range>, ids: set<nat>, t: nat)
    requires Shares(loff, ranges, ids, Total(v.f) + BufferSpace(v.allocas, |v.allocas|), v.slots) && t in ids
    ensures Within(Region(loff[t], 8), 0 - (Total(v.f) + v.Extra()), 0)
    ensures forall item :: v.RegionOf(item).Some? && !item.SlotItem? ==>
              Apart(Region(loff[t], 8), v.RegionOf(item).value)
    ensures forall u :: u in ids && u != t ==>
              Apart(Region(loff[t], 8), Region(loff[u], 8)) || Disjoint(ranges[t], ranges[u])
  {
    var base := Total(v.f) + BufferSpace(v.allocas, |v.allocas|);
    var k :| 0 <= k < v.slots && InSlot(loff, t, base, k);
    assert v.RegionOf(SlotItem(k)) == Some(Region(loff[t], 8));
    InBand(v, SlotItem(k));
    forall item | v.RegionOf(item).Some? && !item.SlotItem?
      ensures Apart(Region(loff[t], 8), v.RegionOf(item).value)
    {
      FrameDisjoint(v, SlotItem(k), item);
    }
    forall u | u in ids && u != t
      ensures Apart(Region(loff[t], 8), Region(loff[u], 8)) || Disjoint(ranges[t], ranges[u])
    {
      var j :| 0 <= j < v.slots && InSlot(loff, u, base, j);
    }
  }

  // ----- when the declarations can be bound -----

  function IdOf(ids: Ids, item: Item): Option<nat>
  {
    match item
    case LocalItem(i) => if i < |ids.locals| then ids.locals[i] else None
    case HiddenItem => ids.hidden
    case ParamItem(i) => if i < |ids.params| then ids.params[i] else None
    case _ => None
  }

  /** No two declarations that ask for bytes are the same IR variable. */
  ghost predicate DistinctDeclared(f: FuncDecl, ids: Ids)
  {
    forall x, y :: Asked(f, x).Some? && Asked(f, y).Some? && IdOf(ids, x).Some? && IdOf(ids, x) == IdOf(ids, y) ==>
      x == y
  }

  /** What place k of the lists that are bound is for. */
  function ItemAt(ids: Ids, k: nat): Item
  {
    if k == 0 then HiddenItem
    else if k <= |ids.params| then ParamItem(k - 1)
    else LocalItem(k - 1 - |ids.params|)
  }

  function PlaceOf(ids: Ids, item: Item): nat
  {
    match item
    case HiddenItem => 0
    case ParamItem(i) => i + 1
    case LocalItem(i) => i + 1 + |ids.params|
    case _ => 0
  }

  predicate Matching(f: FuncDecl, ids: Ids, l: Layout)
  {
    |ids.locals| == |f.locals| == |l.locals| && |ids.params| == |f.params| == |l.params|
  }

  lemma PlaceBinds(l: Layout, f: FuncDecl, ids: Ids, k: nat)
    requires Describes(l, f) && Matching(f, ids, l) && k < |AllIds(ids)|
    ensures |AllIds(ids)| == |AllOffsets(l)| && AllIds(ids)[k] == IdOf(ids, ItemAt(ids, k))
    ensures Binds(AllIds(ids), AllOffsets(l), k) <==>
              IdOf(ids, ItemAt(ids, k)).Some? && Asked(f, ItemAt(ids, k)).Some?
  {
    hide Describes, Asked;
    EveryDeclarationPlaced(l, f, ItemAt(ids, k), ItemAt(ids, k));
  }

  lemma ItemHasPlace(f: FuncDecl, ids: Ids, l: Layout, item: Item)
    requires Matching(f, ids, l) && Asked(f, item).Some?
    ensures PlaceOf(ids, item) < |AllIds(ids)| && ItemAt(ids, PlaceOf(ids, item)) == item
  {
  }

  lemma DeclaredOnce(l: Layout, f: FuncDecl, ids: Ids)
    requires Describes(l, f) && Matching(f, ids, l)
    ensures BindsOnce({}, AllIds(ids), AllOffsets(l)) <==> DistinctDeclared(f, ids)
  {
    hide Describes, Asked, AllIds, AllOffsets, IdOf, Binds;
    assert |AllIds(ids)| == |AllOffsets(l)| by { PlacesMatch(ids, l, f); }
    forall k: nat | k < |AllIds(ids)|
      ensures AllIds(ids)[k] == IdOf(ids, ItemAt(ids, k))
      ensures Binds(AllIds(ids), AllOffsets(l), k) <==>
                IdOf(ids, ItemAt(ids, k)).Some? && Asked(f, ItemAt(ids, k)).Some?
    {
      PlaceBinds(l, f, ids, k);
    }
    if BindsOnce({}, AllIds(ids), AllOffsets(l)) {
      forall x, y | Asked(f, x).Some? && Asked(f, y).Some? && IdOf(ids, x).Some? && IdOf(ids, x) == IdOf(ids, y)
        ensures x == y
      {
        ItemHasPlace(f, ids, l, x);
        ItemHasPlace(f, ids, l, y);
        var i, j := PlaceOf(ids, x), PlaceOf(ids, y);
        assert Binds(AllIds(ids), AllOffsets(l), i) && Binds(AllIds(ids), AllOffsets(l), j);
      }
    }
  }

  lemma PlacesMatch(ids: Ids, l: Layout, f: FuncDecl)
    requires Matching(f, ids, l)
    ensures |AllIds(ids)| == |AllOffsets(l)|
  {
  }

  // ----- where every variable lives -----

  /** Variable `id` is what this item is for. */
  predicate LivesIn(v: FrameView, ids: Ids, temps: set<nat>, loff: map<nat, int>, id: nat, item: Item)
  {
    && id in loff && v.RegionOf(item).Some? && v.RegionOf(item).value.lo == loff[id]
    && match item
       case LocalItem(i) => i < |ids.locals| && ids.locals[i] == Some(id)
       case HiddenItem => ids.hidden == Some(id)
       case ParamItem(i) => i < |ids.params| && ids.params[i] == Some(id)
       case BufferItem(i) => i < |v.allocas| && v.allocas[i].id == id
       case SlotItem(_) => id in temps
  }

  /** Every variable with an offset lives in some item of the frame, and two in the same item are temporaries
      whose ranges are disjoint. */
  ghost predicate Housed(v: FrameView, ids: Ids, temps: set<nat>, ranges: map<nat, Range>, loff: map<nat, int>)
  {
    && (forall id :: id in loff ==> exists item :: LivesIn(v, ids, temps, loff, id, item))
    && (forall t, u, item ::
          LivesIn(v, ids, temps, loff, t, item) && LivesIn(v, ids, temps, loff, u, item) && t != u ==>
            t in ranges && u in ranges && Disjoint(ranges[t], ranges[u]))
  }

  /** What the three phases have established. */
  ghost predicate Phases(v: FrameView, l: Layout, ids: Ids, ranges: map<nat, Range>, temps: set<nat>,
                         bound: map<nat, int>, loff: map<nat, int>)
  {
    && |ids.locals| == |l.locals| && |ids.params| == |l.params|
    && Describes(l, v.f) && BuffersAt(loff, v.allocas, |v.allocas|, l.total) && DistinctIds(v.allocas)
    && Shares(loff, ranges, temps, l.total + BufferSpace(v.allocas, |v.allocas|), v.slots)
    && (forall id :: id in bound ==> id in loff && loff[id] == bound[id])
    && (forall id :: id in bound ==>
          || BoundBy(bound, [ids.hidden], [l.hidden], id)
          || BoundBy(bound, ids.params, l.params, id) || BoundBy(bound, ids.locals, l.locals, id))
    && loff.Keys <= bound.Keys + Names(v.allocas) + temps
  }

  lemma BoundLives(v: FrameView, l: Layout, ids: Ids, ranges: map<nat, Range>, temps: set<nat>,
                   bound: map<nat, int>, loff: map<nat, int>, id: nat) returns (item: Item)
    requires Phases(v, l, ids, ranges, temps, bound, loff) && id in bound
    ensures LivesIn(v, ids, temps, loff, id, item)
  {
    hide Shares, Describes;
    if BoundBy(bound, [ids.hidden], [l.hidden], id) {
      item := HiddenItem;
    } else if BoundBy(bound, ids.params, l.params, id) {
      var i :| 0 <= i < |ids.params| && ids.params[i] == Some(id) && l.params[i] == Some(bound[id]);
      item := ParamItem(i);
    } else {
      var i :| 0 <= i < |ids.locals| && ids.locals[i] == Some(id) && l.locals[i] == Some(bound[id]);
      item := LocalItem(i);
    }
    OffsetsAreRegions(v, l, loff, item);
  }

  lemma OthersLive(v: FrameView, l: Layout, ids: Ids, ranges: map<nat, Range>, temps: set<nat>,
                   bound: map<nat, int>, loff: map<nat, int>, id: nat) returns (item: Item)
    requires Phases(v, l, ids, ranges, temps, bound, loff) && id in loff && id !in bound
    ensures LivesIn(v, ids, temps, loff, id, item)
  {
    LayoutSizes(l, v.f);
    if id in Names(v.allocas) {
      var i :| 0 <= i < |v.allocas| && v.allocas[i].id == id;
      item := BufferItem(i);
    } else {
      var k :| 0 <= k < v.slots && InSlot(loff, id, l.total + BufferSpace(v.allocas, |v.allocas|), k);
      item := SlotItem(k);
    }
  }

  lemma SameItem(v: FrameView, l: Layout, ids: Ids, ranges: map<nat, Range>, temps: set<nat>,
                 bound: map<nat, int>, loff: map<nat, int>, t: nat, u: nat, item: Item)
    requires Phases(v, l, ids, ranges, temps, bound, loff) && t != u
    requires LivesIn(v, ids, temps, loff, t, item) && LivesIn(v, ids, temps, loff, u, item)
    ensures t in ranges && u in ranges && Disjoint(ranges[t], ranges[u])
  {
  }

  lemma EveryoneHoused(v: FrameView, l: Layout, ids: Ids, ranges: map<nat, Range>, temps: set<nat>,
                       bound: map<nat, int>, loff: map<nat, int>)
    requires Phases(v, l, ids, ranges, temps, bound, loff)
    ensures Housed(v, ids, temps, ranges, loff)
  {
    hide Phases, LivesIn, Disjoint;
    forall id | id in loff ensures exists item :: LivesIn(v, ids, temps, loff, id, item) {
      var item;
      if id in bound {
        item := BoundLives(v, l, ids, ranges, temps, bound, loff, id);
      } else {
        item := OthersLive(v, l, ids, ranges, temps, bound, loff, id);
      }
    }
    forall t, u, item | LivesIn(v, ids, temps, loff, t, item) && LivesIn(v, ids, temps, loff, u, item) && t != u
      ensures t in ranges && u in ranges && Disjoint(ranges[t], ranges[u])
    {
      SameItem(v, l, ids, ranges, temps, bound, loff, t, u, item);
    }
  }

  /**
   The whole frame, by variable: any two that have an offset occupy disjoint bytes inside the frame, unless they
   are temporaries with disjoint ranges. An alloca that stands for a local is that local.
   */
  lemma VariablesApart(v: FrameView, ids: Ids, temps: set<nat>, ranges: map<nat, Range>, loff: map<nat, int>,
                       t: nat, u: nat) returns (x: Item, y: Item)
    requires Housed(v, ids, temps, ranges, loff) && t in loff && u in loff && t != u
    ensures LivesIn(v, ids, temps, loff, t, x) && LivesIn(v, ids, temps, loff, u, y)
    ensures Within(v.RegionOf(x).value, 0 - (Total(v.f) + v.Extra()), 0)
    ensures Apart(v.RegionOf(x).value, v.RegionOf(y).value) || (x == y && Disjoint(ranges[t], ranges[u]))
  {
    hide Total, Disjoint;
    x :| LivesIn(v, ids, temps, loff, t, x);
    y :| LivesIn(v, ids, temps, loff, u, y);
    InBand(v, x);
    if x != y { FrameDisjoint(v, x, y); }
  }

  // ----- the reservation -----

  /** Bytes in use below the frame pointer, and what the function reserves for them. */
  function Needed(v: FrameView): nat
  {
    Total(v.f) + v.Extra()
  }

  function StackSpace(v: FrameView): nat
  {
    Round16(Needed(v)) % 0x1_0000
  }

  /** The reservation covers the frame exactly when the frame is not larger than 65520 bytes. */
  lemma ReservationCoversIff(v: FrameView)
    ensures Needed(v) <= StackSpace(v) <==> Needed(v) <= 65520
    ensures Needed(v) <= 65520 ==> StackSpace(v) < Needed(v) + 16
  {
    hide Total, BufferSpace;
    var n := Needed(v);
    var r := Round16(n);
    hide Round16;
    if n <= 65520 {
      assert r <= 65520;
    } else {
      assert r % 0x1_0000 < 0x1_0000;
      SixteenBelow(r);
    }
  }

  lemma SixteenBelow(r: nat)
    requires r % 16 == 0
    ensures r % 0x1_0000 <= 65520
  {
  }
}
