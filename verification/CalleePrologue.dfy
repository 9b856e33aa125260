/**
 a64EmitParamPrologue, and the theorem that ties it to the caller: every parameter slot receives the
 bytes of the caller's argument.
 */
module CalleePrologue {
  import opened Options
  import opened CallLowering
  import opened Regions
  import CS = CallSequence

  /** A declared parameter, with its frame offset if anything still refers to it. */
  datatype Decl = VarArgs | Fixed(p: Param, slot: Option<int>)

  datatype ParamOp =
    | AggStore(isFp: bool, reg: nat, loff: int, size: nat)
    | StackToSlot(size: nat, incoming: nat, loff: int)
    | IndirectToSlot(fromStack: bool, reg: nat, incoming: nat, size: nat, loff: int)

  /** `sp` is the stack pointer at entry; the frame pointer is 16 below it, under the frame record. */
  function Step(st: Machine, op: ParamOp): Machine
  {
    var fp := st.sp - 16;
    match op
    case AggStore(isFp, r, loff, size) => st.Store(fp + loff, Slice(st.Reg(isFp, r), 0, size))
    case StackToSlot(size, incoming, loff) => st.Store(fp + loff, Read(st.mem, fp + incoming, size))
    case IndirectToSlot(fromStack, r, incoming, size, loff) =>
      var ptr := if fromStack then Read(st.mem, fp + incoming, 8) else st.x(r);
      if |ptr| == 8 && ptr[0].StackPtr? then st.Store(fp + loff, Read(st.mem, ptr[0].addr, size)) else st
  }

  function Exec(st: Machine, ops: seq<ParamOp>): Machine
  {
    if ops == [] then st else Step(Exec(st, ops[..|ops| - 1]), ops[|ops| - 1])
  }

  lemma {:induction false} ExecAppend(st: Machine, a: seq<ParamOp>, b: seq<ParamOp>)
    ensures Exec(st, a + b) == Exec(Exec(st, a), b)
    decreases |b|
  {
    hide Step;
    if b == [] {
      assert a + b == a;
    } else {
      var c := b[..|b| - 1];
      ExecAppend(st, a, c);
      assert (a + b)[..|a + b| - 1] == a + c;
    }
  }

  lemma ExecOne(st: Machine, op: ParamOp)
    ensures Exec(st, [op]) == Step(st, op)
  {
    assert [op][..0] == [];
    assert Exec(st, []) == st;
  }

  // ----- what is emitted -----

  function Parts(isFp: bool, first: nat, width: nat, size: nat, loff: int, n: nat): seq<ParamOp>
  {
    if n == 0 then []
    else Parts(isFp, first, width, size, loff, n - 1)
         + [AggStore(isFp, first + n - 1, loff + Times(n - 1, width), ChunkSize(size, width, n - 1))]
  }

  /** The stores for one parameter; scalars that arrive in registers are stored elsewhere. */
  function ParamOps(p: Param, slot: Option<int>, c: Cursor): seq<ParamOp>
  {
    if slot.None? then []
    else
      var loff := slot.value;
      match (p.cls, Place(c, p, 0))
      case (Scalar(_), Regs(_, _, _, _)) => []
      case (_, Regs(isFp, first, width, count)) => Parts(isFp, first, width, p.size, loff, count)
      case (_, Stack(off)) => [StackToSlot(p.size, 16 + off, loff)]
      case (_, PtrReg(r, _)) => [IndirectToSlot(false, r, 16 + c.nsaa, p.size, loff)]
      case (_, PtrStack(off, _)) => [IndirectToSlot(true, c.g, 16 + off, p.size, loff)]
  }

  function AllOps(ps: seq<Param>, slots: seq<Option<int>>, n: nat): seq<ParamOp>
    requires n <= |ps| && |slots| == |ps|
  {
    if n == 0 then []
    else AllOps(ps, slots, n - 1) + ParamOps(ps[n - 1], slots[n - 1], Cursors(ps, n - 1))
  }

  method StoreParts(isFp: bool, first: nat, width: nat, size: nat, loff: int, n: nat) returns (ops: seq<ParamOp>)
    ensures ops == Parts(isFp, first, width, size, loff, n)
  {
    ops := [];
    for k := 0 to n
      invariant ops == Parts(isFp, first, width, size, loff, k)
    {
      ops := ops + [AggStore(isFp, first + k, loff + Times(k, width), ChunkSize(size, width, k))];
    }
  }

  /** The body of the parameter loop, with the callee's own counters. */
  method ReceiveOne(p: Param, slot: Option<int>, ngrn: nat, nsrn: nat, nsaa: nat, ghost copy: nat)
    returns (ops: seq<ParamOp>, ngrn': nat, nsrn': nat, nsaa': nat)
    requires ngrn <= 8 && nsrn <= 8
    ensures ops == ParamOps(p, slot, Cursor(ngrn, nsrn, nsaa, copy))
    ensures var d := Advance(Cursor(ngrn, nsrn, nsaa, copy), p); ngrn' == d.g && nsrn' == d.s && nsaa' == d.nsaa
  {
    hide Round8, Round16, Words, Parts;
    ngrn', nsrn', nsaa' := ngrn, nsrn, nsaa;
    ops := [];
    match p.cls {
      case Scalar(isFloat) =>
        if (if isFloat then nsrn < 8 else ngrn < 8) {
          if isFloat { nsrn' := nsrn + 1; } else { ngrn' := ngrn + 1; }
        } else {
          if slot.Some? { ops := [StackToSlot(p.size, 16 + nsaa, slot.value)]; }
          nsaa' := nsaa + 8;
        }
      case Hfa(elem, count) =>
        if nsrn + count <= 8 {
          if slot.Some? { ops := StoreParts(true, nsrn, elem, p.size, slot.value, count); }
          nsrn' := nsrn + count;
        } else {
          if slot.Some? { ops := [StackToSlot(p.size, 16 + nsaa, slot.value)]; }
          nsaa', nsrn' := nsaa + Round8(p.size), 8;
        }
      case Integer =>
        var ngp := Words(p.size);
        if ngrn + ngp <= 8 {
          if slot.Some? { ops := StoreParts(false, ngrn, 8, p.size, slot.value, ngp); }
          ngrn' := ngrn + ngp;
        } else {
          if slot.Some? { ops := [StackToSlot(p.size, 16 + nsaa, slot.value)]; }
          nsaa', ngrn' := nsaa + Round8(p.size), 8;
        }
      case Indirect =>
        var fromStack := ngrn >= 8;
        if slot.Some? { ops := [IndirectToSlot(fromStack, ngrn, 16 + nsaa, p.size, slot.value)]; }
        if fromStack { nsaa' := nsaa + 8; } else { ngrn' := ngrn + 1; }
    }
  }

  /** The declared parameters in front of the variadic part. */
  function FixedCount(ds: seq<Decl>): (n: nat)
    ensures n <= |ds| && (forall i :: 0 <= i < n ==> ds[i].Fixed?) && (n < |ds| ==> ds[n].VarArgs?)
  {
    if ds == [] || ds[0].VarArgs? then 0 else 1 + FixedCount(ds[1..])
  }

  function ParamsOf(ds: seq<Decl>): (ps: seq<Param>)
    ensures |ps| == FixedCount(ds)
  {
    seq(FixedCount(ds), i requires 0 <= i < FixedCount(ds) => ds[i].p)
  }

  function SlotsOf(ds: seq<Decl>): (slots: seq<Option<int>>)
    ensures |slots| == FixedCount(ds)
  {
    seq(FixedCount(ds), i requires 0 <= i < FixedCount(ds) => ds[i].slot)
  }

  lemma NothingYet(ps: seq<Param>, slots: seq<Option<int>>)
    requires |slots| == |ps|
    ensures Cursors(ps, 0) == Start && AllOps(ps, slots, 0) == []
  {
  }

  lemma OneMore(ps: seq<Param>, slots: seq<Option<int>>, i: nat)
    requires i < |ps| == |slots|
    ensures Cursors(ps, i).g <= 8 && Cursors(ps, i).s <= 8
    ensures Cursors(ps, i + 1) == Advance(Cursors(ps, i), ps[i])
    ensures AllOps(ps, slots, i + 1) == AllOps(ps, slots, i) + ParamOps(ps[i], slots[i], Cursors(ps, i))
  {
    hide Advance, ParamOps;
    CursorsGrow(ps, i, i);
  }

  /** a64EmitParamPrologue: stops at the variadic part. */
  method EmitPrologue(ds: seq<Decl>) returns (ops: seq<ParamOp>)
    ensures ops == AllOps(ParamsOf(ds), SlotsOf(ds), FixedCount(ds))
  {
    hide Advance, ParamOps, Cursors, AllOps;
    var ngrn, nsrn, nsaa := 0, 0, 0;
    ops := [];
    ghost var ps, slots, c := ParamsOf(ds), SlotsOf(ds), Start;
    NothingYet(ps, slots);
    var i := 0;
    while i < |ds| && ds[i].Fixed?
      invariant 0 <= i <= FixedCount(ds)
      invariant c == Cursors(ps, i) && c.g == ngrn && c.s == nsrn && c.nsaa == nsaa
      invariant ops == AllOps(ps, slots, i)
    {
      OneMore(ps, slots, i);
      var one;
      one, ngrn, nsrn, nsaa := ReceiveOne(ds[i].p, ds[i].slot, ngrn, nsrn, nsaa, c.copy);
      assert ds[i].p == ps[i] && ds[i].slot == slots[i];
      ops := ops + one;
      c := Advance(c, ps[i]);
      i := i + 1;
    }
  }

  // ----- what is received -----

  /** This parameter is left to the store that follows its arrival in a register. */
  predicate ByArrival(c: Cursor, p: Param)
  {
    p.cls.Scalar? && Place(c, p, 0).Regs?
  }

  /** Registers, and memory at and above the entry stack pointer, are as they were. */
  ghost predicate Undisturbed(st: Machine, st': Machine)
  {
    && st'.sp == st.sp && st'.x == st.x && st'.v == st.v
    && forall a: int :: a >= st.sp ==> st'.mem(a) == st.mem(a)
  }

  lemma UndisturbedHolds(st: Machine, st': Machine, pl: Placement, size: nat, val: seq<Cell>)
    requires Undisturbed(st, st') && Holds(st, pl, size, val)
    ensures Holds(st', pl, size, val)
  {
    hide HoldsChunk, Slice;
    match pl
    case Regs(isFp, first, width, count) =>
      forall k | 0 <= k < count ensures ChunkAt(st', isFp, first, val, width, k) {
        assert ChunkAt(st, isFp, first, val, width, k);
      }
    case Stack(off) => ReadSame(st.mem, st'.mem, st.sp + off, size);
    case PtrReg(r, copy) => ReadSame(st.mem, st'.mem, st.sp + copy, size);
    case PtrStack(off, copy) =>
      ReadSame(st.mem, st'.mem, st.sp + off, 8);
      ReadSame(st.mem, st'.mem, st.sp + copy, size);
  }

  /** Only the slot's own bytes changed. */
  ghost predicate OnlySlot(st: Machine, st': Machine, loff: int, size: nat)
  {
    && st'.sp == st.sp && st'.x == st.x && st'.v == st.v
    && forall a: int :: !(loff <= a - (st.sp - 16) < loff + size) ==> st'.mem(a) == st.mem(a)
  }

  lemma {:induction false} PartsStored(st: Machine, isFp: bool, first: nat, width: nat, loff: int, val: seq<Cell>,
                                       n: nat)
    requires forall k :: 0 <= k < n ==> ChunkAt(st, isFp, first, val, width, k)
    ensures var st' := Exec(st, Parts(isFp, first, width, |val|, loff, n));
            && OnlySlot(st, st', loff, |val|)
            && Read(st'.mem, st.sp - 16 + loff, CS.Covered(|val|, width, n)) == val[..CS.Covered(|val|, width, n)]
    decreases n
  {
    hide Times, ChunkSize, CS.Covered, Write, Step, Read, HoldsChunk, OnlySlot;
    SameSlot(st, loff, |val|);
    if n == 0 {
      CS.NothingCovered(st.mem, st.sp - 16 + loff, val, width);
    } else {
      PartsStored(st, isFp, first, width, loff, val, n - 1);
      var ops := Parts(isFp, first, width, |val|, loff, n - 1);
      var op := AggStore(isFp, first + n - 1, loff + Times(n - 1, width), ChunkSize(|val|, width, n - 1));
      assert (ops + [op])[..|ops|] == ops;
      assert ChunkAt(st, isFp, first, val, width, n - 1);
      SlotRegs(st, Exec(st, ops), loff, |val|);
      PartStored(Exec(st, ops), isFp, first, width, loff, val, n - 1);
      OnlySlotTrans(st, Exec(st, ops), Exec(st, ops + [op]), loff, |val|);
    }
  }

  lemma PartStored(st: Machine, isFp: bool, first: nat, width: nat, loff: int, val: seq<Cell>, k: nat)
    requires HoldsChunk(st.Reg(isFp, first + k), val, width, k)
    requires Read(st.mem, st.sp - 16 + loff, CS.Covered(|val|, width, k)) == val[..CS.Covered(|val|, width, k)]
    ensures var st' := Step(st, AggStore(isFp, first + k, loff + Times(k, width), ChunkSize(|val|, width, k)));
            && OnlySlot(st, st', loff, |val|)
            && var n := CS.Covered(|val|, width, k + 1); Read(st'.mem, st.sp - 16 + loff, n) == val[..n]
  {
    hide Times, ChunkSize, CS.Covered, Write, Read;
    CS.NextChunk(|val|, width, k);
    var at, size, to := Times(k, width), ChunkSize(|val|, width, k), st.sp - 16 + loff;
    var c := Slice(st.Reg(isFp, first + k), 0, size);
    assert c == val[at..at + size];
    WriteFrame(st.mem, to + at, c);
    if size > 0 {
      WriteExtends(st.mem, to, val, at, size);
    } else {
      WriteNothing(st.mem, to, to + at, c, CS.Covered(|val|, width, k));
    }
  }

  lemma SameSlot(st: Machine, loff: int, size: nat)
    ensures OnlySlot(st, st, loff, size)
  {
  }

  lemma SlotRegs(st: Machine, st': Machine, loff: int, size: nat)
    requires OnlySlot(st, st', loff, size)
    ensures st'.sp == st.sp && st'.x == st.x && st'.v == st.v
  {
  }

  lemma OnlySlotTrans(a: Machine, b: Machine, c: Machine, loff: int, size: nat)
    requires OnlySlot(a, b, loff, size) && OnlySlot(b, c, loff, size)
    ensures OnlySlot(a, c, loff, size)
  {
  }

  /** One parameter: its slot receives the argument's bytes, and nothing else changes. */
  lemma ParamReceived(st: Machine, p: Param, loff: int, c: Cursor, base: nat, val: seq<Cell>)
    requires Classified(p) && |val| == ValueSize(p) && loff + p.size <= 0
    requires Holds(st, Place(c, p, base), p.size, val)
    ensures var st' := Exec(st, ParamOps(p, Some(loff), c));
            && OnlySlot(st, st', loff, p.size)
            && (!ByArrival(c, p) ==> Read(st'.mem, st.sp - 16 + loff, p.size) == Slice(val, 0, p.size))
  {
    hide Read, Slice, Exec, OnlySlot, Step, Write, Words, HoldsChunk, ChunkAt;
    var pl := Place(c, p, base);
    if pl.Regs? {
      InRegsReceived(st, p, loff, c, base, val);
    } else if pl.Stack? {
      CopiedIn(st, p.size, pl.off, loff);
    } else {
      PointeeCopied(st, pl.PtrStack?, if pl.PtrReg? then pl.reg else c.g, c.nsaa, p.size, loff, pl.copy);
    }
  }

  lemma CopiedIn(st: Machine, size: nat, off: nat, loff: int)
    ensures var st' := Exec(st, [StackToSlot(size, 16 + off, loff)]);
            OnlySlot(st, st', loff, size) && Read(st'.mem, st.sp - 16 + loff, size) == Read(st.mem, st.sp + off, size)
  {
    hide Read, Write, Exec, OnlySlot;
    ExecOne(st, StackToSlot(size, 16 + off, loff));
    FromMemory(st, loff, off, size);
  }

  lemma PointeeCopied(st: Machine, fromStack: bool, r: nat, off: nat, size: nat, loff: int, copy: nat)
    requires (if fromStack then Read(st.mem, st.sp + off, 8) else st.x(r)) == StackAddr(st.sp + copy)
    ensures var st' := Exec(st, [IndirectToSlot(fromStack, r, 16 + off, size, loff)]);
            OnlySlot(st, st', loff, size) && Read(st'.mem, st.sp - 16 + loff, size) == Read(st.mem, st.sp + copy, size)
  {
    hide Read, Write, Exec, OnlySlot;
    ExecOne(st, IndirectToSlot(fromStack, r, 16 + off, size, loff));
    FromMemory(st, loff, copy, size);
  }

  lemma InRegsReceived(st: Machine, p: Param, loff: int, c: Cursor, base: nat, val: seq<Cell>)
    requires Classified(p) && |val| == ValueSize(p)
    requires Place(c, p, base).Regs? && Holds(st, Place(c, p, base), p.size, val)
    ensures var st' := Exec(st, ParamOps(p, Some(loff), c));
            && OnlySlot(st, st', loff, p.size)
            && (!p.cls.Scalar? ==> Read(st'.mem, st.sp - 16 + loff, p.size) == Slice(val, 0, p.size))
  {
    hide Words, Write, Read, HoldsChunk, ChunkSize, Times, OnlySlot, CS.Covered, Parts;
    var pl := Place(c, p, base);
    SameSlot(st, loff, p.size);
    if !p.cls.Scalar? {
      CS.AllCovered(p);
      PartsStored(st, pl.isFp, pl.first, pl.width, loff, val, pl.count);
      assert val[..p.size] == val;
    }
  }

  lemma FromMemory(st: Machine, loff: int, off: nat, size: nat)
    ensures var st' := st.Store(st.sp - 16 + loff, Read(st.mem, st.sp + off, size));
            OnlySlot(st, st', loff, size) && Read(st'.mem, st.sp - 16 + loff, size) == Read(st.mem, st.sp + off, size)
  {
    SlotWritten(st, loff, Read(st.mem, st.sp + off, size));
  }

  lemma SlotWritten(st: Machine, loff: int, bytes: seq<Cell>)
    ensures var st' := st.Store(st.sp - 16 + loff, bytes);
            OnlySlot(st, st', loff, |bytes|) && Read(st'.mem, st.sp - 16 + loff, |bytes|) == bytes
  {
    ReadBack(st.mem, st.sp - 16 + loff, bytes);
  }

  // ----- the whole list -----

  /** Slots lie below the frame pointer and do not overlap. */
  ghost predicate SlotsApart(ps: seq<Param>, slots: seq<Option<int>>)
    requires |slots| == |ps|
  {
    && (forall i :: 0 <= i < |ps| && slots[i].Some? ==> slots[i].value + ps[i].size <= 0)
    && (forall i, j :: 0 <= i < j < |ps| && slots[i].Some? && slots[j].Some? ==>
          Apart(Region(slots[i].value, ps[i].size), Region(slots[j].value, ps[j].size)))
  }

  predicate Received(st: Machine, ps: seq<Param>, slots: seq<Option<int>>, i: int, a0: nat, vals: seq<seq<Cell>>)
    requires 0 <= i < |ps| && |slots| == |ps| && |vals| >= a0 + |ps|
  {
    slots[i].Some? && !ByArrival(Cursors(ps, i), ps[i]) ==>
      Read(st.mem, st.sp - 16 + slots[i].value, ps[i].size) == Slice(vals[a0 + i], 0, ps[i].size)
  }

  /** Running the prologue on a machine where every argument is in place fills every slot. */
  lemma {:induction false} AllReceived(st: Machine, ps: seq<Param>, slots: seq<Option<int>>, n: nat, base: nat,
                                       a0: nat, vals: seq<seq<Cell>>)
    requires n <= |ps| == |slots| && AllClassified(ps) && Values(a0, ps, vals) && SlotsApart(ps, slots)
    requires Arrived(st, a0, ps, |ps|, base, vals)
    ensures var st' := Exec(st, AllOps(ps, slots, n));
            Undisturbed(st, st') && forall i :: 0 <= i < n ==> Received(st', ps, slots, i, a0, vals)
    decreases n
  {
    hide Step, Place, Advance, Holds, Cursors, Classified, Received, ParamOps;
    if n > 0 {
      var m := n - 1;
      AllReceived(st, ps, slots, m, base, a0, vals);
      var st1, ops := Exec(st, AllOps(ps, slots, m)), ParamOps(ps[m], slots[m], Cursors(ps, m));
      ExecAppend(st, AllOps(ps, slots, m), ops);
      OneMoreReceived(st, st1, ps, slots, m, base, a0, vals);
    }
  }

  lemma OneMoreReceived(st: Machine, st1: Machine, ps: seq<Param>, slots: seq<Option<int>>, m: nat, base: nat, a0: nat,
                        vals: seq<seq<Cell>>)
    requires m < |ps| == |slots| && AllClassified(ps) && Values(a0, ps, vals) && SlotsApart(ps, slots)
    requires Arrived(st, a0, ps, |ps|, base, vals) && Undisturbed(st, st1)
    requires forall i :: 0 <= i < m ==> Received(st1, ps, slots, i, a0, vals)
    ensures var st2 := Exec(st1, ParamOps(ps[m], slots[m], Cursors(ps, m)));
            Undisturbed(st, st2) && forall i :: 0 <= i <= m ==> Received(st2, ps, slots, i, a0, vals)
  {
    hide Step, Place, Advance, Holds, Cursors, Classified, Exec, ParamOps;
    var c, p := Cursors(ps, m), ps[m];
    var st2 := Exec(st1, ParamOps(p, slots[m], c));
    assert ArrivedAt(st, a0, ps, m, base, vals);
    UndisturbedHolds(st, st1, Place(c, p, base), p.size, vals[a0 + m]);
    if slots[m].None? {
      NoOps(st1, p, c);
      forall i | 0 <= i <= m ensures Received(st2, ps, slots, i, a0, vals) {
        if i < m { assert Received(st1, ps, slots, i, a0, vals); }
      }
    } else {
      var loff := slots[m].value;
      ParamReceived(st1, p, loff, c, base, vals[a0 + m]);
      forall i | 0 <= i <= m ensures Received(st2, ps, slots, i, a0, vals) {
        if i < m {
          assert Received(st1, ps, slots, i, a0, vals);
          if slots[i].Some? {
            assert Apart(Region(slots[i].value, ps[i].size), Region(loff, p.size));
            ReadSame(st1.mem, st2.mem, st1.sp - 16 + slots[i].value, ps[i].size);
          }
        }
      }
    }
  }

  lemma NoOps(st: Machine, p: Param, c: Cursor)
    ensures Exec(st, ParamOps(p, None, c)) == st
  {
  }

  // ----- caller and callee together -----

  lemma {:induction false} CursorsOfPrefix(ps: seq<Param>, n: nat, i: nat)
    requires i <= n <= |ps|
    ensures Cursors(ps[..n], i) == Cursors(ps, i)
    decreases i
  {
    if i > 0 { CursorsOfPrefix(ps, n, i - 1); }
  }

  /** A callee entered with its first arguments in place fills the slots of its declared parameters, whatever
      follows them. */
  lemma Delivered(entry: Machine, all: seq<Param>, a0: nat, base: nat, vals: seq<seq<Cell>>, ds: seq<Decl>)
    requires AllClassified(all) && Values(a0, all, vals)
    requires FixedCount(ds) <= |all| && ParamsOf(ds) == all[..FixedCount(ds)] && SlotsApart(ParamsOf(ds), SlotsOf(ds))
    requires forall i :: 0 <= i < FixedCount(ds) ==> ArrivedAt(entry, a0, all, i, base, vals)
    ensures var st' := Exec(entry, AllOps(ParamsOf(ds), SlotsOf(ds), FixedCount(ds)));
            forall i :: 0 <= i < FixedCount(ds) ==>
              Received(st', ParamsOf(ds), SlotsOf(ds), i, a0, vals) && ArrivedAt(st', a0, all, i, base, vals)
  {
    hide Exec, AllOps, Cursors, Holds, Place, Received, Classified;
    var n, ps := FixedCount(ds), ParamsOf(ds);
    var vs := vals[..a0 + n];
    forall i | 0 <= i < n ensures ArrivedAt(entry, a0, ps, i, base, vs) {
      assert ArrivedAt(entry, a0, all, i, base, vals);
      CursorsOfPrefix(all, n, i);
    }
    AllReceived(entry, ps, SlotsOf(ds), n, base, a0, vs);
    var st' := Exec(entry, AllOps(ps, SlotsOf(ds), n));
    forall i | 0 <= i < n
      ensures Received(st', ps, SlotsOf(ds), i, a0, vals) && ArrivedAt(st', a0, all, i, base, vals)
    {
      assert ArrivedAt(entry, a0, all, i, base, vals);
      UndisturbedHolds(entry, st', Place(Cursors(all, i), all[i], base), all[i].size, vals[a0 + i]);
      assert Received(st', ps, SlotsOf(ds), i, a0, vs);
      SameValue(st', ps, SlotsOf(ds), i, a0, vs, vals);
    }
  }

  lemma SameValue(st: Machine, ps: seq<Param>, slots: seq<Option<int>>, i: nat, a0: nat, vs: seq<seq<Cell>>,
                  vals: seq<seq<Cell>>)
    requires i < |ps| == |slots| && a0 + |ps| == |vs| <= |vals| && vs[a0 + i] == vals[a0 + i]
    requires Received(st, ps, slots, i, a0, vs)
    ensures Received(st, ps, slots, i, a0, vals)
  {
  }

  /**
   The callee declares `ds`; the caller passes arguments whose first ones have the declared types, and
   perhaps more for a variadic part. The callee is entered with the machine the call sequence leaves,
   except below the stack pointer. Then every declared parameter with a slot holds the caller's bytes,
   and one left to its arrival store is still in its register.
   */
  lemma CallDelivers(args: seq<Param>, ret: CS.Return, vals: seq<seq<Cell>>, st: Machine, ds: seq<Decl>, entry: Machine)
    requires CS.Callable(args, ret) && CS.CallValues(args, ret, vals)
    requires var ps := args[CS.First(ret)..];
             && FloatsFit(ps, |ps|) && FixedCount(ds) <= |ps| && ParamsOf(ds) == ps[..FixedCount(ds)]
    requires SlotsApart(ParamsOf(ds), SlotsOf(ds))
    requires Undisturbed(CallLowering.Exec(vals, st, CS.Before(args, ret)), entry)
    ensures var st' := Exec(entry, AllOps(ParamsOf(ds), SlotsOf(ds), FixedCount(ds)));
            forall i :: 0 <= i < FixedCount(ds) ==>
              && Received(st', ParamsOf(ds), SlotsOf(ds), i, CS.First(ret), vals)
              && ArrivedAt(st', CS.First(ret), args[CS.First(ret)..], i, CS.End(args, ret).nsaa, vals)
  {
    hide CallLowering.Exec, Exec, AllOps, Cursors, Holds, Place, CS.Before, Received, Classified, FloatsFit;
    hide CS.StashOff, CS.Total, ArgAddr;
    CS.CallPrepared(args, ret, vals, st);
    var a0, base := CS.First(ret), CS.End(args, ret).nsaa;
    var all := args[a0..];
    var st1 := CallLowering.Exec(vals, st, CS.Before(args, ret));
    assert Arrived(st1, a0, all, |all|, base, vals);
    forall i | 0 <= i < |all| ensures ArrivedAt(entry, a0, all, i, base, vals) {
      assert ArrivedAt(st1, a0, all, i, base, vals);
      UndisturbedHolds(st1, entry, Place(Cursors(all, i), all[i], base), all[i].size, vals[a0 + i]);
    }
    Delivered(entry, all, a0, base, vals, ds);
  }
}
