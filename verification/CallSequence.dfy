/**
 The emission loops around CallLowering: the sizing pre-pass, the whole call sequence with its stashed
 return pointer, and the callee's prologue, which counts registers and stack bytes on its own.
 */
module CallSequence {
  import opened CallLowering
  import opened Regions

  // ----- the three loops -----

  /** The pre-pass: sizes of the stack-argument area and of the copy area. */
  method PrePass(args: seq<Param>, a0: nat) returns (nsaaTotal: nat, indirectBytes: nat)
    requires a0 <= |args|
    ensures nsaaTotal == Cursors(args[a0..], |args| - a0).nsaa
    ensures indirectBytes == Cursors(args[a0..], |args| - a0).copy
  {
    hide Words, Round8, Round16;
    var g, s := 0, 0;
    nsaaTotal, indirectBytes := 0, 0;
    ghost var ps := args[a0..];
    for i := a0 to |args|
      invariant Cursors(ps, i - a0) == Cursor(g, s, nsaaTotal, indirectBytes)
    {
      var p := args[i];
      assert p == ps[i - a0];
      match p.cls {
        case Indirect =>
          indirectBytes := indirectBytes + Round16(p.size);
          if g < 8 { g := g + 1; } else { nsaaTotal := nsaaTotal + 8; }
        case Hfa(_, count) =>
          if s + count <= 8 { s := s + count; } else { nsaaTotal := nsaaTotal + Round8(p.size); s := 8; }
        case Integer =>
          var ngp := Words(p.size);
          if g + ngp <= 8 { g := g + ngp; } else { nsaaTotal := nsaaTotal + Round8(p.size); g := 8; }
        case Scalar(isFloat) =>
          if isFloat {
            if s < 8 { s := s + 1; } else { nsaaTotal := nsaaTotal + 8; }
          } else {
            if g < 8 { g := g + 1; } else { nsaaTotal := nsaaTotal + 8; }
          }
      }
    }
  }

  method LoadChunks(isFp: bool, first: nat, width: nat, size: nat, n: nat) returns (ops: seq<CallOp>)
    ensures ops == Chunks(isFp, first, width, size, n)
  {
    ops := [];
    for k := 0 to n
      invariant ops == Chunks(isFp, first, width, size, k)
    {
      ops := ops + [AggLoad(isFp, first + k, Times(k, width), ChunkSize(size, width, k))];
    }
  }

  /** The emission of one argument, with the caller's running cursors. */
  method EmitArg(i: nat, p: Param, ngrn: nat, nsrn: nat, nsaa: nat, copyOff: nat, copyBase: nat)
    returns (ops: seq<CallOp>, ngrn': nat, nsrn': nat, nsaa': nat, copyOff': nat)
    ensures ops == ArgOps(i, p, Cursor(ngrn, nsrn, nsaa, copyOff), copyBase)
    ensures Cursor(ngrn', nsrn', nsaa', copyOff') == Advance(Cursor(ngrn, nsrn, nsaa, copyOff), p)
  {
    hide Round8, Round16, Words, Chunks;
    ngrn', nsrn', nsaa', copyOff' := ngrn, nsrn, nsaa, copyOff;
    match p.cls {
      case Indirect =>
        var dst := copyBase + copyOff;
        ops := [StructAddr(i), CopyToSp(p.size, dst)];
        if ngrn < 8 {
          ops := ops + [PtrInReg(ngrn, dst)];
          ngrn' := ngrn + 1;
        } else {
          ops := ops + [PtrToStack(dst, nsaa)];
          nsaa' := nsaa + 8;
        }
        copyOff' := copyOff + Round16(p.size);
      case Hfa(elem, count) =>
        if nsrn + count <= 8 {
          var loads := LoadChunks(true, nsrn, elem, p.size, count);
          ops := [StructAddr(i)] + loads;
          nsrn' := nsrn + count;
        } else {
          ops := [StructAddr(i), CopyToSp(p.size, nsaa)];
          nsaa', nsrn' := nsaa + Round8(p.size), 8;
        }
      case Integer =>
        var ngp := Words(p.size);
        if ngrn + ngp <= 8 {
          var loads := LoadChunks(false, ngrn, 8, p.size, ngp);
          ops := [StructAddr(i)] + loads;
          ngrn' := ngrn + ngp;
        } else {
          ops := [StructAddr(i), CopyToSp(p.size, nsaa)];
          nsaa', ngrn' := nsaa + Round8(p.size), 8;
        }
      case Scalar(isFloat) =>
        if isFloat {
          if nsrn < 8 {
            ops := [ScalarToReg(i, true, nsrn)];
            nsrn' := nsrn + 1;
          } else {
            ops := [ScalarToStack(i, true, p.size, nsaa)];
            nsaa' := nsaa + 8;
          }
        } else {
          if ngrn < 8 {
            ops := [ScalarToReg(i, false, ngrn)];
            ngrn' := ngrn + 1;
          } else {
            ops := [ScalarToStack(i, false, p.size, nsaa)];
            nsaa' := nsaa + 8;
          }
        }
    }
  }

  /** The argument loop; at its end the cursors are what the pre-pass measured. */
  method EmitArgs(args: seq<Param>, a0: nat, copyBase: nat) returns (ops: seq<CallOp>, nsaa: nat, copyOff: nat)
    requires a0 <= |args|
    ensures ops == ArgsOps(a0, args[a0..], |args| - a0, copyBase)
    ensures nsaa == Cursors(args[a0..], |args| - a0).nsaa && copyOff == Cursors(args[a0..], |args| - a0).copy
  {
    hide Advance, ArgOps;
    var ngrn, nsrn := 0, 0;
    ops, nsaa, copyOff := [], 0, 0;
    ghost var ps := args[a0..];
    for i := a0 to |args|
      invariant Cursors(ps, i - a0) == Cursor(ngrn, nsrn, nsaa, copyOff)
      invariant ops == ArgsOps(a0, ps, i - a0, copyBase)
    {
      assert args[i] == ps[i - a0];
      var one;
      one, ngrn, nsrn, nsaa, copyOff := EmitArg(i, args[i], ngrn, nsrn, nsaa, copyOff, copyBase);
      ops := ops + one;
    }
  }

  // ----- the call sequence -----

  /** How a call's result comes back; an aggregate's destination buffer is args[0]. */
  datatype Return = Plain | Aggregate(p: Param)

  function First(ret: Return): nat
  {
    if ret.Aggregate? then 1 else 0
  }

  predicate Callable(args: seq<Param>, ret: Return)
  {
    && AllClassified(args) && (ret.Aggregate? ==> |args| > 0 && Classified(ret.p) && !ret.p.cls.Scalar?)
  }

  function End(args: seq<Param>, ret: Return): Cursor
    requires Callable(args, ret)
  {
    Cursors(args[First(ret)..], |args| - First(ret))
  }

  function StashOff(args: seq<Param>, ret: Return): nat
    requires Callable(args, ret)
  {
    End(args, ret).nsaa + End(args, ret).copy
  }

  function Total(args: seq<Param>, ret: Return): (r: nat)
    requires Callable(args, ret)
    ensures r % 16 == 0 && StashOff(args, ret) + (if ret.Aggregate? then 8 else 0) <= r
    ensures r < StashOff(args, ret) + (if ret.Aggregate? then 16 else 0) + 16
  {
    Round16(StashOff(args, ret) + if ret.Aggregate? then 16 else 0)
  }

  function Lower(n: nat): seq<CallOp> { if n > 0 then [SubSp(n)] else [] }
  function Raise(n: nat): seq<CallOp> { if n > 0 then [AddSp(n)] else [] }

  function Setup(args: seq<Param>, ret: Return): seq<CallOp>
    requires Callable(args, ret)
  {
    Lower(Total(args, ret))
    + (if ret.Aggregate? then [StructAddr(0), StashDest(StashOff(args, ret))] else [])
    + (if ret.Aggregate? && ret.p.size > 16 then [ScalarToReg(0, false, 8)] else [])
  }

  function RetChunks(isFp: bool, width: nat, size: nat, n: nat): seq<CallOp>
  {
    if n == 0 then []
    else RetChunks(isFp, width, size, n - 1)
         + [RetChunk(isFp, n - 1, Times(n - 1, width), ChunkSize(size, width, n - 1))]
  }

  function Width(p: Param): nat { if p.cls.Hfa? then p.cls.elem else 8 }
  function Count(p: Param): nat { if p.cls.Hfa? then p.cls.count else Words(p.size) }

  function Teardown(args: seq<Param>, ret: Return): seq<CallOp>
    requires Callable(args, ret)
  {
    (if ret.Aggregate? then [UnstashDest(StashOff(args, ret))] else [])
    + (if ret.Aggregate? && ret.p.size <= 16 then RetChunks(ret.p.cls.Hfa?, Width(ret.p), ret.p.size, Count(ret.p))
       else [])
    + Raise(Total(args, ret))
  }

  method StoreChunks(isFp: bool, width: nat, size: nat, n: nat) returns (ops: seq<CallOp>)
    ensures ops == RetChunks(isFp, width, size, n)
  {
    ops := [];
    for k := 0 to n
      invariant ops == RetChunks(isFp, width, size, k)
    {
      ops := ops + [RetChunk(isFp, k, Times(k, width), ChunkSize(size, width, k))];
    }
  }

  /** a64EmitCall: what it emits before and after the branch. */
  method EmitCall(args: seq<Param>, ret: Return) returns (before: seq<CallOp>, after: seq<CallOp>)
    requires Callable(args, ret)
    ensures before == Before(args, ret)
    ensures after == Teardown(args, ret)
  {
    hide ArgsOps, Cursors, RetChunks, Words;
    var a0 := if ret.Aggregate? then 1 else 0;
    var nsaaTotal, indirectBytes := PrePass(args, a0);
    var destSaveOff := nsaaTotal + indirectBytes;
    var total := Round16(nsaaTotal + indirectBytes + if ret.Aggregate? then 16 else 0);
    before := [];
    if total > 0 { before := before + [SubSp(total)]; }
    if ret.Aggregate? { before := before + [StructAddr(0), StashDest(destSaveOff)]; }
    if ret.Aggregate? && ret.p.size > 16 { before := before + [ScalarToReg(0, false, 8)]; }
    assert before == Setup(args, ret);
    var loop, nsaa, copyOff := EmitArgs(args, a0, nsaaTotal);
    before := before + loop;

    after := [];
    if ret.Aggregate? {
      after := after + [UnstashDest(destSaveOff)];
      if ret.p.size <= 16 {
        var chunks;
        if ret.p.cls.Hfa? {
          chunks := StoreChunks(true, ret.p.cls.elem, ret.p.size, ret.p.cls.count);
        } else {
          chunks := StoreChunks(false, 8, ret.p.size, Words(ret.p.size));
        }
        after := after + chunks;
      }
    }
    if total > 0 { after := after + [AddSp(total)]; }
    assert after == Teardown(args, ret);
  }

  /** Argument 0 of an aggregate-returning call is the address of the destination buffer. */
  predicate CallValues(args: seq<Param>, ret: Return, vals: seq<seq<Cell>>)
    requires Callable(args, ret)
  {
    Values(First(ret), args[First(ret)..], vals) && (ret.Aggregate? ==> vals[0] == ArgAddr(0))
  }

  function Before(args: seq<Param>, ret: Return): seq<CallOp>
    requires Callable(args, ret)
  {
    Setup(args, ret) + ArgsOps(First(ret), args[First(ret)..], |args| - First(ret), End(args, ret).nsaa)
  }

  /** What holds when the branch is taken. */
  ghost predicate Prepared(args: seq<Param>, ret: Return, vals: seq<seq<Cell>>, st: Machine, st': Machine)
    requires Callable(args, ret) && CallValues(args, ret, vals)
  {
    && st'.sp == st.sp - Total(args, ret) && st'.buf == st.buf
    && (forall a: int :: a >= st.sp ==> st'.mem(a) == st.mem(a))
    && (ret.Aggregate? ==> Read(st'.mem, st'.sp + StashOff(args, ret), 8) == ArgAddr(0))
    && (ret.Aggregate? && ret.p.size > 16 ==> st'.x(8) == ArgAddr(0))
  }

  lemma SetUp(args: seq<Param>, ret: Return, vals: seq<seq<Cell>>, st: Machine)
    requires Callable(args, ret) && CallValues(args, ret, vals)
    ensures Prepared(args, ret, vals, st, Exec(vals, st, Setup(args, ret)))
  {
    hide Step, StashOff, Cursors, Write, Total, Exec, ArgAddr;
    var total, off := Total(args, ret), StashOff(args, ret);
    var st1 := st.(sp := st.sp - total);
    LowerSp(vals, st, total);
    if ret.Aggregate? {
      Stash(vals, st1, off);
      ExecAppend(vals, st, Lower(total), [StructAddr(0), StashDest(off)]);
      var st2 := Exec(vals, st1, [StructAddr(0), StashDest(off)]);
      if ret.p.size > 16 {
        ExecAppend(vals, st, Lower(total) + [StructAddr(0), StashDest(off)], [ScalarToReg(0, false, 8)]);
        ResultPointer(vals, st2);
      } else {
        assert Setup(args, ret) == Lower(total) + [StructAddr(0), StashDest(off)];
      }
    } else {
      assert Setup(args, ret) == Lower(total);
    }
  }

  lemma LowerSp(vals: seq<seq<Cell>>, st: Machine, n: nat)
    ensures Exec(vals, st, Lower(n)) == st.(sp := st.sp - n)
  {
    if n > 0 { ExecOne(vals, st, SubSp(n)); }
  }

  lemma RaiseSp(vals: seq<seq<Cell>>, st: Machine, n: nat)
    ensures Exec(vals, st, Raise(n)) == st.(sp := st.sp + n)
  {
    if n > 0 { ExecOne(vals, st, AddSp(n)); }
  }

  lemma Stash(vals: seq<seq<Cell>>, st: Machine, off: nat)
    ensures var st' := Exec(vals, st, [StructAddr(0), StashDest(off)]);
            && st'.sp == st.sp && st'.buf == st.buf && st'.v == st.v
            && Read(st'.mem, st.sp + off, 8) == ArgAddr(0)
            && forall a: int :: !(off <= a - st.sp < off + 8) ==> st'.mem(a) == st.mem(a)
  {
    hide Write;
    assert [StructAddr(0)] + [StashDest(off)] == [StructAddr(0), StashDest(off)];
    ExecAppend(vals, st, [StructAddr(0)], [StashDest(off)]);
    ExecOne(vals, st, StructAddr(0));
    var st1 := Step(vals, st, StructAddr(0));
    ExecOne(vals, st1, StashDest(off));
    ReadBack(st1.mem, st.sp + off, ArgAddr(0));
    WriteFrame(st1.mem, st.sp + off, ArgAddr(0));
  }

  lemma ResultPointer(vals: seq<seq<Cell>>, st: Machine)
    requires |vals| > 0
    ensures var st' := Exec(vals, st, [ScalarToReg(0, false, 8)]);
            st'.sp == st.sp && st'.buf == st.buf && st'.mem == st.mem && st'.x(8) == vals[0]
  {
    ExecOne(vals, st, ScalarToReg(0, false, 8));
  }

  /** The call area as the callee finds it: every argument in place, the stash above them, nothing else touched. */
  lemma CallPrepared(args: seq<Param>, ret: Return, vals: seq<seq<Cell>>, st: Machine)
    requires Callable(args, ret) && CallValues(args, ret, vals)
    ensures var st' := Exec(vals, st, Before(args, ret));
            && Prepared(args, ret, vals, st, st')
            && (FloatsFit(args[First(ret)..], |args| - First(ret)) ==>
                  Arrived(st', First(ret), args[First(ret)..], |args| - First(ret), End(args, ret).nsaa, vals))
  {
    hide Setup, ArgsOps, Exec, Step, Cursors, FloatsFit, Arrived, Total, Write, ArgAddr;
    var a0, ps, base, top := First(ret), args[First(ret)..], End(args, ret).nsaa, StashOff(args, ret);
    SetUp(args, ret, vals, st);
    var st1 := Exec(vals, st, Setup(args, ret));
    ExecAppend(vals, st, Setup(args, ret), ArgsOps(a0, ps, |ps|, base));
    ArgsPassed(vals, st1, a0, ps, |ps|, base, top);
    var st2 := Exec(vals, st1, ArgsOps(a0, ps, |ps|, base));
    forall a: int | a >= st1.sp + top ensures st2.mem(a) == st1.mem(a) {
      assert Settled(a - st1.sp, Start, base, top);
    }
    if ret.Aggregate? {
      ReadSame(st1.mem, st2.mem, st1.sp + top, 8);
    }
  }

  // ----- coming back -----

  /** How much of an aggregate the first n chunks cover. */
  function Covered(size: nat, width: nat, n: nat): nat
  {
    if Times(n, width) <= size then Times(n, width) else size
  }

  lemma NextChunk(size: nat, width: nat, n: nat)
    ensures Times(n + 1, width) == Times(n, width) + width && Times(0, width) == 0
    ensures Covered(size, width, n + 1) == Covered(size, width, n) + ChunkSize(size, width, n)
    ensures ChunkSize(size, width, n) > 0 ==> Covered(size, width, n) == Times(n, width)
  {
  }

  lemma AllCovered(p: Param)
    requires Classified(p) && (p.cls.Hfa? || p.cls.Integer?)
    ensures Covered(p.size, Width(p), Count(p)) == p.size && Count(p) <= 8
  {
    if p.cls.Hfa? {
      var c, e := p.cls.count, p.cls.elem;
      assert c == 1 || c == 2 || c == 3 || c == 4;
      assert e * c == c * e;
    }
  }

  /** Storing the result registers chunk by chunk rebuilds the returned aggregate. */
  lemma {:induction false} ChunksStored(vals: seq<seq<Cell>>, st: Machine, isFp: bool, width: nat, val: seq<Cell>,
                                        n: nat)
    requires st.x(9) == ArgAddr(0) && forall k :: 0 <= k < n ==> ChunkAt(st, isFp, 0, val, width, k)
    ensures var st' := Exec(vals, st, RetChunks(isFp, width, |val|, n));
            && st'.sp == st.sp && st'.x == st.x && st'.v == st.v && st'.mem == st.mem
            && Read(st'.buf, 0, Covered(|val|, width, n)) == val[..Covered(|val|, width, n)]
    decreases n
  {
    hide Times, ChunkSize, Covered, Write, ArgAddr, Step, Read, HoldsChunk;
    if n == 0 {
      NothingCovered(st.buf, 0, val, width);
    } else {
      ChunksStored(vals, st, isFp, width, val, n - 1);
      var ops := RetChunks(isFp, width, |val|, n - 1);
      var op := RetChunk(isFp, n - 1, Times(n - 1, width), ChunkSize(|val|, width, n - 1));
      assert (ops + [op])[..|ops|] == ops;
      assert ChunkAt(st, isFp, 0, val, width, n - 1);
      ChunkStored(vals, Exec(vals, st, ops), isFp, width, val, n - 1);
    }
  }

  lemma ChunkStored(vals: seq<seq<Cell>>, st: Machine, isFp: bool, width: nat, val: seq<Cell>, k: nat)
    requires st.x(9) == ArgAddr(0) && HoldsChunk(st.Reg(isFp, k), val, width, k)
    requires Read(st.buf, 0, Covered(|val|, width, k)) == val[..Covered(|val|, width, k)]
    ensures var st' := Step(vals, st, RetChunk(isFp, k, Times(k, width), ChunkSize(|val|, width, k)));
            && st'.sp == st.sp && st'.x == st.x && st'.v == st.v && st'.mem == st.mem
            && Read(st'.buf, 0, Covered(|val|, width, k + 1)) == val[..Covered(|val|, width, k + 1)]
  {
    hide Times, ChunkSize, Covered, Write, ArgAddr, Read;
    NextChunk(|val|, width, k);
    var at, size := Times(k, width), ChunkSize(|val|, width, k);
    var c := Slice(st.Reg(isFp, k), 0, size);
    assert c == val[at..at + size];
    if size > 0 {
      WriteExtends(st.buf, 0, val, at, size);
    } else {
      WriteNothing(st.buf, 0, at, c, Covered(|val|, width, k));
    }
  }

  lemma NothingCovered(m: int -> Cell, at: int, val: seq<Cell>, width: nat)
    ensures Read(m, at, Covered(|val|, width, 0)) == val[..Covered(|val|, width, 0)]
  {
  }

  /** An aggregate spread over the result registers, as a callee leaves it. */
  predicate InResultRegs(st: Machine, p: Param, result: seq<Cell>)
  {
    |result| == p.size && forall k :: 0 <= k < Count(p) ==> ChunkAt(st, p.cls.Hfa?, 0, result, Width(p), k)
  }

  /**
   After the callee returns, having changed nothing above its own arguments: the stack pointer is back,
   x9 holds the destination, and an aggregate returned in registers is in the destination buffer.
   */
  lemma CallReturned(args: seq<Param>, ret: Return, vals: seq<seq<Cell>>, st: Machine, st1: Machine, back: Machine,
                     result: seq<Cell>)
    requires Callable(args, ret) && CallValues(args, ret, vals) && Prepared(args, ret, vals, st, st1)
    requires back.sp == st1.sp && forall a: int :: a >= st1.sp + StashOff(args, ret) ==> back.mem(a) == st1.mem(a)
    requires ret.Aggregate? && ret.p.size <= 16 ==> InResultRegs(back, ret.p, result)
    ensures var end := Exec(vals, back, Teardown(args, ret));
            && end.sp == st.sp && (ret.Aggregate? ==> end.x(9) == ArgAddr(0))
            && (ret.Aggregate? && ret.p.size <= 16 ==> Read(end.buf, 0, ret.p.size) == result)
  {
    hide StashOff, Cursors, Total, Exec, ArgAddr, RetChunks, Write, Words, ChunkSize, Times, Covered, HoldsChunk;
    var total, off := Total(args, ret), StashOff(args, ret);
    if ret.Aggregate? {
      ReadSame(st1.mem, back.mem, st1.sp + off, 8);
      var b1 := Step(vals, back, UnstashDest(off));
      ExecOne(vals, back, UnstashDest(off));
      if ret.p.size <= 16 {
        var p := ret.p;
        var ops := RetChunks(p.cls.Hfa?, Width(p), p.size, Count(p));
        AllCovered(p);
        forall k | 0 <= k < Count(p) ensures ChunkAt(b1, p.cls.Hfa?, 0, result, Width(p), k) {
          assert ChunkAt(back, p.cls.Hfa?, 0, result, Width(p), k);
        }
        ChunksStored(vals, b1, p.cls.Hfa?, Width(p), result, Count(p));
        ExecAppend(vals, back, [UnstashDest(off)], ops);
        ExecAppend(vals, back, [UnstashDest(off)] + ops, Raise(total));
        RaiseSp(vals, Exec(vals, b1, ops), total);
      } else {
        ExecAppend(vals, back, [UnstashDest(off)], Raise(total));
        RaiseSp(vals, b1, total);
        assert Teardown(args, ret) == [UnstashDest(off)] + Raise(total);
      }
    } else {
      RaiseSp(vals, back, total);
      assert Teardown(args, ret) == Raise(total);
    }
  }

  // ----- footprints -----

  /** The bytes of the call area an argument uses. */
  function Bytes(pl: Placement, size: nat): set<Region>
  {
    match pl
    case Regs(_, _, _, _) => {}
    case Stack(off) => {Region(off, size)}
    case PtrReg(_, copy) => {Region(copy, size)}
    case PtrStack(off, copy) => {Region(off, 8), Region(copy, size)}
  }

  predicate UsesReg(pl: Placement, isFp: bool, r: int)
  {
    match pl
    case Regs(fp, first, _, count) => fp == isFp && first <= r < first + count
    case PtrReg(reg, _) => !isFp && r == reg
    case _ => false
  }

  /** Two arguments never share a register or a byte, and all of them stay below the stash and the total. */
  lemma FootprintsDisjoint(args: seq<Param>, ret: Return, i: nat, j: nat)
    requires Callable(args, ret) && i < j < |args| - First(ret)
    ensures var ps, base := args[First(ret)..], End(args, ret).nsaa;
            var pi, pj := Place(Cursors(ps, i), ps[i], base), Place(Cursors(ps, j), ps[j], base);
            && (forall isFp, r :: !(UsesReg(pi, isFp, r) && UsesReg(pj, isFp, r)))
            && (forall a, b :: a in Bytes(pi, ps[i].size) && b in Bytes(pj, ps[j].size) ==> Apart(a, b))
            && (forall a :: a in Bytes(pj, ps[j].size) ==>
                  0 <= a.lo && a.lo + a.size <= StashOff(args, ret) <= Total(args, ret))
  {
    hide Cursors, Place, Advance, Below, Bytes, UsesReg, InRange, Total, Classified, AllClassified;
    var ps, base := args[First(ret)..], End(args, ret).nsaa;
    assert AllClassified(ps) by { ClassifiedTail(args, ret); }
    PlacedBelow(ps, i, j, base);
    PlacedBelow(ps, j, |ps|, base);
    CursorsGrow(ps, j, |ps|);
    Apartness(Place(Cursors(ps, i), ps[i], base), ps[i].size, Cursors(ps, j), ps[j], Cursors(ps, |ps|));
  }

  lemma ClassifiedTail(args: seq<Param>, ret: Return)
    requires Callable(args, ret)
    ensures AllClassified(args[First(ret)..])
  {
  }

  lemma Apartness(pi: Placement, size: nat, c: Cursor, p: Param, d: Cursor)
    requires Below(pi, size, c, d.nsaa) && Below(Place(c, p, d.nsaa), p.size, d, d.nsaa) && AtMost(c, d)
    ensures var pj := Place(c, p, d.nsaa);
            && (forall isFp, r :: !(UsesReg(pi, isFp, r) && UsesReg(pj, isFp, r)))
            && (forall a, b :: a in Bytes(pi, size) && b in Bytes(pj, p.size) ==> Apart(a, b))
            && (forall a :: a in Bytes(pj, p.size) ==> 0 <= a.lo && a.lo + a.size <= d.nsaa + d.copy)
  {
    hide Words;
  }
}
