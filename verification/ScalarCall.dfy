/**
 Calls that pass and return no aggregate (aarch64PartitionCallArgs and the loops after it). Overflowing arguments
 are stored first and registers loaded last, so nothing loaded is lost. The arguments of a variadic part may be
 forced onto the stack, where a HolyC callee looks for them at a fixed offset.
 */
module ScalarCall {
  import opened CallLowering
  import opened Regions
  import CS = CallSequence
  import CP = CalleePrologue

  /** Scalars only; those from `named` on are forced onto the stack. */
  predicate Scalars(ps: seq<Param>, named: nat)
  {
    named <= |ps| && forall i :: 0 <= i < |ps| ==> ps[i].cls.Scalar? && ps[i].size <= 8
  }

  predicate OnStack(ps: seq<Param>, named: nat, i: nat)
    requires i < |ps|
  {
    i >= named || Place(Cursors(ps, i), ps[i], 0).Stack?
  }

  /** The stack bytes used in front of argument i. */
  function Offset(ps: seq<Param>, named: nat, i: nat): nat
    requires named <= |ps| && i <= |ps|
  {
    if i <= named then Cursors(ps, i).nsaa else Cursors(ps, named).nsaa + 8 * (i - named)
  }

  function StackOp(ps: seq<Param>, named: nat, i: nat): CallOp
    requires Scalars(ps, named) && i < |ps|
  {
    ScalarToStack(i, ps[i].cls.isFloat, ps[i].size, Offset(ps, named, i))
  }

  function RegOp(ps: seq<Param>, i: nat): CallOp
    requires i < |ps| && ps[i].cls.Scalar?
  {
    var c := Cursors(ps, i);
    ScalarToReg(i, ps[i].cls.isFloat, if ps[i].cls.isFloat then c.s else c.g)
  }

  function StackOps(ps: seq<Param>, named: nat, n: nat): seq<CallOp>
    requires Scalars(ps, named) && n <= |ps|
  {
    if n == 0 then []
    else StackOps(ps, named, n - 1) + if OnStack(ps, named, n - 1) then [StackOp(ps, named, n - 1)] else []
  }

  function RegOps(ps: seq<Param>, named: nat, n: nat): seq<CallOp>
    requires Scalars(ps, named) && n <= |ps|
  {
    if n == 0 then []
    else RegOps(ps, named, n - 1) + if OnStack(ps, named, n - 1) then [] else [RegOp(ps, n - 1)]
  }

  /** Everything in front of the branch. */
  function Before(ps: seq<Param>, named: nat): seq<CallOp>
    requires Scalars(ps, named)
  {
    CS.Lower(Round16(Offset(ps, named, |ps|))) + StackOps(ps, named, |ps|) + RegOps(ps, named, |ps|)
  }

  /** Everything after it. */
  function After(ps: seq<Param>, named: nat): seq<CallOp>
    requires Scalars(ps, named)
  {
    CS.Raise(Round16(Offset(ps, named, |ps|)))
  }

  // ----- the loops -----

  lemma ScalarStep(ps: seq<Param>, named: nat, i: nat)
    requires Scalars(ps, named) && i < |ps|
    ensures Offset(ps, named, i + 1) == Offset(ps, named, i) + if OnStack(ps, named, i) then 8 else 0
    ensures var c, d := Cursors(ps, i), Cursors(ps, i + 1);
            && c.g <= 8 && c.s <= 8
            && d.g == c.g + (if !ps[i].cls.isFloat && c.g < 8 then 1 else 0)
            && d.s == c.s + (if ps[i].cls.isFloat && c.s < 8 then 1 else 0)
            && (Place(c, ps[i], 0).Stack? <==> if ps[i].cls.isFloat then c.s >= 8 else c.g >= 8)
  {
    CursorsGrow(ps, i, i);
  }

  /** aarch64PartitionCallArgs */
  method PartitionCallArgs(isStack: array<bool>, ps: seq<Param>, named: nat) returns (stackCount: nat)
    requires Scalars(ps, named) && isStack.Length == |ps|
    modifies isStack
    ensures forall i :: 0 <= i < |ps| ==> isStack[i] == OnStack(ps, named, i)
    ensures 8 * stackCount == Offset(ps, named, |ps|)
  {
    hide Offset, OnStack, Cursors;
    var intUsed, floatUsed := 0, 0;
    stackCount := 0;
    StartOffset(ps, named);
    for i := 0 to |ps|
      invariant 8 * stackCount == Offset(ps, named, i)
      invariant i <= named ==> Cursors(ps, i).g == intUsed && Cursors(ps, i).s == floatUsed
      invariant forall j :: 0 <= j < i ==> isStack[j] == OnStack(ps, named, j)
    {
      ScalarStep(ps, named, i);
      StackDecided(ps, named, i);
      if i >= named {
        isStack[i], stackCount := true, stackCount + 1;
      } else if ps[i].cls.isFloat {
        if floatUsed < 8 {
          isStack[i], floatUsed := false, floatUsed + 1;
        } else {
          isStack[i], stackCount := true, stackCount + 1;
        }
      } else {
        if intUsed < 8 {
          isStack[i], intUsed := false, intUsed + 1;
        } else {
          isStack[i], stackCount := true, stackCount + 1;
        }
      }
    }
  }

  lemma StartOffset(ps: seq<Param>, named: nat)
    requires named <= |ps|
    ensures Offset(ps, named, 0) == 0 && Cursors(ps, 0) == Start
  {
  }

  lemma StackDecided(ps: seq<Param>, named: nat, i: nat)
    requires Scalars(ps, named) && i < |ps|
    ensures OnStack(ps, named, i) <==>
              i >= named || if ps[i].cls.isFloat then Cursors(ps, i).s >= 8 else Cursors(ps, i).g >= 8
  {
    ScalarStep(ps, named, i);
  }

  lemma MoreOps(ps: seq<Param>, named: nat, i: nat)
    requires Scalars(ps, named) && i < |ps|
    ensures StackOps(ps, named, i + 1) ==
              if OnStack(ps, named, i) then StackOps(ps, named, i) + [StackOp(ps, named, i)] else StackOps(ps, named, i)
    ensures RegOps(ps, named, i + 1) ==
              if OnStack(ps, named, i) then RegOps(ps, named, i) else RegOps(ps, named, i) + [RegOp(ps, i)]
  {
    hide OnStack, Offset;
  }

  /** The emitted call: stack pointer, overflowing arguments and registers before the branch, and the stack pointer
      again after it. */
  method EmitScalarCall(ps: seq<Param>, named: nat) returns (ops: seq<CallOp>, after: seq<CallOp>)
    requires Scalars(ps, named)
    ensures ops == Before(ps, named) && after == After(ps, named)
  {
    hide Offset, OnStack, Cursors, Round16;
    var isStack := new bool[|ps|];
    var stackCount := PartitionCallArgs(isStack, ps, named);
    var stackBytes := Round16(stackCount * 8);
    ops := if stackBytes > 0 then [SubSp(stackBytes)] else [];
    var stores, loads, stackIdx, intIdx, floatIdx := [], [], 0, 0, 0;
    StartOffset(ps, named);
    for i := 0 to |ps|
      invariant forall j :: 0 <= j < |ps| ==> isStack[j] == OnStack(ps, named, j)
      invariant stores == StackOps(ps, named, i) && 8 * stackIdx == Offset(ps, named, i)
    {
      ScalarStep(ps, named, i);
      MoreOps(ps, named, i);
      if isStack[i] {
        stores := stores + [ScalarToStack(i, ps[i].cls.isFloat, ps[i].size, stackIdx * 8)];
        stackIdx := stackIdx + 1;
      }
    }
    for i := 0 to |ps|
      invariant forall j :: 0 <= j < |ps| ==> isStack[j] == OnStack(ps, named, j)
      invariant loads == RegOps(ps, named, i)
      invariant i <= named ==> Cursors(ps, i).g == intIdx && Cursors(ps, i).s == floatIdx
    {
      ScalarStep(ps, named, i);
      StackDecided(ps, named, i);
      MoreOps(ps, named, i);
      if !isStack[i] {
        if ps[i].cls.isFloat {
          loads := loads + [ScalarToReg(i, true, floatIdx)];
          floatIdx := floatIdx + 1;
        } else {
          loads := loads + [ScalarToReg(i, false, intIdx)];
          intIdx := intIdx + 1;
        }
      }
    }
    ops := ops + stores + loads;
    after := if stackBytes > 0 then [AddSp(stackBytes)] else [];
  }

  // ----- what arrives -----

  predicate InSlot(st: Machine, ps: seq<Param>, named: nat, i: nat, vals: seq<seq<Cell>>)
    requires named <= |ps| && i < |ps| == |vals|
  {
    Read(st.mem, st.sp + Offset(ps, named, i), ps[i].size) == Slice(vals[i], 0, ps[i].size)
  }

  predicate InReg(st: Machine, ps: seq<Param>, i: nat, vals: seq<seq<Cell>>)
    requires i < |ps| == |vals| && ps[i].cls.Scalar?
  {
    st.Reg(ps[i].cls.isFloat, RegOp(ps, i).reg) == vals[i]
  }

  lemma {:induction false} OffsetsGrow(ps: seq<Param>, named: nat, i: nat, j: nat)
    requires Scalars(ps, named) && i < j <= |ps|
    ensures Offset(ps, named, i) + (if OnStack(ps, named, i) then 8 else 0) <= Offset(ps, named, j)
    decreases j
  {
    hide Offset, OnStack;
    ScalarStep(ps, named, j - 1);
    if i < j - 1 { OffsetsGrow(ps, named, i, j - 1); }
  }

  /** Of two arguments in registers of one kind the later has the higher register. */
  lemma RegsDiffer(ps: seq<Param>, named: nat, i: nat, j: nat)
    requires Scalars(ps, named) && i < j < |ps| && !OnStack(ps, named, i) && ps[i].cls == ps[j].cls
    ensures RegOp(ps, i).reg < RegOp(ps, j).reg
  {
    ScalarStep(ps, named, i);
    CursorsGrow(ps, i + 1, j);
  }

  lemma {:induction false} StackPhase(vals: seq<seq<Cell>>, st: Machine, ps: seq<Param>, named: nat, n: nat)
    requires Scalars(ps, named) && Values(0, ps, vals) && n <= |ps|
    ensures var st' := Exec(vals, st, StackOps(ps, named, n));
            && st'.sp == st.sp && st'.buf == st.buf
            && (forall i :: 0 <= i < n && OnStack(ps, named, i) ==> InSlot(st', ps, named, i, vals))
            && (forall a: int :: !(0 <= a - st.sp < Offset(ps, named, n)) ==> st'.mem(a) == st.mem(a))
    decreases n
  {
    hide Offset, OnStack, Step, Read, Slice, StackOps, Exec;
    if n == 0 {
      assert Exec(vals, st, StackOps(ps, named, 0)) == st by { NoOps(vals, st, ps, named); }
    } else {
      var m := n - 1;
      StackPhase(vals, st, ps, named, m);
      MoreOps(ps, named, m);
      ScalarStep(ps, named, m);
      var st1, op := Exec(vals, st, StackOps(ps, named, m)), StackOp(ps, named, m);
      if OnStack(ps, named, m) {
        ExecAppend(vals, st, StackOps(ps, named, m), [op]);
        ExecOne(vals, st1, op);
        assert |vals[0 + m]| == 8;
        ScalarStored(vals, st1, m, ps[m].cls.isFloat, ps[m].size, Offset(ps, named, m));
        var st2 := Step(vals, st1, op);
        forall i | 0 <= i < m && OnStack(ps, named, i) ensures InSlot(st2, ps, named, i, vals) {
          OffsetsGrow(ps, named, i, m);
          ReadSame(st1.mem, st2.mem, st1.sp + Offset(ps, named, i), ps[i].size);
        }
      }
    }
  }

  lemma {:induction false} RegPhase(vals: seq<seq<Cell>>, st: Machine, ps: seq<Param>, named: nat, n: nat)
    requires Scalars(ps, named) && Values(0, ps, vals) && n <= |ps|
    ensures var st' := Exec(vals, st, RegOps(ps, named, n));
            && st'.sp == st.sp && st'.mem == st.mem && st'.buf == st.buf
            && forall i :: 0 <= i < n && !OnStack(ps, named, i) ==> InReg(st', ps, i, vals)
    decreases n
  {
    hide OnStack, RegOp, Step, RegOps, Exec;
    if n == 0 {
      assert Exec(vals, st, RegOps(ps, named, 0)) == st by { NoOps(vals, st, ps, named); }
    } else {
      var m := n - 1;
      RegPhase(vals, st, ps, named, m);
      MoreOps(ps, named, m);
      var st1, op := Exec(vals, st, RegOps(ps, named, m)), RegOp(ps, m);
      if !OnStack(ps, named, m) {
        ExecAppend(vals, st, RegOps(ps, named, m), [op]);
        ExecOne(vals, st1, op);
        var st2 := Step(vals, st1, op);
        RegLoaded(vals, st1, ps, m);
        forall i | 0 <= i < m && !OnStack(ps, named, i) ensures InReg(st2, ps, i, vals) {
          assert InReg(st1, ps, i, vals);
          if ps[i].cls == ps[m].cls { RegsDiffer(ps, named, i, m); }
        }
      }
    }
  }

  lemma NoOps(vals: seq<seq<Cell>>, st: Machine, ps: seq<Param>, named: nat)
    requires Scalars(ps, named)
    ensures Exec(vals, st, StackOps(ps, named, 0)) == st && Exec(vals, st, RegOps(ps, named, 0)) == st
  {
  }

  lemma RegLoaded(vals: seq<seq<Cell>>, st: Machine, ps: seq<Param>, i: nat)
    requires i < |ps| == |vals| && ps[i].cls.Scalar?
    ensures var op := RegOp(ps, i); var st' := Step(vals, st, op);
            && op.ScalarToReg? && st'.sp == st.sp && st'.mem == st.mem && st'.buf == st.buf && InReg(st', ps, i, vals)
            && forall isFp, r: int :: isFp != ps[i].cls.isFloat || r != op.reg ==> st'.Reg(isFp, r) == st.Reg(isFp, r)
  {
  }

  /** The stack pointer has gone down by a multiple of 16, as little as the arguments on the stack need; they lie
      between it and where it was, one above the other; and no other byte of memory has changed. */
  ghost predicate Lowered(st: Machine, st': Machine, ps: seq<Param>, named: nat)
    requires named <= |ps|
  {
    && st'.sp <= st.sp && (st.sp - st'.sp) % 16 == 0 && st'.buf == st.buf
    && (forall i :: 0 <= i < |ps| && OnStack(ps, named, i) ==> st'.sp + Offset(ps, named, i) + 8 <= st.sp)
    && (forall i, j :: 0 <= i < j < |ps| && OnStack(ps, named, i) ==>
          Offset(ps, named, i) + 8 <= Offset(ps, named, j))
    && (forall a: int :: a < st'.sp || st.sp <= a ==> st'.mem(a) == st.mem(a))
    && (st'.sp < st.sp ==> exists i :: 0 <= i < |ps| && OnStack(ps, named, i)
                             && st.sp - st'.sp - 16 < Offset(ps, named, i) + 8)
  }

  /** Somebody is the last on the stack. */
  lemma {:induction false} LastOnStack(ps: seq<Param>, named: nat, n: nat) returns (i: nat)
    requires Scalars(ps, named) && n <= |ps| && Offset(ps, named, n) > 0
    ensures i < n && OnStack(ps, named, i) && Offset(ps, named, i) + 8 == Offset(ps, named, n)
    decreases n
  {
    hide OnStack, Offset;
    StartOffset(ps, named);
    ScalarStep(ps, named, n - 1);
    if OnStack(ps, named, n - 1) {
      i := n - 1;
    } else {
      i := LastOnStack(ps, named, n - 1);
    }
  }

  /** Whatever the values and however many, every argument is where the partition put it, and the caller's frame is as
      it was. */
  lemma ScalarsPassed(vals: seq<seq<Cell>>, st: Machine, ps: seq<Param>, named: nat)
    requires Scalars(ps, named) && Values(0, ps, vals)
    ensures var st' := Exec(vals, st, Before(ps, named));
            && Lowered(st, st', ps, named)
            && forall i :: 0 <= i < |ps| ==>
                 if OnStack(ps, named, i) then InSlot(st', ps, named, i, vals) else InReg(st', ps, i, vals)
  {
    hide OnStack, Offset, RegOp, Step, Exec, StackOps, RegOps, Round16;
    var n := |ps|;
    var low, a, b := CS.Lower(Round16(Offset(ps, named, n))), StackOps(ps, named, n), RegOps(ps, named, n);
    ExecAppend(vals, st, low + a, b);
    ExecAppend(vals, st, low, a);
    CS.LowerSp(vals, st, Round16(Offset(ps, named, n)));
    var st0 := Exec(vals, st, low);
    var st1 := Exec(vals, st0, a);
    StackPhase(vals, st0, ps, named, n);
    RegPhase(vals, st1, ps, named, n);
    forall i, j | 0 <= i < j <= n && OnStack(ps, named, i)
      ensures Offset(ps, named, i) + 8 <= Offset(ps, named, j)
    {
      OffsetsGrow(ps, named, i, j);
    }
    if Offset(ps, named, n) > 0 { var i := LastOnStack(ps, named, n); }
  }

  /** When the callee comes back with the stack pointer it was given, the caller's is restored, and nothing else
      changes on the way. */
  lemma ScalarCallReturned(vals: seq<seq<Cell>>, st: Machine, back: Machine, ps: seq<Param>, named: nat)
    requires Scalars(ps, named) && back.sp == Exec(vals, st, Before(ps, named)).sp && Values(0, ps, vals)
    ensures Exec(vals, back, After(ps, named)) == back.(sp := st.sp)
  {
    hide OnStack, Offset, Step, Exec, StackOps, RegOps, Round16;
    var n := |ps|;
    var low, a, b := CS.Lower(Round16(Offset(ps, named, n))), StackOps(ps, named, n), RegOps(ps, named, n);
    ExecAppend(vals, st, low + a, b);
    ExecAppend(vals, st, low, a);
    CS.LowerSp(vals, st, Round16(Offset(ps, named, n)));
    var st0 := Exec(vals, st, low);
    StackPhase(vals, st0, ps, named, n);
    RegPhase(vals, Exec(vals, st0, a), ps, named, n);
    CS.RaiseSp(vals, back, Round16(Offset(ps, named, n)));
  }

  // ----- the callee -----

  lemma NamedArrive(st: Machine, ps: seq<Param>, named: nat, i: nat, base: nat, vals: seq<seq<Cell>>)
    requires Scalars(ps, named) && Values(0, ps, vals) && i < named
    requires if OnStack(ps, named, i) then InSlot(st, ps, named, i, vals) else InReg(st, ps, i, vals)
    ensures ArrivedAt(st, 0, ps, i, base, vals)
  {
    hide Cursors, Read, Slice;
    if !OnStack(ps, named, i) {
      var pl := Place(Cursors(ps, i), ps[i], base);
      assert |vals[0 + i]| == 8;
      WholeChunk(st.Reg(pl.isFp, pl.first), vals[i]);
    }
  }

  lemma WholeChunk(r: seq<Cell>, val: seq<Cell>)
    requires r == val && |val| == 8
    ensures HoldsChunk(r, val, 8, 0)
  {
  }

  /** Caller and callee together: every declared parameter receives the caller's bytes, with no condition on how
      many floats there are. */
  lemma ScalarCallDelivers(ps: seq<Param>, named: nat, vals: seq<seq<Cell>>, st: Machine, ds: seq<CP.Decl>,
                           entry: Machine)
    requires Scalars(ps, named) && Values(0, ps, vals)
    requires CP.FixedCount(ds) <= named && CP.ParamsOf(ds) == ps[..CP.FixedCount(ds)]
    requires CP.SlotsApart(CP.ParamsOf(ds), CP.SlotsOf(ds))
    requires CP.Undisturbed(Exec(vals, st, Before(ps, named)), entry)
    ensures var st' := CP.Exec(entry, CP.AllOps(CP.ParamsOf(ds), CP.SlotsOf(ds), CP.FixedCount(ds)));
            forall i :: 0 <= i < CP.FixedCount(ds) ==>
              CP.Received(st', CP.ParamsOf(ds), CP.SlotsOf(ds), i, 0, vals) && ArrivedAt(st', 0, ps, i, 0, vals)
  {
    hide Exec, CP.Exec, CP.AllOps, Cursors, Holds, Place, Before, CP.Received, OnStack, InSlot, InReg, CP.ParamsOf;
    ScalarsPassed(vals, st, ps, named);
    var st1 := Exec(vals, st, Before(ps, named));
    forall i | 0 <= i < CP.FixedCount(ds) ensures ArrivedAt(entry, 0, ps, i, 0, vals) {
      NamedArrive(st1, ps, named, i, 0, vals);
      CP.UndisturbedHolds(st1, entry, Place(Cursors(ps, i), ps[i], 0), ps[i].size, vals[0 + i]);
    }
    CP.Delivered(entry, ps, 0, 0, vals, ds);
  }

  // ----- the variadic part -----

  /** Where a HolyC variadic callee reads its argument count and then the rest: from its frame pointer plus 16 on. */
  predicate FoundByCallee(entry: Machine, ps: seq<Param>, named: nat, k: nat, vals: seq<seq<Cell>>)
    requires named + k < |ps| == |vals|
  {
    var fp := entry.sp - 16;
    Read(entry.mem, fp + 16 + 8 * k, ps[named + k].size) == Slice(vals[named + k], 0, ps[named + k].size)
  }

  ghost predicate AllFound(ps: seq<Param>, named: nat, st: Machine)
    requires Scalars(ps, named)
  {
    forall vals: seq<seq<Cell>>, k: nat :: Values(0, ps, vals) && named + k < |ps| ==>
      FoundByCallee(Exec(vals, st, Before(ps, named)), ps, named, k, vals)
  }

  /** The first named argument on the stack, if any, lies at its very bottom. */
  lemma {:induction false} FirstOverflow(ps: seq<Param>, named: nat, n: nat) returns (i: nat)
    requires Scalars(ps, named) && n <= named && Offset(ps, named, n) > 0
    ensures i < n && OnStack(ps, named, i) && Offset(ps, named, i) == 0
    decreases n
  {
    hide OnStack;
    if Offset(ps, named, n - 1) > 0 {
      i := FirstOverflow(ps, named, n - 1);
    } else {
      ScalarStep(ps, named, n - 1);
      i := n - 1;
    }
  }

  lemma BottomTaken(ps: seq<Param>, named: nat, st: Machine)
    requires Scalars(ps, named) && named < |ps| && Offset(ps, named, named) > 0
    requires forall i :: 0 <= i < |ps| ==> ps[i].size > 0
    ensures !AllFound(ps, named, st)
  {
    hide OnStack, Offset, Exec, Before;
    var i := FirstOverflow(ps, named, named);
    var vals := Marked(0, ps, i);
    assert Values(0, ps, vals);
    var st' := Exec(vals, st, Before(ps, named));
    ScalarsPassed(vals, st, ps, named);
    assert InSlot(st', ps, named, i, vals);
    assert Read(st'.mem, st'.sp, ps[i].size)[0] == Byte(1);
    assert vals[named] == Fill(8, 0) by { assert vals[0 + named] == Fill(ValueSize(ps[named]), 0); }
    assert Slice(vals[named], 0, ps[named].size)[0] == Byte(0);
    assert Read(st'.mem, st'.sp, ps[named].size)[0] == st'.mem(st'.sp) == Byte(1);
    assert !FoundByCallee(st', ps, named, 0, vals);
  }

  /** The callee finds its variadic part, whatever is passed, exactly when no named argument went to the stack. */
  lemma VariadicFoundIff(ps: seq<Param>, named: nat, st: Machine)
    requires Scalars(ps, named) && named < |ps| && forall i :: 0 <= i < |ps| ==> ps[i].size > 0
    ensures AllFound(ps, named, st) <==> Cursors(ps, named).nsaa == 0
  {
    hide OnStack, Exec, Before;
    if Cursors(ps, named).nsaa == 0 {
      forall vals: seq<seq<Cell>>, k: nat | Values(0, ps, vals) && named + k < |ps|
        ensures FoundByCallee(Exec(vals, st, Before(ps, named)), ps, named, k, vals)
      {
        ScalarsPassed(vals, st, ps, named);
        assert OnStack(ps, named, named + k) by { ForcedOnStack(ps, named, named + k); }
        assert Offset(ps, named, named + k) == 8 * k;
      }
    } else {
      BottomTaken(ps, named, st);
    }
  }

  lemma ForcedOnStack(ps: seq<Param>, named: nat, i: nat)
    requires named <= i < |ps|
    ensures OnStack(ps, named, i)
  {
  }
}
