/**
 Store-to-read forwarding within a block: after `store %slot, %value`, a read of %slot becomes a
 read of %value until something may have changed the slot.
 */
module Forward {
  import opened Options
  import opened Words
  import opened Ir
  import opened Liveness

  // ----- what the backend is asked -----

  datatype Point = After | BeforeR1 | BeforeR2

  /** The registers the backend uses as scratch, and its answer to "does emitting I write reg by `at`". */
  datatype Pool = Pool(scratch: set<Reg>, hook: Option<(Instr, Reg, Point) -> bool>)

  /** irLocIsScratchClobbered */
  predicate InScratch(p: Pool, v: Operand)
  {
    v.Ref? && v.reg.Some? && v.reg.value in p.scratch
  }

  /** irLocClobberedBy */
  predicate ClobberedBy(p: Pool, I: Instr, v: Operand, at: Point)
  {
    InScratch(p, v) && (p.hook.None? || p.hook.value(I, v.reg.value, at))
  }

  // ----- the pass -----

  /** One element of the parallel arrays: `slot` currently holds the value of `source`. */
  datatype Entry = Entry(slot: Operand, source: Operand)

  predicate Matches(v: Operand, slot: Operand)
  {
    v.Ref? && slot.Ref? && v.v == slot.v
  }

  function RewriteOne(o: Operand, e: Entry): Operand
  {
    if Matches(o, e.slot) then e.source else o
  }

  function RewriteArgs(os: seq<Operand>, e: Entry): (r: seq<Operand>)
    ensures |r| == |os|
    ensures forall i :: 0 <= i < |os| ==> r[i] == RewriteOne(os[i], e)
  {
    seq(|os|, i requires 0 <= i < |os| => RewriteOne(os[i], e))
  }

  function RewritePairs(ps: seq<PhiPair>, e: Entry): seq<PhiPair>
  {
    seq(|ps|, i requires 0 <= i < |ps| => ps[i].(value := RewriteOne(ps[i].value, e)))
  }

  /** irRewriteOperands */
  function RewriteOperands(p: Pool, I: Instr, e: Entry): Instr
  {
    if I.op.Lea? || I.op.Load? then I
    else
      var I1 := if ClobberedBy(p, I, e.source, BeforeR1) then I else I.(r1 := RewriteOne(I.r1, e));
      var I2 := if ClobberedBy(p, I1, e.source, BeforeR2) then I1 else I1.(r2 := RewriteOne(I1.r2, e));
      var I3 := if I.op.Br? || I.op.Ret? then I2.(dst := RewriteOne(I2.dst, e)) else I2;
      var I4 := if I.op.Call? && e.source.Const? then I3.(args := RewriteArgs(I3.args, e)) else I3;
      if I.op.Phi? && !InScratch(p, e.source) then I4.(pairs := RewritePairs(I4.pairs, e)) else I4
  }

  function RewriteAll(p: Pool, I: Instr, t: seq<Entry>): Instr
    decreases |t|
  {
    if t == [] then I else RewriteAll(p, RewriteOperands(p, I, t[0]), t[1..])
  }

  /** Overwrite with the last element and shrink by one. */
  function SwapRemove(t: seq<Entry>, j: nat): (r: seq<Entry>)
    requires j < |t|
    ensures |r| == |t| - 1
    ensures forall e :: e in r ==> e in t
  {
    t[j := t[|t| - 1]][..|t| - 1]
  }

  function DropClobbered(p: Pool, I: Instr, t: seq<Entry>, j: nat): (r: seq<Entry>)
    requires j <= |t|
    ensures forall e :: e in r ==> e in t
    decreases |t| - j
  {
    if j == |t| then t
    else if ClobberedBy(p, I, t[j].source, After) then DropClobbered(p, I, SwapRemove(t, j), j)
    else DropClobbered(p, I, t, j + 1)
  }

  /** The position of the first entry for `slot`, or the length. */
  function Find(t: seq<Entry>, slot: Operand): (j: nat)
    ensures j <= |t|
    ensures j < |t| ==> Matches(slot, t[j].slot)
    ensures forall k :: 0 <= k < j ==> !Matches(slot, t[k].slot)
  {
    if t == [] || Matches(slot, t[0].slot) then 0 else 1 + Find(t[1..], slot)
  }

  function Forget(t: seq<Entry>, slot: Operand): seq<Entry>
  {
    var j := Find(t, slot);
    if j < |t| then SwapRemove(t, j) else t
  }

  function Remember(t: seq<Entry>, slot: Operand, source: Operand): seq<Entry>
  {
    var j := Find(t, slot);
    if j < |t| then t[j := t[j].(source := source)] else t + [Entry(slot, source)]
  }

  /** What is known after the (rewritten) instruction. */
  function Track(p: Pool, I: Instr, t: seq<Entry>): seq<Entry>
  {
    if KillsAll(I.op) then []
    else
      var t1 := if I.op.Jmp? || I.op.Phi? || I.op.Alloca? then t else DropClobbered(p, I, t, 0);
      var t2 := if !I.op.Store? && !I.dst.Null? then Forget(t1, I.dst) else t1;
      if I.op.Store? && !I.dst.Null? && !I.r1.Null? then
        if ByteSize(I.r1) == 8 then Remember(t2, I.dst, I.r1) else Forget(t2, I.dst)
      else t2
  }

  function ForwardCode(p: Pool, code: Code, t: seq<Entry>): (r: Code)
    ensures |r| == |code|
  {
    if code == [] then []
    else if code[0].op.Nop? then [code[0]] + ForwardCode(p, code[1..], t)
    else
      var I := RewriteAll(p, code[0], t);
      [I] + ForwardCode(p, code[1..], Track(p, I, t))
  }

  /** irForwardStoreToReads: every block starts with nothing known. */
  function ForwardFunc(p: Pool, F: Func): (G: Func)
    ensures |G| == |F|
    ensures forall b :: 0 <= b < |F| ==> G[b] == ForwardCode(p, F[b], [])
  {
    seq(|F|, b requires 0 <= b < |F| => ForwardCode(p, F[b], []))
  }

  // ----- when it is right -----

  /** Every tracked slot holds the value of its tracked source. */
  predicate Valid(M: Machine, s: State, t: seq<Entry>)
  {
    forall e :: e in t ==> Eval(M, s, e.slot) == Eval(M, s, e.source)
  }

  predicate OnePerSlot(t: seq<Entry>)
  {
    && (forall i :: 0 <= i < |t| ==> t[i].slot.Ref?)
    && (forall i, j :: 0 <= i < j < |t| ==> t[i].slot.v != t[j].slot.v)
  }

  /** No source that stays tracked is the variable just assigned. */
  predicate SourcesStable(I: Instr, t: seq<Entry>)
  {
    forall e, v :: e in t && v in Written(I) && v in Vars(e.source) ==> Vars(e.slot) == {v}
  }

  /** A tracked store fills the whole slot. */
  predicate StoreWhole(I: Instr)
  {
    I.op.Store? ==> I.dst.Ref? && !I.r1.Null? && (ByteSize(I.r1) == 8 ==> I.dst.size >= 8)
  }

  predicate SameStoreWidth(I: Instr, J: Instr)
  {
    I.op.Store? ==> Min(ByteSize(I.dst), ByteSize(I.r1)) == Min(ByteSize(J.dst), ByteSize(J.r1))
  }

  /** The conditions under which every single step is right; computed alongside the pass. */
  predicate HazardFree(p: Pool, code: Code, t: seq<Entry>)
  {
    code != [] ==>
      if code[0].op.Nop? then HazardFree(p, code[1..], t)
      else
        var I := RewriteAll(p, code[0], t);
        && (I.op.Phi? ==> t == [])
        && StoreWhole(I) && SameStoreWidth(code[0], I)
        && SourcesStable(I, Track(p, I, t))
        && HazardFree(p, code[1..], Track(p, I, t))
  }

  lemma RewriteOneSame(M: Machine, s: State, o: Operand, e: Entry)
    requires Eval(M, s, e.slot) == Eval(M, s, e.source)
    ensures Eval(M, s, RewriteOne(o, e)) == Eval(M, s, o)
  {
  }

  /** The values an instruction consumes, in a fixed order. */
  predicate SameInputs(M: Machine, s: State, I: Instr, J: Instr)
  {
    && I.op == J.op && I.idx == J.idx && I.scale == J.scale && I.disp == J.disp
    && Eval(M, s, I.r1) == Eval(M, s, J.r1)
    && Eval(M, s, I.r2) == Eval(M, s, J.r2)
    && (I.op.Br? || I.op.Ret? || I.dst == J.dst) && Eval(M, s, I.dst) == Eval(M, s, J.dst)
    && EvalAll(M, s, I.args) == EvalAll(M, s, J.args)
    && (I.op.Lea? ==> I.r1 == J.r1)
  }

  /** Each field is left as it was or redirected. */
  lemma RewrittenFields(p: Pool, I: Instr, e: Entry)
    ensures var J := RewriteOperands(p, I, e);
            && J.op == I.op && J.idx == I.idx && J.scale == I.scale && J.disp == I.disp
            && (J.r1 == I.r1 || J.r1 == RewriteOne(I.r1, e)) && (J.r2 == I.r2 || J.r2 == RewriteOne(I.r2, e))
            && (J.dst == I.dst || ((I.op.Br? || I.op.Ret?) && J.dst == RewriteOne(I.dst, e)))
            && (J.args == I.args || J.args == RewriteArgs(I.args, e)) && (I.op.Lea? ==> J.r1 == I.r1)
  {
    hide RewriteOne, RewriteArgs, ClobberedBy;
  }

  lemma RewriteOperandsSame(M: Machine, s: State, p: Pool, I: Instr, e: Entry)
    requires Eval(M, s, e.slot) == Eval(M, s, e.source)
    ensures SameInputs(M, s, I, RewriteOperands(p, I, e))
  {
    RewriteOneSame(M, s, I.r1, e);
    RewriteOneSame(M, s, I.r2, e);
    RewriteOneSame(M, s, I.dst, e);
    RewriteArgsSame(M, s, I.args, e);
    RewrittenFields(p, I, e);
    hide Eval, EvalAll, RewriteOne, RewriteArgs, RewriteOperands;
  }

  lemma RewriteArgsSame(M: Machine, s: State, os: seq<Operand>, e: Entry)
    requires Eval(M, s, e.slot) == Eval(M, s, e.source)
    ensures EvalAll(M, s, RewriteArgs(os, e)) == EvalAll(M, s, os)
  {
    hide Eval;
    var a, b := EvalAll(M, s, RewriteArgs(os, e)), EvalAll(M, s, os);
    forall i | 0 <= i < |os| ensures a[i] == b[i] {
      RewriteOneSame(M, s, os[i], e);
    }
  }

  lemma {:induction false} RewriteAllSame(M: Machine, s: State, p: Pool, I: Instr, t: seq<Entry>)
    requires Valid(M, s, t)
    ensures SameInputs(M, s, I, RewriteAll(p, I, t))
    decreases |t|
  {
    if t != [] {
      RewriteOperandsSame(M, s, p, I, t[0]);
      RewriteAllSame(M, s, p, RewriteOperands(p, I, t[0]), t[1..]);
    }
  }

  lemma SameInputsSameStep(M: Machine, s: State, I: Instr, J: Instr)
    requires SameInputs(M, s, I, J)
    requires SameStoreWidth(I, J)
    ensures Step(M, I, s) == Step(M, J, s)
  {
  }

  // ----- the tracked facts survive each instruction -----

  lemma SwapRemoveUnique(t: seq<Entry>, j: nat)
    requires j < |t| && OnePerSlot(t)
    ensures OnePerSlot(SwapRemove(t, j))
    ensures forall e :: e in SwapRemove(t, j) ==> e.slot.v != t[j].slot.v
  {
    var r := SwapRemove(t, j);
    forall i | 0 <= i < |r| ensures r[i] == if i == j then t[|t| - 1] else t[i] {
    }
  }

  lemma {:induction false} DropClobberedUnique(p: Pool, I: Instr, t: seq<Entry>, j: nat)
    requires j <= |t| && OnePerSlot(t)
    ensures OnePerSlot(DropClobbered(p, I, t, j))
    decreases |t| - j
  {
    if j < |t| {
      if ClobberedBy(p, I, t[j].source, After) {
        SwapRemoveUnique(t, j);
        DropClobberedUnique(p, I, SwapRemove(t, j), j);
      } else {
        DropClobberedUnique(p, I, t, j + 1);
      }
    }
  }

  lemma {:induction false} KeptNotClobbered(p: Pool, I: Instr, t: seq<Entry>, j: nat)
    requires j <= |t| && forall i :: 0 <= i < j ==> !ClobberedBy(p, I, t[i].source, After)
    ensures forall e :: e in DropClobbered(p, I, t, j) ==> !ClobberedBy(p, I, e.source, After)
    decreases |t| - j
  {
    if j < |t| {
      if ClobberedBy(p, I, t[j].source, After) {
        KeptNotClobbered(p, I, SwapRemove(t, j), j);
      } else {
        KeptNotClobbered(p, I, t, j + 1);
      }
    }
  }

  lemma ForgetRemoves(t: seq<Entry>, slot: Operand)
    requires OnePerSlot(t) && slot.Ref?
    ensures OnePerSlot(Forget(t, slot))
    ensures forall e :: e in Forget(t, slot) ==> e in t && e.slot.v != slot.v
  {
    var j := Find(t, slot);
    if j < |t| { SwapRemoveUnique(t, j); }
  }

  lemma RememberUnique(t: seq<Entry>, slot: Operand, source: Operand)
    requires OnePerSlot(t) && slot.Ref?
    ensures OnePerSlot(Remember(t, slot, source))
    ensures forall e :: e in Remember(t, slot, source) ==>
              (e in t && e.slot.v != slot.v) || (e.source == source && e.slot.v == slot.v)
  {
    var j := Find(t, slot);
    var r := Remember(t, slot, source);
    forall e | e in r ensures (e in t && e.slot.v != slot.v) || (e.source == source && e.slot.v == slot.v) {
      var i :| 0 <= i < |r| && r[i] == e;
      if i < |t| && i != j { assert e == t[i]; }
    }
  }

  /** An entry that mentions no assigned variable keeps its truth. */
  lemma EvalAfterSet(M: Machine, s: State, v: Var, w: Word, o: Operand)
    requires v !in Vars(o)
    ensures Eval(M, Set(M, s, v, w), o) == Eval(M, s, o)
  {
  }

  lemma EvalAfterPut(M: Machine, s: State, dst: Operand, width: nat, w: Word, o: Operand)
    requires Vars(dst) !! Vars(o)
    ensures Eval(M, Put(M, s, dst, width, w), o) == Eval(M, s, o)
  {
    if dst.Ref? {
      assert dst.v in Vars(dst);
      EvalAfterSet(M, s, dst.v, Narrowed(M, width, w), o);
    }
  }

  lemma StepWritesOnly(M: Machine, I: Instr, s: State, o: Operand)
    requires !KillsAll(I.op) && !I.op.Phi? && Step(M, I, s).Next? && Written(I) !! Vars(o)
    ensures Eval(M, Step(M, I, s).s, o) == Eval(M, s, o)
  {
    match I.op
    case Load => EvalAfterPut(M, s, I.dst, ByteSize(I.dst), Eval(M, s, I.r1), o);
    case Store => EvalAfterPut(M, s, I.dst, Min(ByteSize(I.dst), ByteSize(I.r1)), Eval(M, s, I.r1), o);
    case LoadDeref =>
      EvalAfterPut(M, s, I.dst, ByteSize(I.dst), M.load(Address(M, s, I.r1, I), s.mem).value, o);
    case Lea => EvalAfterPut(M, s, I.dst, ByteSize(I.dst), if I.r1.Ref? then M.address(I.r1.v) else 0, o);
    case Arith(op) =>
      EvalAfterPut(M, s, I.dst, ByteSize(I.dst), Alu(op, Eval(M, s, I.r1), Eval(M, s, I.r2)).value, o);
    case ICmp(c) =>
      EvalAfterPut(M, s, I.dst, ByteSize(I.dst),
                   if Compare(c, Eval(M, s, I.r1), Eval(M, s, I.r2)) then 1 else 0, o);
    case Opaque(code) =>
      EvalAfterPut(M, s, I.dst, ByteSize(I.dst), M.compute(code, Eval(M, s, I.r1), Eval(M, s, I.r2)), o);
    case _ =>
  }

  /** What a store leaves tracked: older entries for other slots, and its own. */
  lemma TrackStore(p: Pool, I: Instr, t: seq<Entry>)
    requires OnePerSlot(t) && I.op.Store? && I.dst.Ref? && !I.r1.Null?
    ensures OnePerSlot(Track(p, I, t))
    ensures forall e :: e in Track(p, I, t) ==>
              (e in t && e.slot.v != I.dst.v)
              || (ByteSize(I.r1) == 8 && e.slot.v == I.dst.v && e.source == I.r1)
  {
    var t1 := DropClobbered(p, I, t, 0);
    DropClobberedUnique(p, I, t, 0);
    if ByteSize(I.r1) == 8 {
      RememberUnique(t1, I.dst, I.r1);
    } else {
      ForgetRemoves(t1, I.dst);
    }
  }

  lemma TrackOther(p: Pool, I: Instr, t: seq<Entry>)
    requires OnePerSlot(t) && !KillsAll(I.op) && !I.op.Store?
    ensures OnePerSlot(Track(p, I, t))
    ensures forall e :: e in Track(p, I, t) ==> e in t && Vars(I.dst) !! Vars(e.slot)
  {
    var t1 := if I.op.Jmp? || I.op.Phi? || I.op.Alloca? then t else DropClobbered(p, I, t, 0);
    DropClobberedUnique(p, I, t, 0);
    if I.dst.Ref? {
      ForgetRemoves(t1, I.dst);
    } else if I.dst.Const? {
      assert Find(t1, I.dst) == |t1|;
    }
  }

  /** The invariant of the pass: tracked facts hold after every instruction that completes. */
  lemma TrackValid(M: Machine, s: State, p: Pool, I: Instr, t: seq<Entry>)
    requires OnePerSlot(t) && Valid(M, s, t) && Step(M, I, s).Next?
    requires StoreWhole(I) && SourcesStable(I, Track(p, I, t)) && !I.op.Phi?
    ensures OnePerSlot(Track(p, I, t)) && Valid(M, Step(M, I, s).s, Track(p, I, t))
  {
    var t', s' := Track(p, I, t), Step(M, I, s).s;
    if KillsAll(I.op) {
    } else if I.op.Store? {
      TrackStore(p, I, t);
      forall e | e in t' ensures Eval(M, s', e.slot) == Eval(M, s', e.source) {
        if e.slot.v == I.dst.v {
          assert Narrowed(M, 8, Eval(M, s, I.r1)) == Eval(M, s, I.r1);
          if Vars(I.r1) != Vars(I.dst) { StepWritesOnly(M, I, s, I.r1); }
        } else {
          StepWritesOnly(M, I, s, e.slot);
          assert Written(I) !! Vars(e.source);
          StepWritesOnly(M, I, s, e.source);
        }
      }
    } else {
      TrackOther(p, I, t);
      forall e | e in t' ensures Eval(M, s', e.slot) == Eval(M, s', e.source) {
        assert Written(I) <= Vars(I.dst);
        StepWritesOnly(M, I, s, e.slot);
        assert Written(I) !! Vars(e.source);
        StepWritesOnly(M, I, s, e.source);
      }
    }
  }

  /** A hazard-free block and its forwarded form do the same thing from every state. */
  lemma {:induction false} ForwardExec(M: Machine, s: State, p: Pool, code: Code, t: seq<Entry>)
    requires HazardFree(p, code, t) && OnePerSlot(t) && Valid(M, s, t)
    ensures Exec(M, ForwardCode(p, code, t), s) == Exec(M, code, s)
    decreases |code|
  {
    if code == [] {
    } else if code[0].op.Nop? {
      ForwardExec(M, s, p, code[1..], t);
      assert ForwardCode(p, code, t)[1..] == ForwardCode(p, code[1..], t);
    } else {
      var I := RewriteAll(p, code[0], t);
      var t' := Track(p, I, t);
      RewriteAllSame(M, s, p, code[0], t);
      SameInputsSameStep(M, s, code[0], I);
      assert ForwardCode(p, code, t)[1..] == ForwardCode(p, code[1..], t');
      if Step(M, I, s).Next? {
        if I.op.Phi? {
          TrackOther(p, I, t);
          assert t' == [];
        } else {
          TrackValid(M, s, p, I, t);
        }
        ForwardExec(M, Step(M, I, s).s, p, code[1..], t');
      }
    }
  }

  lemma {:induction false} ForwardPhis(p: Pool, code: Code, t: seq<Entry>, from: nat)
    requires HazardFree(p, code, t)
    ensures PhiMoves(ForwardCode(p, code, t), from) == PhiMoves(code, from)
    decreases |code|
  {
    if code == [] {
    } else if code[0].op.Nop? {
      ForwardPhis(p, code[1..], t, from);
      assert ForwardCode(p, code, t)[1..] == ForwardCode(p, code[1..], t);
    } else {
      var I := RewriteAll(p, code[0], t);
      RewriteAllKeepsOp(p, code[0], t);
      assert ForwardCode(p, code, t)[1..] == ForwardCode(p, code[1..], Track(p, I, t));
      if I.op.Phi? {
        ForwardPhis(p, code[1..], Track(p, I, t), from);
      }
    }
  }

  lemma RewriteAllKeepsOp(p: Pool, I: Instr, t: seq<Entry>)
    ensures RewriteAll(p, I, t).op == I.op
    decreases |t|
  {
    if t != [] { RewriteAllKeepsOp(p, RewriteOperands(p, I, t[0]), t[1..]); }
  }

  predicate FuncHazardFree(p: Pool, F: Func)
  {
    forall b :: 0 <= b < |F| ==> HazardFree(p, F[b], [])
  }

  /**
   Forwarding preserves meaning: for every machine, every backend pool and every run of any length,
   the forwarded function is in exactly the same state, slot by slot.
   */
  lemma {:induction false} ForwardPreservesRuns(M: Machine, p: Pool, F: Func, c: Config, n: nat)
    requires FuncHazardFree(p, F)
    ensures Run(M, ForwardFunc(p, F), c, n) == Run(M, F, c, n)
  {
    if n > 0 {
      ForwardPreservesRuns(M, p, F, c, n - 1);
      ForwardPreservesBlock(M, p, F, Run(M, F, c, n - 1));
    }
  }

  lemma ForwardPreservesBlock(M: Machine, p: Pool, F: Func, x: Config)
    requires FuncHazardFree(p, F)
    ensures StepBlock(M, ForwardFunc(p, F), x) == StepBlock(M, F, x)
  {
    if x.At? && x.block < |F| {
      var code := F[x.block];
      ForwardPhis(p, code, [], x.from);
      ForwardExec(M, Enter(M, code, x.from, x.s), p, code, []);
    }
  }

  // ----- a condition one can check on the block itself -----

  /** Whole-word stores whose source is a constant or a variable not assigned again in the block. */
  predicate Settled(code: Code)
  {
    && PhisFirst(code)
    && (forall i :: 0 <= i < |code| && code[i].op.Store? ==>
          code[i].dst.Ref? && code[i].dst.size >= 8 && !code[i].r1.Null? && ByteSize(code[i].r1) == 8)
    && (forall i, j :: 0 <= i < j < |code| && code[i].op.Store? ==> Written(code[j]) !! Vars(code[i].r1))
  }

  predicate Lasting(code: Code, o: Operand)
  {
    !o.Null? && ByteSize(o) == 8 && forall j :: 0 <= j < |code| ==> Written(code[j]) !! Vars(o)
  }

  predicate Carries(code: Code, t: seq<Entry>)
  {
    && (forall e :: e in t ==> Lasting(code, e.source))
    && (t != [] ==> forall j :: 0 <= j < |code| ==> !code[j].op.Phi?)
  }

  lemma {:induction false} RewriteAllShape(p: Pool, code: Code, I: Instr, t: seq<Entry>)
    requires forall e :: e in t ==> Lasting(code, e.source)
    ensures var J := RewriteAll(p, I, t);
            && J.op == I.op && (J.dst == I.dst || I.op.Br? || I.op.Ret?) && Written(J) == Written(I)
            && (J.r1 == I.r1 || Lasting(code, J.r1))
    decreases |t|
  {
    if t != [] {
      RewriteAllShape(p, code, RewriteOperands(p, I, t[0]), t[1..]);
    }
  }

  lemma TailSettled(code: Code)
    requires Settled(code) && code != []
    ensures Settled(code[1..])
  {
    var rest := code[1..];
    forall i, j | 0 <= i < j < |rest| && rest[j].op.Phi? ensures rest[i].op.Phi? || rest[i].op.Nop? {
      assert code[i + 1].op.Phi? || code[i + 1].op.Nop?;
    }
    forall i, j | 0 <= i < j < |rest| && rest[i].op.Store? ensures Written(rest[j]) !! Vars(rest[i].r1) {
      assert Written(code[j + 1]) !! Vars(code[i + 1].r1);
    }
  }

  lemma TailCarries(code: Code, t: seq<Entry>)
    requires Carries(code, t) && code != []
    ensures Carries(code[1..], t)
  {
    var rest := code[1..];
    forall e | e in t ensures Lasting(rest, e.source) {
      forall j | 0 <= j < |rest| ensures Written(rest[j]) !! Vars(e.source) {
        assert Written(code[j + 1]) !! Vars(e.source);
      }
    }
  }

  lemma {:induction false} SettledIsHazardFree(p: Pool, code: Code, t: seq<Entry>)
    requires Settled(code) && OnePerSlot(t) && Carries(code, t)
    ensures HazardFree(p, code, t)
    decreases |code|
  {
    if code != [] {
      var rest := code[1..];
      TailSettled(code);
      TailCarries(code, t);
      if code[0].op.Nop? {
        SettledIsHazardFree(p, rest, t);
      } else {
        var I := RewriteAll(p, code[0], t);
        RewriteAllShape(p, code, code[0], t);
        SettledStep(p, code, I, t);
        SettledIsHazardFree(p, rest, Track(p, I, t));
      }
    }
  }

  /** What forwarding does to the instruction at the head of a block. */
  predicate Redirected(code: Code, J: Instr)
    requires code != []
  {
    var I := code[0];
    J.op == I.op && (J.dst == I.dst || I.op.Br? || I.op.Ret?) && Written(J) == Written(I)
    && (J.r1 == I.r1 || Lasting(code, J.r1))
  }

  lemma {:induction false} ForwardRedirects(p: Pool, code: Code, t: seq<Entry>, i: nat)
    requires Settled(code) && OnePerSlot(t) && Carries(code, t) && i < |code|
    ensures Redirected(code[i..], ForwardCode(p, code, t)[i])
    decreases |code|
  {
    hide Settled, Carries, OnePerSlot, Redirected;
    var rest := code[1..];
    TailSettled(code);
    TailCarries(code, t);
    assert code[0..] == code;
    if code[0].op.Nop? {
      assert Redirected(code, code[0]) by { SameRedirected(code); }
      if i > 0 { assert code[i..] == rest[i - 1..]; ForwardRedirects(p, rest, t, i - 1); }
    } else {
      var I := RewriteAll(p, code[0], t);
      assert Redirected(code, I) by { HeadRedirected(p, code, t); }
      assert OnePerSlot(Track(p, I, t)) && Carries(rest, Track(p, I, t)) by { HeadCarries(p, code, t); }
      if i > 0 { assert code[i..] == rest[i - 1..]; ForwardRedirects(p, rest, Track(p, I, t), i - 1); }
    }
  }

  lemma SameRedirected(code: Code)
    requires code != []
    ensures Redirected(code, code[0])
  {
  }

  lemma HeadRedirected(p: Pool, code: Code, t: seq<Entry>)
    requires code != [] && Carries(code, t)
    ensures Redirected(code, RewriteAll(p, code[0], t))
  {
    RewriteAllShape(p, code, code[0], t);
  }

  lemma HeadCarries(p: Pool, code: Code, t: seq<Entry>)
    requires Settled(code) && OnePerSlot(t) && Carries(code, t) && code != [] && !code[0].op.Nop?
    ensures var t' := Track(p, RewriteAll(p, code[0], t), t); OnePerSlot(t') && Carries(code[1..], t')
  {
    hide Settled, Carries, OnePerSlot;
    assert forall e :: e in t ==> Lasting(code, e.source) by { CarriesLasting(code, t); }
    RewriteAllShape(p, code, code[0], t);
    SettledStep(p, code, RewriteAll(p, code[0], t), t);
  }

  lemma CarriesLasting(code: Code, t: seq<Entry>)
    requires Carries(code, t)
    ensures forall e :: e in t ==> Lasting(code, e.source)
  {
  }

  /** Forwarding leaves a settled block settled: what it moves into a store is not assigned afterwards either. */
  lemma ForwardKeepsSettled(p: Pool, code: Code)
    requires Settled(code)
    ensures Settled(ForwardCode(p, code, []))
  {
    hide ForwardCode, Written;
    var out := ForwardCode(p, code, []);
    forall i | 0 <= i < |code| ensures Redirected(code[i..], out[i]) {
      ForwardRedirects(p, code, [], i);
    }
    forall i | 0 <= i < |code| ensures out[i].op == code[i].op && Written(out[i]) == Written(code[i]) {
      assert Redirected(code[i..], out[i]);
    }
    forall i | 0 <= i < |out| && out[i].op.Store?
      ensures out[i].dst.Ref? && out[i].dst.size >= 8 && !out[i].r1.Null? && ByteSize(out[i].r1) == 8
    {
      assert Redirected(code[i..], out[i]);
    }
    forall i, j | 0 <= i < j < |out| && out[i].op.Store? ensures Written(out[j]) !! Vars(out[i].r1) {
      assert Redirected(code[i..], out[i]);
      assert code[i..][j - i] == code[j];
    }
  }

  lemma SettledStep(p: Pool, code: Code, I: Instr, t: seq<Entry>)
    requires code != [] && Settled(code) && OnePerSlot(t) && Carries(code, t) && !code[0].op.Nop?
    requires I.op == code[0].op && (I.dst == code[0].dst || I.op.Br? || I.op.Ret?) && Written(I) == Written(code[0])
    requires I.r1 == code[0].r1 || Lasting(code, I.r1)
    ensures var t' := Track(p, I, t);
            && StoreWhole(I) && SameStoreWidth(code[0], I) && (I.op.Phi? ==> t == [])
            && OnePerSlot(t') && SourcesStable(I, t') && Carries(code[1..], t')
  {
    var t', rest := Track(p, I, t), code[1..];
    if KillsAll(I.op) {
    } else if I.op.Store? {
      TrackStore(p, I, t);
    } else {
      TrackOther(p, I, t);
    }
    forall e | e in t' ensures Lasting(rest, e.source) {
      if e in t {
        assert Lasting(code, e.source);
      }
      forall j | 0 <= j < |rest| ensures Written(rest[j]) !! Vars(e.source) {
        assert Written(code[j + 1]) !! Vars(e.source);
      }
    }
    if t' != [] {
      assert !I.op.Phi?;
      forall j | 0 <= j < |rest| ensures !rest[j].op.Phi? {
        assert rest[j] == code[j + 1];
      }
    }
  }
}
