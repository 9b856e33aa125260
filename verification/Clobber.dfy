/**
 The AArch64 answer to "does emitting I write this register by then" (aarch64OpClobbers), against the
 shape of the emitters: r1 goes through scratch register 0, then r2 through scratch register 1, the result
 comes out of scratch register 0, and a store through a pointer reads its value last.

 A run of a block is any sequence of register files that changes only what the shape allows. Whatever
 those changes are, every operand that forwarding replaced by a register-resident source is read while
 the register still holds that source.
 */
module Clobber {
  import opened Options
  import opened Words
  import opened Ir
  import opened Forward
  import Fixpoint
  import Liveness

  const Scratch: set<Reg> := {X(0), X(1), X(2), D(0), D(1)}
  const Scratch0: set<Reg> := {X(0), D(0)}

  predicate DerefStore(op: Op)
  {
    op.StoreDeref? || op.RmwDeref?
  }

  predicate InReg(o: Operand)
  {
    o.Ref? && o.reg.Some?
  }

  /** aarch64OpClobbers */
  predicate OpClobbers(I: Instr, r: Reg, at: Point)
  {
    match at
    case BeforeR1 => DerefStore(I.op)
    case BeforeR2 => DerefStore(I.op) || r in Scratch0
    case After =>
      if I.op.Store? then InReg(I.dst) || (!InReg(I.r1) && r in Scratch0) else true
  }

  function Aarch64(): Pool
  {
    Pool(Scratch, Some((I, r, at) => OpClobbers(I, r, at)))
  }

  // ----- the emission shape -----

  type RegFile = Reg -> Word

  /** The register file when I starts, when r1 is read, when r2 is read and when I is done. */
  datatype Points = Points(start: RegFile, atR1: RegFile, atR2: RegFile, done: RegFile)

  function DstReg(I: Instr): set<Reg>
  {
    if InReg(I.dst) then {I.dst.reg.value} else {}
  }

  function WrittenBeforeR1(I: Instr): set<Reg>
  {
    if DerefStore(I.op) then Scratch else {}
  }

  function WrittenBeforeR2(I: Instr): set<Reg>
  {
    if DerefStore(I.op) then Scratch
    else if I.op.Nop? || I.op.Jmp? || I.op.Phi? || I.op.Alloca? then {}
    else if I.op.Store? && InReg(I.r1) then {}
    else Scratch0
  }

  /** Calls are not bounded: they write what they like. */
  predicate MayWriteLater(I: Instr, r: Reg)
  {
    if I.op.Nop? || I.op.Jmp? || I.op.Phi? || I.op.Alloca? then false
    else if I.op.Call? then true
    else if I.op.Store? then r in DstReg(I) || (!InReg(I.r1) && r in Scratch0)
    else r in Scratch || r in DstReg(I)
  }

  ghost predicate Shaped(I: Instr, p: Points)
  {
    && (forall r :: r !in WrittenBeforeR1(I) ==> p.atR1(r) == p.start(r))
    && (forall r :: r !in WrittenBeforeR2(I) ==> p.atR2(r) == p.atR1(r))
    && (forall r :: !MayWriteLater(I, r) ==> p.done(r) == p.atR2(r))
  }

  // ----- what must hold -----

  /** The register of o holds the value of its variable. */
  predicate Intact(rf: RegFile, V: Var -> Word, o: Operand)
  {
    InReg(o) ==> rf(o.reg.value) == V(o.v)
  }

  ghost predicate AllIntact(rf: RegFile, V: Var -> Word, t: seq<Entry>)
  {
    forall e :: e in t ==> Intact(rf, V, e.source)
  }

  /** Operands that forwarding changed are read from intact registers. BR and RET read their dst first; a call
      argument can only have become a constant; a phi value, which is read after the predecessor's terminator
      has used the scratch registers, lives outside them. */
  ghost predicate ReadsIntact(I: Instr, J: Instr, p: Points, V: Var -> Word)
  {
    && (J.r1 != I.r1 ==> Intact(p.atR1, V, J.r1))
    && (J.r2 != I.r2 ==> Intact(p.atR2, V, J.r2))
    && (J.dst != I.dst ==> Intact(p.start, V, J.dst))
    && |J.args| == |I.args| && (forall k :: 0 <= k < |I.args| ==> J.args[k] == I.args[k] || J.args[k].Const?)
    && |J.pairs| == |I.pairs|
    && (forall k :: 0 <= k < |I.pairs| ==>
          || J.pairs[k] == I.pairs[k]
          || (Intact(p.start, V, J.pairs[k].value) && !InScratch(Aarch64(), J.pairs[k].value)))
  }

  /** What the block brings along: a register-resident value that is stored is in its register when it is
      stored, and no result goes to the register of a tracked source unless that register is scratch. */
  ghost predicate Arrives(I: Instr, J: Instr, t: seq<Entry>, p: Points, V: Var -> Word)
  {
    && (I.op.Store? && J.r1 == I.r1 ==> Intact(p.atR1, V, J.r1))
    && (forall e :: e in t && InReg(e.source) && e.source.reg.value in DstReg(J) ==> e.source.reg.value in Scratch)
    && (I.op.Store? && InReg(J.r1) ==> J.r1.reg.value !in DstReg(J))
  }

  ghost predicate BlockArrives(code: Code, t: seq<Entry>, ps: seq<Points>, V: Var -> Word)
    requires |ps| == |code|
  {
    code != [] ==>
      if code[0].op.Nop? then BlockArrives(code[1..], t, ps[1..], V)
      else
        var J := RewriteAll(Aarch64(), code[0], t);
        Arrives(code[0], J, t, ps[0], V) && BlockArrives(code[1..], Track(Aarch64(), J, t), ps[1..], V)
  }

  ghost predicate BlockReadsIntact(code: Code, t: seq<Entry>, ps: seq<Points>, V: Var -> Word)
    requires |ps| == |code|
  {
    code != [] ==>
      if code[0].op.Nop? then BlockReadsIntact(code[1..], t, ps[1..], V)
      else
        var J := RewriteAll(Aarch64(), code[0], t);
        ReadsIntact(code[0], J, ps[0], V) && BlockReadsIntact(code[1..], Track(Aarch64(), J, t), ps[1..], V)
  }

  /** A run of the rewritten block within the emission shape. */
  ghost predicate Runs(code: Code, ps: seq<Points>)
  {
    && |ps| == |code|
    && (forall i :: 0 <= i < |code| ==> Shaped(code[i], ps[i]))
    && (forall i :: 0 <= i < |code| - 1 ==> ps[i + 1].start == ps[i].done)
  }

  // ----- proofs -----

  /** A replaced operand is a tracked source the oracle let through. */
  predicate FromEntry(t: seq<Entry>, o: Operand, I: Instr, at: Point)
  {
    exists e :: e in t && o == e.source && !ClobberedBy(Aarch64(), I, e.source, at)
  }

  predicate Tracked(t: seq<Entry>, o: Operand)
  {
    exists e :: e in t && o == e.source
  }

  lemma {:induction false} Replaced(I: Instr, t: seq<Entry>)
    ensures var J := RewriteAll(Aarch64(), I, t);
            && J.op == I.op
            && (J.r1 == I.r1 || FromEntry(t, J.r1, I, BeforeR1))
            && (J.r2 == I.r2 || FromEntry(t, J.r2, I, BeforeR2))
            && (J.dst == I.dst || ((I.op.Br? || I.op.Ret?) && Tracked(t, J.dst)))
            && |J.args| == |I.args| && |J.pairs| == |I.pairs|
            && (forall k :: 0 <= k < |I.args| ==> J.args[k] == I.args[k] || J.args[k].Const?)
            && (forall k :: 0 <= k < |I.pairs| ==>
                  J.pairs[k] == I.pairs[k] || (Tracked(t, J.pairs[k].value) && !InScratch(Aarch64(), J.pairs[k].value)))
    decreases |t|
  {
    hide RewriteOperands, ClobberedBy, InScratch;
    if t != [] {
      var I1 := RewriteOperands(Aarch64(), I, t[0]);
      ReplacedOnce(I, t[0]);
      Replaced(I1, t[1..]);
      assert t[0] in t && forall e :: e in t[1..] ==> e in t;
      SameOracle(I, I1);
    }
  }

  lemma ReplacedOnce(I: Instr, e: Entry)
    ensures var J := RewriteOperands(Aarch64(), I, e);
            && J.op == I.op
            && (J.r1 == I.r1 || (J.r1 == e.source && !ClobberedBy(Aarch64(), I, e.source, BeforeR1)))
            && (J.r2 == I.r2 || (J.r2 == e.source && !ClobberedBy(Aarch64(), I, e.source, BeforeR2)))
            && (J.dst == I.dst || ((I.op.Br? || I.op.Ret?) && J.dst == e.source))
            && |J.args| == |I.args| && |J.pairs| == |I.pairs|
            && (forall k :: 0 <= k < |I.args| ==> J.args[k] == I.args[k] || J.args[k].Const?)
            && (forall k :: 0 <= k < |I.pairs| ==>
                  || J.pairs[k] == I.pairs[k]
                  || (J.pairs[k].value == e.source && !InScratch(Aarch64(), e.source)))
  {
  }

  /** Before the operands are read, the oracle looks at the opcode only. */
  lemma SameOracle(I: Instr, J: Instr)
    requires I.op == J.op
    ensures forall o :: ClobberedBy(Aarch64(), I, o, BeforeR1) == ClobberedBy(Aarch64(), J, o, BeforeR1)
    ensures forall o :: ClobberedBy(Aarch64(), I, o, BeforeR2) == ClobberedBy(Aarch64(), J, o, BeforeR2)
  {
  }

  lemma StepReads(I: Instr, t: seq<Entry>, p: Points, V: Var -> Word)
    requires var J := RewriteAll(Aarch64(), I, t); Shaped(J, p) && AllIntact(p.start, V, t)
    ensures ReadsIntact(I, RewriteAll(Aarch64(), I, t), p, V)
  {
    hide RewriteAll;
    Replaced(I, t);
    var J := RewriteAll(Aarch64(), I, t);
    if J.r1 != I.r1 {
      assert FromEntry(t, J.r1, I, BeforeR1);
    }
    if J.r2 != I.r2 {
      assert FromEntry(t, J.r2, I, BeforeR2);
    }
  }

  /** What stays tracked after J: unclobbered old entries, and the source just stored. */
  lemma TrackedSources(J: Instr, t: seq<Entry>)
    ensures forall e :: e in Track(Aarch64(), J, t) ==>
              && !Liveness.KillsAll(J.op)
              && (|| (e in t && (J.op.Jmp? || J.op.Phi? || J.op.Alloca? || !ClobberedBy(Aarch64(), J, e.source, After)))
                  || (J.op.Store? && e.source == J.r1))
  {
    var p := Aarch64();
    KeptNotClobbered(p, J, t, 0);
  }

  lemma SurvivesEmission(J: Instr, p: Points, V: Var -> Word, o: Operand)
    requires Shaped(J, p) && Intact(p.start, V, o) && !J.op.Call? && !DerefStore(J.op)
    requires J.op.Jmp? || J.op.Phi? || J.op.Alloca? || J.op.Nop? || !ClobberedBy(Aarch64(), J, o, After)
    requires InReg(o) && o.reg.value in DstReg(J) ==> o.reg.value in Scratch
    ensures Intact(p.done, V, o)
  {
  }

  lemma StepTracks(I: Instr, t: seq<Entry>, p: Points, V: Var -> Word)
    requires var J := RewriteAll(Aarch64(), I, t);
             Shaped(J, p) && AllIntact(p.start, V, t) && Arrives(I, J, t, p, V)
    ensures AllIntact(p.done, V, Track(Aarch64(), RewriteAll(Aarch64(), I, t), t))
  {
    hide RewriteAll, Track, Shaped, ClobberedBy;
    Replaced(I, t);
    StepReads(I, t, p, V);
    var J := RewriteAll(Aarch64(), I, t);
    TrackedSources(J, t);
    forall e | e in Track(Aarch64(), J, t) ensures Intact(p.done, V, e.source) {
      if J.op.Store? && e.source == J.r1 {
        StoredStays(J, p, V);
      } else {
        SurvivesEmission(J, p, V, e.source);
      }
    }
  }

  lemma StoredStays(J: Instr, p: Points, V: Var -> Word)
    requires J.op.Store? && Shaped(J, p) && Intact(p.atR1, V, J.r1) && (InReg(J.r1) ==> J.r1.reg.value !in DstReg(J))
    ensures Intact(p.done, V, J.r1)
  {
  }

  /**
   Under the AArch64 oracle: for every block, every tracking state and every run within the emission shape,
   a forwarded operand is read while its register still holds the stored value.
   */
  lemma {:induction false} ForwardedRegistersIntact(code: Code, t: seq<Entry>, ps: seq<Points>, V: Var -> Word)
    requires Runs(ForwardCode(Aarch64(), code, t), ps) && BlockArrives(code, t, ps, V)
    requires code != [] ==> AllIntact(ps[0].start, V, t)
    ensures BlockReadsIntact(code, t, ps, V)
    decreases |code|
  {
    hide RewriteAll, Track, AllIntact, ReadsIntact, Arrives;
    if code != [] {
      var out := ForwardCode(Aarch64(), code, t);
      if code[0].op.Nop? {
        var rest := ForwardCode(Aarch64(), code[1..], t);
        assert out[1..] == rest;
        RunsTail(out, ps);
        if |code| > 1 { NopKeeps(out[0], ps[0], t, V); }
        ForwardedRegistersIntact(code[1..], t, ps[1..], V);
      } else {
        var J := RewriteAll(Aarch64(), code[0], t);
        var t' := Track(Aarch64(), J, t);
        assert out[0] == J && Shaped(J, ps[0]);
        StepReads(code[0], t, ps[0], V);
        StepTracks(code[0], t, ps[0], V);
        var rest := ForwardCode(Aarch64(), code[1..], t');
        assert out[1..] == rest;
        RunsTail(out, ps);
        ForwardedRegistersIntact(code[1..], t', ps[1..], V);
      }
    }
  }

  lemma RunsTail(code: Code, ps: seq<Points>)
    requires Runs(code, ps) && |code| > 0
    ensures Runs(code[1..], ps[1..]) && (|code| > 1 ==> ps[1].start == ps[0].done)
  {
  }

  lemma NopKeeps(I: Instr, p: Points, t: seq<Entry>, V: Var -> Word)
    requires I.op.Nop? && Shaped(I, p) && AllIntact(p.start, V, t)
    ensures AllIntact(p.done, V, t)
  {
  }

  // ----- what each instruction really writes -----

  /** The forms of the operations the IR leaves open: which register file they read and which they fill. */
  datatype Form = UnaryInt | UnaryFloat | BinaryFloat | CompareFloat | FloatToInt | IntToFloat

  /** What the emitters look up elsewhere: immediates an instruction can encode, float-typed instructions, and
      the form of an open operation. */
  datatype Target = Target(encodes: (Op, Signed) -> bool, float: Instr -> bool, form: nat -> Form)

  /** aarch64LoadToReg and aarch64LoadToFpr: a value already in the register is not moved. */
  function Landed(o: Operand, r: Reg): set<Reg>
  {
    if InReg(o) && o.reg.value == r then {} else {r}
  }

  /** An address is used where it is, or loaded into x1; an index likewise, or into x2. */
  function AddressWrites(o: Operand): set<Reg>
  {
    if InReg(o) then {} else {X(1)}
  }

  function IndexWrites(I: Instr): set<Reg>
  {
    if I.idx.Null? || I.scale == 0 || InReg(I.idx) then {} else {X(2)}
  }

  function Result(tgt: Target, I: Instr): Reg
  {
    if tgt.float(I) then D(0) else X(0)
  }

  function EmitsBeforeR1(I: Instr): set<Reg>
  {
    match I.op
    case StoreDeref => IndexWrites(I) + AddressWrites(I.dst)
    case RmwDeref(_) => AddressWrites(I.dst) + IndexWrites(I) + {X(0)}
    case _ => {}
  }

  function EmitsBeforeR2(tgt: Target, I: Instr): set<Reg>
  {
    match I.op
    case Arith(_) => Landed(I.r1, X(0))
    case ICmp(_) => Landed(I.r1, X(0))
    case CmpBr(_, _, _) => Landed(I.r1, Result(tgt, I))
    case Opaque(code) => Landed(I.r1, if tgt.form(code).UnaryInt? || tgt.form(code).IntToFloat? then X(0) else D(0))
    case _ => {}
  }

  predicate Immediate(tgt: Target, I: Instr)
  {
    I.r2.Const? && tgt.encodes(I.op, I.r2.k)
  }

  /** Where the second operand goes: nowhere if it is an immediate or, for the simple operations, a register. */
  function SecondWrites(tgt: Target, I: Instr): set<Reg>
  {
    match I.op
    case Arith(op) =>
      if op.IMul? || Divides(op) then Landed(I.r2, X(1))
      else if op.Shl? || op.Shr? || op.Sar? then
        if I.r2.Const? && 0 <= I.r2.k < 64 then {} else Landed(I.r2, X(1))
      else if Immediate(tgt, I) || InReg(I.r2) then {} else {X(1)}
    case ICmp(_) => if Immediate(tgt, I) then {} else Landed(I.r2, X(1))
    case CmpBr(_, _, _) => if Immediate(tgt, I) then {} else Landed(I.r2, if tgt.float(I) then D(1) else X(1))
    case Opaque(code) =>
      if tgt.form(code).BinaryFloat? || (tgt.form(code).CompareFloat? && !Immediate(tgt, I)) then Landed(I.r2, D(1))
      else {}
    case _ => {}
  }

  function EmitsLater(tgt: Target, I: Instr): set<Reg>
  {
    match I.op
    case Arith(op) => {X(0)} + SecondWrites(tgt, I) + (if op.IRem? || op.URem? then {X(2)} else {}) + DstReg(I)
    case ICmp(_) => {X(0)} + SecondWrites(tgt, I) + DstReg(I)
    case CmpBr(_, _, _) => SecondWrites(tgt, I)
    case Opaque(code) =>
      var f := tgt.form(code);
      {if f.UnaryInt? || f.CompareFloat? || f.FloatToInt? then X(0) else D(0)} + SecondWrites(tgt, I) + DstReg(I)
    case Load => {Result(tgt, I)} + DstReg(I)
    case LoadDeref => AddressWrites(I.r1) + IndexWrites(I) + {Result(tgt, I)} + DstReg(I)
    case Store => (if InReg(I.r1) then {} else {Result(tgt, I)}) + DstReg(I)
    case StoreDeref => if tgt.float(I) then Landed(I.r1, D(0)) else ValueWrites(I)
    case RmwDeref(_) => {X(0)}
    case Lea => {X(0)} + DstReg(I)
    case Ret => Landed(I.dst, Result(tgt, I))
    case Br(_, _) => Landed(I.dst, X(0))
    case _ => {}
  }

  /** The stored value goes through x0, or through x9 when x0 holds the address or the index. */
  function ValueWrites(I: Instr): set<Reg>
  {
    if (InReg(I.dst) && I.dst.reg.value == X(0)) || (InReg(I.idx) && I.idx.reg.value == X(0)) then {}
    else Landed(I.r1, X(0))
  }

  /** The registers lost by a point of I's emission, for everything but calls. */
  function Lost(tgt: Target, I: Instr, at: Point): set<Reg>
  {
    match at
    case BeforeR1 => EmitsBeforeR1(I)
    case BeforeR2 => EmitsBeforeR1(I) + EmitsBeforeR2(tgt, I)
    case After => EmitsBeforeR1(I) + EmitsBeforeR2(tgt, I) + EmitsLater(tgt, I)
  }

  ghost predicate Emitted(tgt: Target, I: Instr, p: Points)
  {
    && (forall r :: r !in EmitsBeforeR1(I) ==> p.atR1(r) == p.start(r))
    && (forall r :: r !in EmitsBeforeR2(tgt, I) ==> p.atR2(r) == p.atR1(r))
    && (forall r :: r !in EmitsLater(tgt, I) && !I.op.Call? ==> p.done(r) == p.atR2(r))
  }

  /** Every instruction's own emission stays within the shape the theorem above is about. */
  lemma EmissionIsShaped(tgt: Target, I: Instr, p: Points)
    requires Emitted(tgt, I, p)
    ensures Shaped(I, p)
  {
    assert EmitsBeforeR1(I) <= WrittenBeforeR1(I);
    assert EmitsBeforeR2(tgt, I) <= WrittenBeforeR2(I);
    assert !I.op.Call? ==> forall r :: r in EmitsLater(tgt, I) ==> MayWriteLater(I, r);
  }

  ghost predicate EmittedRun(tgt: Target, code: Code, ps: seq<Points>)
  {
    && |ps| == |code|
    && (forall i :: 0 <= i < |code| ==> Emitted(tgt, code[i], ps[i]))
    && (forall i :: 0 <= i < |code| - 1 ==> ps[i + 1].start == ps[i].done)
  }

  /** Forwarded operands are read right by the code the backend emits, instruction by instruction. */
  lemma ForwardedReadsRight(tgt: Target, code: Code, ps: seq<Points>, V: Var -> Word)
    requires EmittedRun(tgt, ForwardCode(Aarch64(), code, []), ps) && BlockArrives(code, [], ps, V)
    ensures BlockReadsIntact(code, [], ps, V)
  {
    hide BlockArrives, BlockReadsIntact, Emitted, Shaped;
    var out := ForwardCode(Aarch64(), code, []);
    forall i | 0 <= i < |out| ensures Shaped(out[i], ps[i]) {
      EmissionIsShaped(tgt, out[i], ps[i]);
    }
    ForwardedRegistersIntact(code, [], ps, V);
  }

  // ----- the oracle -----

  /** The scratch registers the oracle gives up by that point. */
  function Given(I: Instr, at: Point): set<Reg>
  {
    set r | r in Scratch && OpClobbers(I, r, at)
  }

  predicate Emits(I: Instr)
  {
    !(I.op.Nop? || I.op.Jmp? || I.op.Phi? || I.op.Alloca?)
  }

  /** A scratch register that is lost is always given up. */
  lemma OracleMissesNothing(tgt: Target, I: Instr, at: Point)
    requires Emits(I) && !I.op.Call?
    ensures Lost(tgt, I, at) * Scratch <= Given(I, at)
  {
  }

  /** What is given up needlessly before r1 is read: for stores through pointers, all but address and index. */
  lemma SparedBeforeR1(tgt: Target, I: Instr)
    ensures !DerefStore(I.op) ==> Given(I, BeforeR1) == {}
    ensures I.op.StoreDeref? ==>
              Given(I, BeforeR1) - Lost(tgt, I, BeforeR1) == Scratch - AddressWrites(I.dst) - IndexWrites(I)
    ensures I.op.RmwDeref? ==>
              Given(I, BeforeR1) - Lost(tgt, I, BeforeR1) ==
                {X(1), X(2), D(0), D(1)} - AddressWrites(I.dst) - IndexWrites(I)
  {
  }

  /** Before r2 is read, integer arithmetic gives up d0 needlessly, and x0 if r1 was there. */
  lemma SparedBeforeR2(tgt: Target, I: Instr)
    requires I.op.Arith? || I.op.ICmp?
    ensures Given(I, BeforeR2) - Lost(tgt, I, BeforeR2) == {X(0), D(0)} - Landed(I.r1, X(0))
  {
  }

  /** After integer arithmetic the float registers are given up needlessly, and x1, x2 unless they were used. */
  lemma SparedAfterArith(tgt: Target, I: Instr)
    requires I.op.Arith?
    ensures var rem := I.op.bin.IRem? || I.op.bin.URem?;
            Given(I, After) - Lost(tgt, I, After) ==
              {X(1), X(2), D(0), D(1)} - SecondWrites(tgt, I) - (if rem then {X(2)} else {}) - DstReg(I)
  {
  }

  /** The case the oracle is refined for: a store from a register to a slot gives up nothing and loses nothing; a
      store of anything else gives up only the other file's scratch register needlessly. */
  lemma SparedAfterStore(tgt: Target, I: Instr)
    requires I.op.Store? && !InReg(I.dst)
    ensures InReg(I.r1) ==> Given(I, After) == {} && Lost(tgt, I, After) == {}
    ensures !InReg(I.r1) ==> Given(I, After) - Lost(tgt, I, After) == {X(0), D(0)} - {Result(tgt, I)}
    ensures Given(I, BeforeR2) - Lost(tgt, I, BeforeR2) == {X(0), D(0)}
  {
  }

  /** The backend has written nothing before a plain store reads its source, so forwarding ends for it too. */
  lemma StoresReadFirst()
    ensures forall I: Instr, o: Operand :: I.op.Store? ==> !ClobberedBy(Aarch64(), I, o, BeforeR1)
    ensures Fixpoint.LostStaysLost(Aarch64())
  {
  }
}
