/**
 What store forwarding does not miss: where the pass has nothing more to change, no read is left of a slot whose stored
 value is still known, except at the places the pass leaves out on purpose.
 */
module ForwardCoverage {
  import opened Options
  import opened Ir
  import opened Liveness
  import opened Equivalence
  import opened Forward
  import opened Fixpoint

  /** The operand names the slot, and the source would be something else. */
  predicate Hit(o: Operand, e: Entry)
  {
    Matches(o, e.slot) && o != e.source
  }

  /** No read of the slot is left but where emitting the instruction may spoil the source's register first; an address
      is taken and a plain copy made of the slot itself, and calls take over constants only. */
  predicate NotRead(p: Pool, I: Instr, e: Entry)
  {
    I.op.Lea? || I.op.Load?
    || ( (Hit(I.r1, e) ==> ClobberedBy(p, I, e.source, BeforeR1))
      && (Hit(I.r2, e) ==> ClobberedBy(p, I, e.source, BeforeR2))
      && (I.op.Br? || I.op.Ret? ==> !Hit(I.dst, e))
      && (I.op.Call? && e.source.Const? ==> forall k :: 0 <= k < |I.args| ==> !Hit(I.args[k], e))
      && (I.op.Phi? && !InScratch(p, e.source) ==> forall k :: 0 <= k < |I.pairs| ==> !Hit(I.pairs[k].value, e)))
  }

  lemma RewriteOneIff(o: Operand, e: Entry)
    ensures RewriteOne(o, e) == o <==> !Hit(o, e)
  {
  }

  lemma ArgsIff(os: seq<Operand>, e: Entry)
    ensures RewriteArgs(os, e) == os <==> forall k :: 0 <= k < |os| ==> !Hit(os[k], e)
  {
    if forall k :: 0 <= k < |os| ==> !Hit(os[k], e) {
      assert RewriteArgs(os, e) == os;
    }
    forall k | 0 <= k < |os| && Hit(os[k], e) ensures RewriteArgs(os, e)[k] != os[k] {}
  }

  lemma PairsIff(ps: seq<PhiPair>, e: Entry)
    ensures RewritePairs(ps, e) == ps <==> forall k :: 0 <= k < |ps| ==> !Hit(ps[k].value, e)
  {
    if forall k :: 0 <= k < |ps| ==> !Hit(ps[k].value, e) {
      assert RewritePairs(ps, e) == ps;
    }
    forall k | 0 <= k < |ps| && Hit(ps[k].value, e) ensures RewritePairs(ps, e)[k] != ps[k] {
      assert RewritePairs(ps, e)[k].value == RewriteOne(ps[k].value, e);
    }
  }

  /** An instruction is left as it is exactly if it does not read the slot. */
  lemma UnchangedIff(p: Pool, I: Instr, e: Entry)
    ensures RewriteOperands(p, I, e) == I <==> NotRead(p, I, e)
  {
    RewriteOneIff(I.r1, e);
    RewriteOneIff(I.r2, e);
    RewriteOneIff(I.dst, e);
    ArgsIff(I.args, e);
    PairsIff(I.pairs, e);
    hide RewriteOne, RewriteArgs, RewritePairs, Hit, InScratch;
  }

  // ----- what is still known -----

  predicate Remembers(t: seq<Entry>, slot: Operand, source: Operand)
  {
    exists e :: e in t && Matches(slot, e.slot) && e.source == source
  }

  /** Some machine and some instruction of this kind change a frame slot that the instruction does not name. */
  ghost predicate ReachesSlots(op: Op)
  {
    exists M: Machine, I: Instr, s: State, v: Var :: ChangesSlot(M, I, s, v) && I.op == op
  }

  predicate ChangesSlot(M: Machine, I: Instr, s: State, v: Var)
  {
    v.kind.Local? && v !in Written(I) && !I.op.Phi? && Step(M, I, s).Next? && Get(M, Step(M, I, s).s, v) != Get(M, s, v)
  }

  /** The table is emptied by exactly the operations that may change a slot behind its back. */
  lemma KillsAllIff(op: Op)
    ensures KillsAll(op) <==> ReachesSlots(op)
  {
    if KillsAll(op) {
      var v := Var(Local, 0);
      var mem := Mem(map[v := 1], map[]);
      var M := Machine((a, m) => Some(0), (a, w, m) => Some(mem), (f, t, ws, m) => Some((mem, 0)), x => 0,
                       (c, a, b) => 0, (n, w) => w, {});
      var bin := if op.RmwDeref? then op.rmw else IAdd;
      var I := NopInstr().(op := op, r1 := Const(1, 8));
      var s := State(map[], Mem(map[], map[]), []);
      OneDivides(bin);
      assert ChangesSlot(M, I, s, v);
    } else {
      forall M: Machine, I: Instr, s: State, v: Var | I.op == op ensures !ChangesSlot(M, I, s, v) {
        if v !in Written(I) && Step(M, I, s).Next? && !I.op.Phi? {
          StepWritesOnly(M, I, s, Ref(v, 8, None, false));
        }
      }
    }
  }

  lemma OneDivides(op: BinOp)
    ensures Alu(op, 0, 1).Some?
  {
  }

  /** A stored word is known. */
  lemma StoreIsKnown(p: Pool, I: Instr, t: seq<Entry>)
    requires I.op.Store? && I.dst.Ref? && !I.r1.Null? && ByteSize(I.r1) == 8
    ensures Remembers(Track(p, I, t), I.dst, I.r1)
  {
    var t1 := DropClobbered(p, I, t, 0);
    var t2 := Remember(t1, I.dst, I.r1);
    var j := Find(t1, I.dst);
    assert t2[j] in t2 && Matches(I.dst, t2[j].slot) && t2[j].source == I.r1;
  }

  /** The instruction neither assigns the slot, nor reaches it through memory, nor spoils the source's register. */
  predicate KeepsKnown(p: Pool, I: Instr, slot: Operand, source: Operand)
  {
    && !KillsAll(I.op) && !Matches(I.dst, slot)
    && (I.op.Jmp? || I.op.Phi? || I.op.Alloca? || !ClobberedBy(p, I, source, After))
  }

  lemma RemovedOther(t: seq<Entry>, j: nat, e: Entry)
    requires j < |t| && e in t && e != t[j]
    ensures e in SwapRemove(t, j)
  {
    var i :| 0 <= i < |t| && t[i] == e;
    if i < |t| - 1 {
      assert SwapRemove(t, j)[i] == e;
    } else {
      assert SwapRemove(t, j)[j] == e;
    }
  }

  lemma {:induction false} UnclobberedStays(p: Pool, I: Instr, t: seq<Entry>, j: nat, e: Entry)
    requires j <= |t| && e in t && !ClobberedBy(p, I, e.source, After)
    ensures e in DropClobbered(p, I, t, j)
    decreases |t| - j
  {
    hide ClobberedBy, SwapRemove;
    if j < |t| {
      if ClobberedBy(p, I, t[j].source, After) {
        RemovedOther(t, j, e);
        UnclobberedStays(p, I, SwapRemove(t, j), j, e);
      } else {
        UnclobberedStays(p, I, t, j + 1, e);
      }
    }
  }

  lemma OtherSlotStays(t: seq<Entry>, slot: Operand, source: Operand, e: Entry)
    requires e in t && !Matches(slot, e.slot)
    ensures e in Forget(t, slot) && e in Remember(t, slot, source)
  {
    hide Matches;
    var j := Find(t, slot);
    if j < |t| { RemovedOther(t, j, e); }
    var i :| 0 <= i < |t| && t[i] == e;
    assert Remember(t, slot, source)[i] == e;
  }

  /** Nothing else is forgotten. */
  lemma KnownStays(p: Pool, I: Instr, t: seq<Entry>, slot: Operand, source: Operand)
    requires Remembers(t, slot, source) && KeepsKnown(p, I, slot, source)
    ensures Remembers(Track(p, I, t), slot, source)
  {
    var e :| e in t && Matches(slot, e.slot) && e.source == source;
    var t1 := if I.op.Jmp? || I.op.Phi? || I.op.Alloca? then t else DropClobbered(p, I, t, 0);
    if !(I.op.Jmp? || I.op.Phi? || I.op.Alloca?) { UnclobberedStays(p, I, t, 0, e); }
    assert !Matches(I.dst, e.slot);
    OtherSlotStays(t1, I.dst, I.r1, e);
    assert e in Track(p, I, t);
  }

  /** The table in front of instruction i, in code the pass leaves as it is. */
  function TableAt(p: Pool, code: Code, i: nat): seq<Entry>
    requires i <= |code|
  {
    if i == 0 then []
    else if code[i - 1].op.Nop? then TableAt(p, code, i - 1)
    else Track(p, code[i - 1], TableAt(p, code, i - 1))
  }

  lemma {:induction false} QuietFrom(p: Pool, code: Code, i: nat)
    requires QuietCode(p, code, []) && i <= |code|
    ensures QuietCode(p, code[i..], TableAt(p, code, i))
    decreases i
  {
    hide Quiet, Track;
    if i > 0 {
      QuietFrom(p, code, i - 1);
      assert code[i - 1..][1..] == code[i..] && code[i - 1..][0] == code[i - 1];
    } else {
      assert code[0..] == code;
    }
  }

  /** The value stored by instruction i is still known in front of instruction j. */
  lemma {:induction false} KnownLater(p: Pool, code: Code, i: nat, j: nat)
    requires i < j <= |code| && code[i].op.Store? && code[i].dst.Ref? && !code[i].r1.Null? && ByteSize(code[i].r1) == 8
    requires forall k :: i < k < j ==> code[k].op.Nop? || KeepsKnown(p, code[k], code[i].dst, code[i].r1)
    ensures Remembers(TableAt(p, code, j), code[i].dst, code[i].r1)
    decreases j
  {
    hide Track, KeepsKnown, Remembers;
    if j == i + 1 {
      StoreIsKnown(p, code[i], TableAt(p, code, i));
    } else {
      KnownLater(p, code, i, j - 1);
      if !code[j - 1].op.Nop? { KnownStays(p, code[j - 1], TableAt(p, code, j - 1), code[i].dst, code[i].r1); }
    }
  }

  /** Where a pass changes nothing, no read is left of a slot after a word was stored to it, as long as nothing in
      between assigns the slot, may reach it through memory, or spoils the register the word is in. */
  lemma NoReadLeft(p: Pool, F: Func, b: nat, i: nat, j: nat)
    requires QuietFunc(p, F) && InFunc(F, b, i) && InFunc(F, b, j) && i < j && !F[b][j].op.Nop?
    requires F[b][i].op.Store? && F[b][i].dst.Ref? && !F[b][i].r1.Null? && ByteSize(F[b][i].r1) == 8
    requires forall k :: i < k < j ==> F[b][k].op.Nop? || KeepsKnown(p, F[b][k], F[b][i].dst, F[b][i].r1)
    ensures NotRead(p, F[b][j], Entry(F[b][i].dst, F[b][i].r1))
  {
    hide KeepsKnown, RewriteOperands, Track;
    var code, slot, source := F[b], F[b][i].dst, F[b][i].r1;
    KnownLater(p, code, i, j);
    QuietFrom(p, code, j);
    assert code[j..][0] == code[j];
    var e :| e in TableAt(p, code, j) && Matches(slot, e.slot) && e.source == source;
    assert RewriteOperands(p, code[j], e) == code[j];
    UnchangedIff(p, code[j], e);
    SameVariable(p, code[j], e, Entry(slot, source));
  }

  lemma SameVariable(p: Pool, I: Instr, e: Entry, f: Entry)
    requires Matches(f.slot, e.slot) && e.source == f.source
    ensures NotRead(p, I, e) <==> NotRead(p, I, f)
  {
    assert forall o :: Hit(o, e) <==> Hit(o, f);
    hide Hit, ClobberedBy;
  }
}
