/**
 The register test of address fusion (irRangeClobbersScratch, irLocClobberedBy): a base that lives in a scratch register
 is still there when the memory operation reads it, in every run within the emission shape of the AArch64 backend. The
 IR has no registers, so nothing proved on the IR needs the test.
 */
module FusionRegisters {
  import opened Ir
  import opened Equivalence
  import opened Forward
  import opened Fuse
  import opened Clobber

  /** The instructions i to j run one after the other within the emission shape. */
  ghost predicate RunsFrom(code: Code, ps: seq<Points>, i: nat, j: nat)
  {
    && |ps| == |code| && i <= j < |code|
    && (forall k :: i <= k <= j ==> Shaped(code[k], ps[k]))
    && (forall k :: i < k <= j ==> ps[k].start == ps[k - 1].done)
  }

  /** Nothing is emitted for these. */
  lemma SilentKeeps(I: Instr, p: Points, r: Reg)
    requires Shaped(I, p) && (I.op.Nop? || I.op.Jmp? || I.op.Phi? || I.op.Alloca?)
    ensures p.done(r) == p.start(r)
  {
  }

  /** An instruction of this kind may write some register. */
  ghost predicate MayWrite(op: Op)
  {
    exists I: Instr, r: Reg :: I.op == op
      && (r in WrittenBeforeR1(I) || r in WrittenBeforeR2(I) || MayWriteLater(I, r))
  }

  /** What stands between is taken for a danger exactly if it is of a kind that writes registers. */
  lemma RangeClobbersIff(code: Code, i: nat, j: nat)
    requires i < j <= |code|
    ensures RangeClobbers(code, i, j) <==> exists k :: i < k < j && MayWrite(code[k].op)
  {
    forall op: Op ensures MayWrite(op) <==> !(op.Nop? || op.Jmp? || op.Phi? || op.Alloca?) {
      var I := NopInstr().(op := op);
      if !(op.Nop? || op.Jmp? || op.Phi? || op.Alloca?) { assert MayWriteLater(I, X(0)); }
    }
    hide MayWrite;
  }

  lemma {:induction false} SilentRun(code: Code, ps: seq<Points>, i: nat, j: nat, r: Reg)
    requires RunsFrom(code, ps, i, j) && i < j && !RangeClobbers(code, i, j) && code[i].op.Nop?
    ensures ps[j].start(r) == ps[i].start(r)
    decreases j
  {
    hide Shaped;
    if j == i + 1 {
      SilentKeeps(code[i], ps[i], r);
    } else {
      SilentRun(code, ps, i, j - 1, r);
      assert i < j - 1 < j;
      SilentKeeps(code[j - 1], ps[j - 1], r);
    }
  }

  lemma ConsumerReads(J: Instr, p: Points, base: Operand)
    requires Shaped(J, p) && MemOp(J.op) && InScratch(Aarch64(), base) && !ClobberedBy(Aarch64(), J, base, BeforeR1)
    ensures p.atR1(base.reg.value) == p.start(base.reg.value)
  {
  }

  /** The fused operation finds in the base's register what was there where the addition stood. */
  lemma BaseIntact(code: Code, ps: seq<Points>, i: nat, j: nat, base: Operand)
    requires RunsFrom(code, ps, i, j) && i < j && code[i].op.Nop? && MemOp(code[j].op)
    requires InScratch(Aarch64(), base) && !RegisterAtRisk(Aarch64(), code, i, j, base)
    ensures ps[j].atR1(base.reg.value) == ps[i].start(base.reg.value)
  {
    SilentRun(code, ps, i, j, base.reg.value);
    ConsumerReads(code[j], ps[j], base);
  }

  /** The risk depends on the operations only. */
  lemma SameRisk(p: Pool, code: Code, out: Code, i: nat, j: nat, base: Operand)
    requires i < j < |code| == |out| && out[j].op == code[j].op && MemOp(code[j].op) && p == Aarch64()
    requires forall k :: i < k < j ==> out[k].op == code[k].op || out[k].op.Nop?
    ensures RegisterAtRisk(p, out, i, j, base) ==> RegisterAtRisk(p, code, i, j, base)
  {
  }

  lemma DispBaseIntact(F: Func, b: nat, i: nat, ps: seq<Points>)
    requires DispFold(Aarch64(), F, b, i)
    ensures var out, j, base := FoldDisp(F, b, i)[b], Consumer(F, b, i), DispOf(F[b][i]).value.0;
            RunsFrom(out, ps, i, j) && InScratch(Aarch64(), base) ==>
              BaseOf(out[j]) == base && ps[j].atR1(base.reg.value) == ps[i].start(base.reg.value)
  {
    hide FindMemConsumer, UseCount, RegisterAtRisk, Shaped;
    var out, j, base := FoldDisp(F, b, i)[b], Consumer(F, b, i), DispOf(F[b][i]).value.0;
    if RunsFrom(out, ps, i, j) && InScratch(Aarch64(), base) {
      SameRisk(Aarch64(), F[b], out, i, j, base);
      BaseIntact(out, ps, i, j, base);
    }
  }

  lemma ThreeReplaced(F: Func, b: nat, j: nat, K: Instr, i: nat, x: nat, y: nat)
    requires InFunc(F, b, i) && InFunc(F, b, j) && InFunc(F, x, y) && i != j && (x != b || y != j)
    ensures var out: Code := Replace(Replace(Replace(F, b, j, K), b, i, NopInstr()), x, y, NopInstr())[b];
            && |out| == |F[b]| && out[i].op.Nop? && out[j] == K
            && forall k :: 0 <= k < |out| && k != j ==> out[k] == F[b][k] || out[k].op.Nop?
  {
    var G: Func := Replace(Replace(F, b, j, K), b, i, NopInstr());
    assert InFunc(G, x, y);
  }

  lemma ScaleLeaves(F: Func, b: nat, i: nat, x: nat, y: nat, right: bool)
    requires ScaleFold(Aarch64(), F, b, i, x, y, right)
    ensures var out, j := FoldScale(F, b, i, x, y, right)[b], Consumer(F, b, i);
            && i < j < |out| == |F[b]| && out[i].op.Nop? && BaseOf(out[j]) == Other(F[b][i], right)
            && out[j].op == F[b][j].op && MemOp(out[j].op)
            && forall k :: i < k < j ==> out[k].op == F[b][k].op || out[k].op.Nop?
    ensures !RegisterAtRisk(Aarch64(), F[b], i, Consumer(F, b, i), Other(F[b][i], right))
  {
    DifferentPlaces(F, b, i, x, y, right, Aarch64());
    hide FindMemConsumer, UseCount, RegisterAtRisk, ScaleOf;
    ThreeReplaced(F, b, Consumer(F, b, i), ScaleFused(F, b, i, F[x][y], right), i, x, y);
    hide Replace;
  }

  lemma ScaleBaseIntact(F: Func, b: nat, i: nat, x: nat, y: nat, right: bool, ps: seq<Points>)
    requires ScaleFold(Aarch64(), F, b, i, x, y, right)
    ensures var out, j, base := FoldScale(F, b, i, x, y, right)[b], Consumer(F, b, i), Other(F[b][i], right);
            RunsFrom(out, ps, i, j) && InScratch(Aarch64(), base) ==>
              BaseOf(out[j]) == base && ps[j].atR1(base.reg.value) == ps[i].start(base.reg.value)
  {
    ScaleLeaves(F, b, i, x, y, right);
    hide FindMemConsumer, UseCount, RegisterAtRisk, Shaped, ScaleOf, FoldScale, Consumer;
    var out, j, base := FoldScale(F, b, i, x, y, right)[b], Consumer(F, b, i), Other(F[b][i], right);
    if RunsFrom(out, ps, i, j) && InScratch(Aarch64(), base) {
      SameRisk(Aarch64(), F[b], out, i, j, base);
      BaseIntact(out, ps, i, j, base);
    }
  }
}
