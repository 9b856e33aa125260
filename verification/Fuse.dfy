/**
 Fusing address arithmetic and read-modify-write triples into memory operations
 (irFuseIaddIntoMemAddressing, irFuseLoadOpStore).

 Each fusion is shown in two moves: rewriting the memory operation leaves every state unchanged,
 because the temporary it no longer reads still equals its defining expression; after that the
 temporaries are unused and their definitions can go.
 */
module Fuse {
  import opened Options
  import opened Words
  import opened Ir
  import opened Liveness
  import opened Equivalence
  import opened Ssa
  import opened CertEdit
  import opened DeadCode
  import opened Forward

  predicate MemOp(op: Op)
  {
    op.LoadDeref? || op.StoreDeref? || op.RmwDeref?
  }

  function BaseOf(J: Instr): Operand
  {
    if J.op.LoadDeref? then J.r1 else J.dst
  }

  function WithBase(J: Instr, base: Operand): Instr
  {
    if J.op.LoadDeref? then J.(r1 := base) else J.(dst := base)
  }

  /** irFindMemConsumer: the first mention of `t` after position p, if it is as a memory address. */
  function FindMemConsumer(code: Code, p: nat, t: Operand): (r: Option<nat>)
    ensures r.Some? ==> p <= r.value < |code| && MemOp(code[r.value].op) && BaseOf(code[r.value]) == t
    decreases |code| - p
  {
    if p >= |code| then None
    else if code[p].op.Nop? then FindMemConsumer(code, p + 1, t)
    else if MemOp(code[p].op) && BaseOf(code[p]) == t then Some(p)
    else if code[p].r1 == t || code[p].r2 == t || code[p].dst == t || code[p].idx == t then None
    else FindMemConsumer(code, p + 1, t)
  }

  /** irRangeClobbersScratch */
  predicate RangeClobbers(code: Code, i: nat, j: nat)
    requires i < j <= |code|
  {
    exists k :: i < k < j && !(code[k].op.Nop? || code[k].op.Jmp? || code[k].op.Phi? || code[k].op.Alloca?)
  }

  predicate RegisterAtRisk(p: Pool, code: Code, i: nat, j: nat, base: Operand)
    requires i < j < |code|
  {
    InScratch(p, base) && (RangeClobbers(code, i, j) || ClobberedBy(p, code[j], base, BeforeR1))
  }

  /** The constant displacement an add or subtract contributes, and what it is added to. */
  function DispOf(I: Instr): Option<(Operand, int)>
  {
    if I.op == Arith(IAdd) then
      if I.r2.Const? then Some((I.r1, I.r2.k))
      else if I.r1.Const? then Some((I.r2, I.r1.k))
      else None
    else if I.op == Arith(ISub) && I.r2.Const? then Some((I.r1, 0 - I.r2.k))
    else None
  }

  predicate FitsDisp(k: int)
  {
    -0x8000_0000 <= k <= 0x7FFF_FFFF
  }

  /** The tests before either fold: an 8-byte add or subtract used once, as an address, later in the block. */
  predicate Candidate(F: Func, b: nat, i: nat)
  {
    && InFunc(F, b, i)
    && var I := F[b][i];
       && (I.op == Arith(IAdd) || I.op == Arith(ISub)) && IsTmp(I.dst) && !I.r1.Null? && !I.r2.Null? && I.dst.size == 8
       && UseCount(F, I.dst.v.id) == 1 && FindMemConsumer(F[b], i + 1, I.dst).Some?
  }

  function Consumer(F: Func, b: nat, i: nat): (j: nat)
    requires Candidate(F, b, i)
    ensures i < j < |F[b]| && MemOp(F[b][j].op) && BaseOf(F[b][j]) == F[b][i].dst
  {
    FindMemConsumer(F[b], i + 1, F[b][i].dst).value
  }

  predicate DispFold(p: Pool, F: Func, b: nat, i: nat)
  {
    && Candidate(F, b, i)
    && var j := Consumer(F, b, i);
       var d := DispOf(F[b][i]);
       && F[b][j].disp == 0 && d.Some? && FitsDisp(d.value.1)
       && !RegisterAtRisk(p, F[b], i, j, d.value.0)
  }

  function DispFused(F: Func, b: nat, i: nat): Instr
    requires Candidate(F, b, i) && DispOf(F[b][i]).Some?
  {
    var d := DispOf(F[b][i]).value;
    WithBase(F[b][Consumer(F, b, i)], d.0).(disp := d.1)
  }

  /** What the displacement fold does to the function. */
  function FoldDisp(F: Func, b: nat, i: nat): Func
    requires Candidate(F, b, i) && DispOf(F[b][i]).Some?
  {
    Replace(Replace(F, b, Consumer(F, b, i), DispFused(F, b, i)), b, i, NopInstr())
  }

  // ----- address arithmetic -----

  lemma DisplacedAddress(M: Machine, s: State, I: Instr, J: Instr)
    requires Holds(M, s, I) && DispOf(I).Some? && MemOp(J.op) && BaseOf(J) == I.dst && J.disp == 0
    ensures var d := DispOf(I).value;
            Address(M, s, d.0, WithBase(J, d.0).(disp := d.1)) == Address(M, s, I.dst, J)
  {
    hide Alu, Wrap;
    var d := DispOf(I).value;
    var p, x := Eval(M, s, d.0), J.scale * Eval(M, s, J.idx);
    assert Eval(M, s, I.dst) == Wrap(p + d.1) by { DisplacedValue(M, s, I); }
    WrapAdd(p + d.1, x);
    assert Wrap(Wrap(p + d.1) + x) == Wrap(p + d.1 + x);
  }

  lemma AddSubValues(a: Word, b: Word)
    ensures Alu(IAdd, a, b) == Some(Wrap(a + b)) && Alu(ISub, a, b) == Some(Wrap(a - b))
  {
  }

  lemma DisplacedValue(M: Machine, s: State, I: Instr)
    requires Holds(M, s, I) && DispOf(I).Some?
    ensures Eval(M, s, I.dst) == Wrap(Eval(M, s, DispOf(I).value.0) + DispOf(I).value.1)
  {
    hide Alu, Wrap;
    var d := DispOf(I).value;
    var p := Eval(M, s, d.0);
    AddSubValues(Eval(M, s, I.r1), Eval(M, s, I.r2));
    if I.op == Arith(IAdd) {
      WrapAdd(p, d.1);
      WrapAdd(d.1, p);
      assert d.1 + p == p + d.1;
    } else {
      WrapSub(p, I.r2.k);
      WrapWord(p);
    }
  }

  /** Two memory operations that differ only in how they spell the same address. */
  lemma SameAddressSameStep(M: Machine, s: State, J: Instr, K: Instr)
    requires MemOp(J.op) && K.op == J.op && K.r2 == J.r2 && K.args == J.args
    requires if J.op.LoadDeref? then K.dst == J.dst else K.r1 == J.r1
    requires Address(M, s, BaseOf(K), K) == Address(M, s, BaseOf(J), J)
    ensures Step(M, K, s) == Step(M, J, s)
  {
    hide Alu, Assign, WriteThrough;
  }

  // ----- facts carried along a block -----

  function FactVars(D: Instr): set<Var>
  {
    Vars(D.dst) + Vars(D.r1) + Vars(D.r2)
  }

  /** An instruction leaves the truth of `t = a op b` alone: it assigns none of the three, and if it
      can change memory, none of the three lives there. */
  predicate Preserves(M: Machine, I: Instr, D: Instr)
  {
    Written(I) !! FactVars(D) && (KillsAll(I.op) ==> PlainFact(M, D))
  }

  predicate PlainFact(M: Machine, D: Instr)
  {
    forall v :: v in FactVars(D) ==> !Resident(M, v)
  }

  lemma StepKeepsFact(M: Machine, s: State, I: Instr, D: Instr)
    requires Holds(M, s, D) && Preserves(M, I, D) && Step(M, I, s).Next?
    ensures Holds(M, Step(M, I, s).s, D)
  {
    hide Step, Alu, Compare, Written;
    forall o: Operand | o == D.dst || o == D.r1 || o == D.r2
      ensures Eval(M, Step(M, I, s).s, o) == Eval(M, s, o)
    {
      if o.Ref? {
        assert o.v in Vars(o);
        StepKeepsVar(M, s, I, o.v);
      }
    }
  }

  predicate AllHold(M: Machine, s: State, facts: seq<Instr>)
  {
    forall D :: D in facts ==> Holds(M, s, D)
  }

  /** Codes that agree except at j, where they act alike whenever the facts hold; the facts last until j. */
  ghost predicate Interchangeable(M: Machine, facts: seq<Instr>, c1: Code, c2: Code, j: nat)
  {
    && |c1| == |c2| && j < |c1| && c2 == c1[j := c2[j]]
    && (forall k, D :: 0 <= k < j && D in facts ==> Preserves(M, c1[k], D))
    && (forall s: State :: AllHold(M, s, facts) ==> Step(M, c1[j], s) == Step(M, c2[j], s))
  }

  lemma {:induction false} FactsExec(M: Machine, facts: seq<Instr>, c1: Code, c2: Code, j: nat, s: State)
    requires Interchangeable(M, facts, c1, c2, j) && AllHold(M, s, facts)
    ensures Exec(M, c1, s) == Exec(M, c2, s)
    decreases |c1|
  {
    hide Step, Preserves, Holds;
    if j == 0 {
      assert c1[1..] == c2[1..];
      assert Step(M, c1[0], s) == Step(M, c2[0], s);
    } else {
      assert c1[0] == c2[0];
      if Step(M, c1[0], s).Next? {
        forall D | D in facts ensures Holds(M, Step(M, c1[0], s).s, D) {
          assert Preserves(M, c1[0], D);
          StepKeepsFact(M, s, c1[0], D);
        }
        var d1, d2 := c1[1..], c2[1..];
        assert d2 == d1[j - 1 := d2[j - 1]];
        forall k, D | 0 <= k < j - 1 && D in facts ensures Preserves(M, d1[k], D) {
          assert Preserves(M, c1[k + 1], D);
        }
        FactsExec(M, facts, d1, d2, j - 1, Step(M, c1[0], s).s);
      }
    }
  }

  /** A common prefix does not matter. */
  lemma {:induction false} PrefixExec(M: Machine, c1: Code, c2: Code, i: nat, s: State)
    requires i <= |c1| == |c2| && c1[..i] == c2[..i]
    requires forall s': State :: Exec(M, c1[i..], s') == Exec(M, c2[i..], s')
    ensures Exec(M, c1, s) == Exec(M, c2, s)
    decreases i
  {
    hide Step;
    if i == 0 {
      assert c1[0..] == c1 && c2[0..] == c2;
    } else {
      assert c1[0] == c1[..i][0] == c2[..i][0] == c2[0];
      var d1, d2 := c1[1..], c2[1..];
      assert d1[i - 1..] == c1[i..] && d2[i - 1..] == c2[i..];
      assert d1[..i - 1] == c1[..i][1..] && d2[..i - 1] == c2[..i][1..];
      if Step(M, c1[0], s).Next? { PrefixExec(M, d1, d2, i - 1, Step(M, c1[0], s).s); }
    }
  }

  /** A whole-word operation whose operands do not mention its result makes its own fact true. */
  predicate Defining(I: Instr)
  {
    I.op.Arith? && I.dst.Ref? && I.dst.size >= 8 && Vars(I.dst) !! Vars(I.r1) + Vars(I.r2)
  }

  lemma StepMakesFact(M: Machine, s: State, I: Instr)
    requires Defining(I) && Step(M, I, s).Next?
    ensures Holds(M, Step(M, I, s).s, I)
  {
    hide Alu;
    var w := Alu(I.op.bin, Eval(M, s, I.r1), Eval(M, s, I.r2)).value;
    EvalAfterPut(M, s, I.dst, 8, w, I.r1);
    EvalAfterPut(M, s, I.dst, 8, w, I.r2);
  }

  /** Until the consumer, nothing disturbs the operands or the result of the instruction at i. */
  predicate Steady(M: Machine, code: Code, i: nat, j: nat, D: Instr)
    requires i < j <= |code|
  {
    forall k :: i < k < j ==> Preserves(M, code[k], D)
  }

  /** Replacing the instruction at j, given what the one at i computes. */
  lemma UseOfFact(M: Machine, code: Code, i: nat, j: nat, K: Instr, s: State)
    requires i < j < |code| && Defining(code[i]) && Steady(M, code, i, j, code[i])
    requires forall s': State :: Holds(M, s', code[i]) ==> Step(M, code[j], s') == Step(M, K, s')
    ensures Exec(M, code, s) == Exec(M, code[j := K], s)
  {
    hide Step, Preserves, Holds, Defining;
    var c2, facts := code[j := K], [code[i]];
    var d1, d2 := code[i + 1..], c2[i + 1..];
    assert d2 == d1[j - i - 1 := K];
    forall s': State | AllHold(M, s', facts) ensures Step(M, d1[j - i - 1], s') == Step(M, d2[j - i - 1], s') {
      assert code[i] in facts;
    }
    forall k, D | 0 <= k < j - i - 1 && D in facts ensures Preserves(M, d1[k], D) {
      assert Preserves(M, code[i + 1 + k], code[i]);
    }
    assert Interchangeable(M, facts, d1, d2, j - i - 1);
    forall s': State ensures Exec(M, code[i..], s') == Exec(M, c2[i..], s') {
      assert code[i..][1..] == d1 && c2[i..][1..] == d2 && code[i..][0] == c2[i..][0] == code[i];
      if Step(M, code[i], s').Next? {
        StepMakesFact(M, s', code[i]);
        FactsExec(M, facts, d1, d2, j - i - 1, Step(M, code[i], s').s);
      }
    }
    assert code[..i] == c2[..i];
    PrefixExec(M, code, c2, i, s);
  }

  // ----- use counts -----

  function Uses(o: Operand, id: nat): nat
  {
    if IsTmp(o) && o.v.id == id then 1 else 0
  }

  lemma CountThree(a: Operand, b: Operand, c: Operand, id: nat)
    ensures CountTmp([a, b, c], id) == Uses(a, id) + Uses(b, id) + Uses(c, id)
  {
    var x, y, z := [a, b, c], [b, c], [c];
    assert x[1..] == y && y[1..] == z && z[1..] == [];
    assert CountTmp(z, id) == Uses(c, id) + CountTmp([], id);
    assert CountTmp(y, id) == Uses(b, id) + CountTmp(z, id);
  }

  lemma UsesOfMemOp(J: Instr, id: nat)
    requires MemOp(J.op)
    ensures TmpUses(id)(J) ==
              Uses(J.r1, id) + Uses(J.r2, id) + Uses(J.idx, id) + (if J.op.LoadDeref? then 0 else Uses(J.dst, id))
  {
    if J.op.LoadDeref? {
      assert TmpOperands(J) == [J.r1, J.r2, J.idx];
      CountThree(J.r1, J.r2, J.idx, id);
    } else {
      assert TmpOperands(J) == [J.r1, J.r2, J.idx, J.dst];
      CountFour(J.r1, J.r2, J.idx, J.dst, id);
    }
  }

  lemma UsesOfArith(I: Instr, id: nat)
    requires I.op.Arith?
    ensures TmpUses(id)(I) == Uses(I.r1, id) + Uses(I.r2, id) + Uses(I.idx, id)
  {
    assert TmpOperands(I) == [I.r1, I.r2, I.idx];
    CountThree(I.r1, I.r2, I.idx, id);
  }

  // ----- equal states, block by block -----

  ghost predicate SameBlocks(M: Machine, F: Func, G: Func)
  {
    |F| == |G| && forall b :: 0 <= b < |F| ==>
      (forall from: nat :: PhiMoves(F[b], from) == PhiMoves(G[b], from))
      && (forall s: State :: Exec(M, F[b], s) == Exec(M, G[b], s))
  }

  lemma {:induction false} SameBlocksSameRun(M: Machine, F: Func, G: Func, c: Config, n: nat)
    requires SameBlocks(M, F, G)
    ensures Run(M, F, c, n) == Run(M, G, c, n)
  {
    hide SameBlocks, StepBlock;
    if n > 0 {
      SameBlocksSameRun(M, F, G, c, n - 1);
      SameBlocksSameStep(M, F, G, Run(M, F, c, n - 1));
    }
  }

  lemma SameBlocksSameStep(M: Machine, F: Func, G: Func, x: Config)
    requires SameBlocks(M, F, G)
    ensures StepBlock(M, F, x) == StepBlock(M, G, x)
  {
    hide Exec, PhiMoves;
  }

  lemma ReplacedOne(M: Machine, F: Func, b: nat, j: nat, K: Instr)
    requires InFunc(F, b, j) && !K.op.Phi? && !K.op.Nop? && !F[b][j].op.Phi? && !F[b][j].op.Nop?
    requires forall s: State :: Exec(M, F[b], s) == Exec(M, F[b][j := K], s)
    ensures SameBlocks(M, F, Replace(F, b, j, K))
  {
    hide Exec;
    var G := Replace(F, b, j, K);
    forall x | 0 <= x < |F| ensures (forall from: nat :: PhiMoves(F[x], from) == PhiMoves(G[x], from)) {
      forall from: nat ensures PhiMoves(F[x], from) == PhiMoves(G[x], from) {
        if x == b { PhiMovesReplaced(F[b], j, K, from); }
      }
    }
  }

  // ----- constant displacement -----

  lemma DispFusedStep(M: Machine, F: Func, b: nat, i: nat, s: State)
    requires Candidate(F, b, i) && DispOf(F[b][i]).Some? && F[b][Consumer(F, b, i)].disp == 0 && Holds(M, s, F[b][i])
    ensures Step(M, F[b][Consumer(F, b, i)], s) == Step(M, DispFused(F, b, i), s)
  {
    hide Holds, Step, Address;
    var J := F[b][Consumer(F, b, i)];
    DisplacedAddress(M, s, F[b][i], J);
    SameAddressSameStep(M, s, J, DispFused(F, b, i));
  }

  lemma DispFusedUses(F: Func, b: nat, i: nat)
    requires Candidate(F, b, i) && DispOf(F[b][i]).Some? && Defining(F[b][i])
    ensures UseCount(Replace(F, b, Consumer(F, b, i), DispFused(F, b, i)), F[b][i].dst.v.id) == 0
  {
    var I, j := F[b][i], Consumer(F, b, i);
    var J, K, t := F[b][j], DispFused(F, b, i), I.dst.v.id;
    SumReplace(TmpUses(t), F, b, j, K);
    SumAtLeast(TmpUses(t), F, b, j);
    UsesOfMemOp(J, t);
    UsesOfMemOp(K, t);
    assert Uses(I.dst, t) == 1;
    assert Uses(DispOf(I).value.0, t) == 0 by { assert I.dst.v in Vars(I.dst); }
  }

  /** With the consumer rewritten the definition is dead, and deleting it is invisible but for its result. */
  lemma DispDefinitionDropped(M: Machine, F: Func, b: nat, i: nat, c: Config, n: nat)
    requires WellShaped(F) && Candidate(F, b, i) && DispOf(F[b][i]).Some? && Defining(F[b][i]) && NoAllocaComputed(M, F)
    requires Run(M, F, c, n) == Run(M, Replace(F, b, Consumer(F, b, i), DispFused(F, b, i)), c, n)
    ensures SameConfig(DeadOne(F[b][i].dst.v), Run(M, F, c, n), Run(M, FoldDisp(F, b, i), c, n))
  {
    hide Run, Sum, PhisFirst, SameConfig, NoAllocaComputed, FindMemConsumer;
    var j, K := Consumer(F, b, i), DispFused(F, b, i);
    var H := Replace(F, b, j, K);
    ShapeKept(F, b, j, K);
    DispFusedUses(F, b, i);
    NoAllocaKept(M, F, b, j, K);
    assert DeadValue(H, b, i);
    DropDeadValueRun(M, H, b, i, c, n);
  }

  /** Folding an add or subtract of a constant into the addressing mode of its only use is invisible from any
      start, whatever the pointer is, if nothing in between assigns it or the result. */
  lemma FoldDispSteady(M: Machine, p: Pool, F: Func, b: nat, i: nat, c: Config, n: nat)
    requires WellShaped(F) && DispFold(p, F, b, i) && Defining(F[b][i]) && NoAllocaComputed(M, F)
    requires Steady(M, F[b], i, Consumer(F, b, i), F[b][i])
    ensures SameConfig(DeadOne(F[b][i].dst.v), Run(M, F, c, n), Run(M, FoldDisp(F, b, i), c, n))
  {
    hide Steady, Holds, Step, Exec, SameBlocks, Run, NoAllocaComputed, SameConfig, PhisFirst, Defining;
    var j, K := Consumer(F, b, i), DispFused(F, b, i);
    var H := Replace(F, b, j, K);
    forall s: State ensures Exec(M, F[b], s) == Exec(M, F[b][j := K], s) {
      forall s': State | Holds(M, s', F[b][i]) ensures Step(M, F[b][j], s') == Step(M, K, s') {
        DispFusedStep(M, F, b, i, s');
      }
      UseOfFact(M, F[b], i, j, K, s);
    }
    ReplacedOne(M, F, b, j, K);
    SameBlocksSameRun(M, F, H, c, n);
    DispDefinitionDropped(M, F, b, i, c, n);
  }

  // ----- scaled index -----

  /** irFindScalingProducer: the factor, when it is one an addressing mode can express. */
  function ScaleOf(D: Instr): Option<nat>
  {
    if D.r2.Const? && D.op == Arith(Shl) && 0 <= D.r2.k <= 3 then
      Some(if D.r2.k == 0 then 1 else if D.r2.k == 1 then 2 else if D.r2.k == 2 then 4 else 8)
    else if D.r2.Const? && D.op == Arith(IMul) && (D.r2.k == 1 || D.r2.k == 2 || D.r2.k == 4 || D.r2.k == 8) then
      Some(D.r2.k)
    else None
  }

  /** The scaled operand of an add, and the other one. `right` says the scaled one is r2. */
  function Scaled(I: Instr, right: bool): Operand { if right then I.r2 else I.r1 }
  function Other(I: Instr, right: bool): Operand { if right then I.r1 else I.r2 }

  /** The tests of the scale fold; (x, y) is where the scaled operand is defined. */
  predicate ScaleFold(p: Pool, F: Func, b: nat, i: nat, x: nat, y: nat, right: bool)
  {
    && Candidate(F, b, i) && InFunc(F, x, y)
    && var I, j, D := F[b][i], Consumer(F, b, i), F[x][y];
       && I.op == Arith(IAdd) && F[b][j].scale == 0
       && IsTmp(Scaled(I, right)) && D.dst == Scaled(I, right) && ScaleOf(D).Some?
       && UseCount(F, D.dst.v.id) == 1
       && !RegisterAtRisk(p, F[b], i, j, Other(I, right))
  }

  function ScaleFused(F: Func, b: nat, i: nat, D: Instr, right: bool): Instr
    requires Candidate(F, b, i) && ScaleOf(D).Some?
  {
    WithBase(F[b][Consumer(F, b, i)], Other(F[b][i], right)).(idx := D.r1, scale := ScaleOf(D).value)
  }

  function FoldScale(F: Func, b: nat, i: nat, x: nat, y: nat, right: bool): Func
    requires Candidate(F, b, i) && InFunc(F, x, y) && ScaleOf(F[x][y]).Some?
  {
    var H := Replace(F, b, Consumer(F, b, i), ScaleFused(F, b, i, F[x][y], right));
    Replace(Replace(H, b, i, NopInstr()), x, y, NopInstr())
  }

  lemma SmallShift(a: Word, k: Signed)
    requires 0 <= k <= 3
    ensures var scale := if k == 0 then 1 else if k == 1 then 2 else if k == 2 then 4 else 8;
            Alu(Shl, a, Wrap(k)) == Some(Wrap(scale * a))
  {
    assert k % 64 == k;
    assert Pow2(0) == 1 && Pow2(1) == 2 && Pow2(2) == 4 && Pow2(3) == 8;
  }

  lemma SmallProduct(a: Word, k: Signed)
    requires k >= 0
    ensures Alu(IMul, a, Wrap(k)) == Some(Wrap(k * a))
  {
    assert a * k == k * a;
  }

  lemma ScaledValue(M: Machine, s: State, D: Instr)
    requires Holds(M, s, D) && ScaleOf(D).Some?
    ensures Eval(M, s, D.dst) == Wrap(ScaleOf(D).value * Eval(M, s, D.r1))
  {
    hide Alu, Wrap;
    if D.op == Arith(Shl) {
      SmallShift(Eval(M, s, D.r1), D.r2.k);
    } else {
      SmallProduct(Eval(M, s, D.r1), D.r2.k);
    }
  }

  lemma ScaledAddress(M: Machine, s: State, I: Instr, D: Instr, J: Instr, right: bool)
    requires Holds(M, s, I) && Holds(M, s, D) && I.op == Arith(IAdd) && ScaleOf(D).Some? && D.dst == Scaled(I, right)
    requires MemOp(J.op) && BaseOf(J) == I.dst && J.scale == 0
    ensures var base := Other(I, right);
            Address(M, s, base, WithBase(J, base).(idx := D.r1, scale := ScaleOf(D).value)) == Address(M, s, I.dst, J)
  {
    hide Alu, Wrap;
    var base, x := Eval(M, s, Other(I, right)), ScaleOf(D).value * Eval(M, s, D.r1);
    ScaledValue(M, s, D);
    AddSubValues(Eval(M, s, I.r1), Eval(M, s, I.r2));
    assert Eval(M, s, I.dst) == Wrap(base + Wrap(x)) by { assert base + Wrap(x) == Wrap(x) + base; }
    WrapAdd(base, x);
    assert Eval(M, s, I.dst) == Wrap(base + x);
    WrapAdd(base + x, J.disp);
    assert J.scale * Eval(M, s, J.idx) == 0;
    assert base + x + J.disp == base + (x + J.disp);
  }

  lemma ScaleFusedStep(M: Machine, F: Func, b: nat, i: nat, D: Instr, right: bool, s: State)
    requires Candidate(F, b, i) && ScaleOf(D).Some? && D.dst == Scaled(F[b][i], right)
    requires F[b][i].op == Arith(IAdd) && F[b][Consumer(F, b, i)].scale == 0
    requires Holds(M, s, F[b][i]) && Holds(M, s, D)
    ensures Step(M, F[b][Consumer(F, b, i)], s) == Step(M, ScaleFused(F, b, i, D, right), s)
  {
    hide Holds, Step, Address, ScaleOf;
    var J := F[b][Consumer(F, b, i)];
    ScaledAddress(M, s, F[b][i], D, J, right);
    SameAddressSameStep(M, s, J, ScaleFused(F, b, i, D, right));
  }

  lemma ScaleFusedUses(p: Pool, F: Func, b: nat, i: nat, x: nat, y: nat, right: bool)
    requires ScaleFold(p, F, b, i, x, y, right) && Defining(F[b][i]) && Defining(F[x][y])
    requires Vars(F[b][i].dst) !! FactVars(F[x][y])
    ensures var H := Replace(F, b, Consumer(F, b, i), ScaleFused(F, b, i, F[x][y], right));
            && UseCount(H, F[b][i].dst.v.id) == 0
            && UseCount(Replace(H, b, i, NopInstr()), F[x][y].dst.v.id) == 0
  {
    hide FindMemConsumer, ScaleOf;
    var I, D, j := F[b][i], F[x][y], Consumer(F, b, i);
    var J, K, t, u := F[b][j], ScaleFused(F, b, i, D, right), I.dst.v.id, D.dst.v.id;
    var H := Replace(F, b, j, K);
    SumReplace(TmpUses(t), F, b, j, K);
    SumAtLeast(TmpUses(t), F, b, j);
    UsesOfMemOp(J, t);
    UsesOfMemOp(K, t);
    assert Uses(Other(I, right), t) == 0 && Uses(D.r1, t) == 0 by { assert I.dst.v in Vars(I.dst); }
    SumReplace(TmpUses(u), F, b, j, K);
    SumAtLeastTwo(TmpUses(u), F, b, i, b, j);
    UsesOfArith(I, u);
    UsesOfMemOp(J, u);
    UsesOfMemOp(K, u);
    assert Uses(Scaled(I, right), u) == 1;
    assert Uses(D.r1, u) == 0 by { assert D.dst.v in Vars(D.dst); }
    SumReplace(TmpUses(u), H, b, i, NopInstr());
  }

  /** With the consumer rewritten both definitions are dead. */
  /** Once the access is fused, nobody reads the address or the multiple it was computed from. */
  lemma ScaleLeavesDead(p: Pool, F: Func, b: nat, i: nat, x: nat, y: nat, right: bool)
    requires WellShaped(F) && ScaleFold(p, F, b, i, x, y, right) && Defining(F[b][i]) && Defining(F[x][y])
    requires Vars(F[b][i].dst) !! FactVars(F[x][y])
    ensures var H := Replace(F, b, Consumer(F, b, i), ScaleFused(F, b, i, F[x][y], right));
            && InFunc(F, x, y) && WellShaped(H) && DeadValue(H, b, i) && H[b][i] == F[b][i]
            && var H1 := Replace(H, b, i, NopInstr()); WellShaped(H1) && DeadValue(H1, x, y) && H1[x][y] == F[x][y]
  {
    hide FindMemConsumer, ScaleOf, RegisterAtRisk, FactVars, Sum, PhisFirst;
    var j, K := Consumer(F, b, i), ScaleFused(F, b, i, F[x][y], right);
    var H := Replace(F, b, j, K);
    ScaleFusedUses(p, F, b, i, x, y, right);
    ShapeKept(F, b, j, K);
    ShapeKept(H, b, i, NopInstr());
    DifferentPlaces(F, b, i, x, y, right, p);
    ScalerIsSafe(F[x][y]);
  }

  lemma ScaleDefinitionsDropped(M: Machine, p: Pool, F: Func, b: nat, i: nat, x: nat, y: nat, right: bool,
                                c: Config, n: nat)
    requires WellShaped(F) && ScaleFold(p, F, b, i, x, y, right) && Defining(F[b][i]) && Defining(F[x][y])
    requires Vars(F[b][i].dst) !! FactVars(F[x][y]) && NoAllocaComputed(M, F)
    requires Run(M, F, c, n) == Run(M, Replace(F, b, Consumer(F, b, i), ScaleFused(F, b, i, F[x][y], right)), c, n)
    ensures SameConfig(Dead({F[b][i].dst.v, F[x][y].dst.v}, {}),
                       Run(M, F, c, n), Run(M, FoldScale(F, b, i, x, y, right), c, n))
  {
    ScaleLeavesDead(p, F, b, i, x, y, right);
    hide Run, FindMemConsumer, RegisterAtRisk, FactVars, UseCount, NoAllocaComputed, SameConfig, WellShaped, DeadValue;
    hide Defining, ScaleOf;
    var H := Replace(F, b, Consumer(F, b, i), ScaleFused(F, b, i, F[x][y], right));
    NoAllocaKept(M, F, b, Consumer(F, b, i), ScaleFused(F, b, i, F[x][y], right));
    TwoDeadDropped(M, H, b, i, x, y, c, n);
  }

  /** Two dead definitions dropped, one after the other. */
  lemma TwoDeadDropped(M: Machine, F: Func, b: nat, i: nat, x: nat, y: nat, c: Config, n: nat)
    requires WellShaped(F) && NoAllocaComputed(M, F) && DeadValue(F, b, i)
    requires var G := Replace(F, b, i, NopInstr());
             WellShaped(G) && DeadValue(G, x, y) && InFunc(F, x, y) && G[x][y] == F[x][y]
    ensures SameConfig(Dead({F[b][i].dst.v, F[x][y].dst.v}, {}), Run(M, F, c, n),
                       Run(M, Replace(Replace(F, b, i, NopInstr()), x, y, NopInstr()), c, n))
  {
    var G := Replace(F, b, i, NopInstr());
    var H := Replace(G, x, y, NopInstr());
    assert InFunc(F, b, i) && IsTmp(F[b][i].dst) && IsTmp(G[x][y].dst);
    hide Run, UseCount, NoAllocaComputed, SameConfig, WellShaped;
    DropDeadValueRun(M, F, b, i, c, n);
    NoAllocaKept(M, F, b, i, NopInstr());
    DropDeadValueRun(M, G, x, y, c, n);
    var d, e := DeadOne(F[b][i].dst.v), DeadOne(F[x][y].dst.v);
    SameConfigTransitive(d, e, Run(M, F, c, n), Run(M, G, c, n), Run(M, H, c, n));
    assert Both(d, e) == Dead({F[b][i].dst.v, F[x][y].dst.v}, {});
  }

  lemma ScalerIsSafe(D: Instr)
    requires ScaleOf(D).Some?
    ensures DceSafe(D.op)
  {
  }

  lemma DifferentPlaces(F: Func, b: nat, i: nat, x: nat, y: nat, right: bool, p: Pool)
    requires ScaleFold(p, F, b, i, x, y, right)
    ensures (x != b || y != i) && (x != b || y != Consumer(F, b, i))
  {
  }

  // ----- read-modify-write -----

  predicate RmwSupported(op: BinOp)
  {
    op.IAdd? || op.ISub? || op.And? || op.Or? || op.Xor?
  }

  predicate RmwCommutes(op: BinOp)
  {
    op.IAdd? || op.And? || op.Or? || op.Xor?
  }

  predicate NopsBetween(code: Code, i: nat, j: nat)
    requires j <= |code|
  {
    forall k :: i < k < j ==> code[k].op.Nop?
  }

  /** irAddressingMatches */
  predicate AddressingMatches(L: Instr, S: Instr)
  {
    L.r1 == S.dst && L.disp == S.disp && L.scale == S.scale && L.idx == S.idx
  }

  /** Adjacent load, operation and store through one address; `left` says the load is the left operand. */
  predicate RmwFold(F: Func, b: nat, l: nat, m: nat, n: nat, left: bool)
  {
    && InFunc(F, b, n) && l < m < n && NopsBetween(F[b], l, m) && NopsBetween(F[b], m, n)
    && var L, B, S := F[b][l], F[b][m], F[b][n];
       && S.op.StoreDeref? && IsTmp(S.r1) && UseCount(F, S.r1.v.id) == 1
       && B.op.Arith? && RmwSupported(B.op.bin) && B.dst == S.r1 && !B.r1.Null? && !B.r2.Null?
       && (left || RmwCommutes(B.op.bin))
       && IsTmp(Loaded(B, left)) && UseCount(F, Loaded(B, left).v.id) == 1
       && L.op.LoadDeref? && L.dst == Loaded(B, left) && AddressingMatches(L, S)
  }

  function Loaded(B: Instr, left: bool): Operand { if left then B.r1 else B.r2 }
  function Applied(B: Instr, left: bool): Operand { if left then B.r2 else B.r1 }

  function RmwFused(S: Instr, B: Instr, left: bool): Instr
    requires B.op.Arith?
  {
    S.(op := RmwDeref(B.op.bin), r1 := Applied(B, left))
  }

  function FoldRmw(F: Func, b: nat, l: nat, m: nat, n: nat, left: bool): Func
    requires InFunc(F, b, n) && l < m < n && F[b][m].op.Arith?
  {
    var H := Replace(F, b, n, RmwFused(F[b][n], F[b][m], left));
    Replace(Replace(H, b, m, NopInstr()), b, l, NopInstr())
  }

  /** Whole-word temporaries, different from each other and from what the address and the operand name. */
  predicate SafeRmw(L: Instr, B: Instr, S: Instr, left: bool)
  {
    && L.dst.Ref? && B.dst.Ref? && L.dst.size >= 8 && B.dst.size >= 8
    && Vars(L.dst) + Vars(B.dst) !! Vars(S.dst) + Vars(S.idx) + Vars(Applied(B, left))
    && Vars(L.dst) !! Vars(B.dst)
  }

  lemma {:induction false} BitOrCommutes(a: nat, b: nat)
    ensures BitOr(a, b) == BitOr(b, a) && BitXor(a, b) == BitXor(b, a)
    decreases a
  {
    if a != 0 && b != 0 { BitOrCommutes(a / 2, b / 2); }
  }

  lemma Commuted(op: BinOp, a: Word, b: Word)
    requires RmwCommutes(op)
    ensures Alu(op, a, b) == Alu(op, b, a)
  {
    BitAndCommutes(a, b);
    BitOrCommutes(a, b);
  }

  lemma {:induction false} SkipNops(M: Machine, code: Code, i: nat, j: nat, s: State)
    requires i <= j <= |code| && forall k :: i <= k < j ==> code[k].op.Nop?
    ensures Exec(M, code[i..], s) == Exec(M, code[j..], s)
    decreases j - i
  {
    if i < j {
      assert code[i..][1..] == code[i + 1..];
      SkipNops(M, code, i + 1, j, s);
    }
  }

  /** The state after the load and the operation: both temporaries set, memory untouched. */
  lemma TripleState(M: Machine, s: State, L: Instr, B: Instr, S: Instr, left: bool)
    requires L.op.LoadDeref? && B.op.Arith? && RmwSupported(B.op.bin) && L.dst == Loaded(B, left)
    requires AddressingMatches(L, S) && S.op.StoreDeref? && B.dst == S.r1 && SafeRmw(L, B, S, left)
    requires !Resident(M, L.dst.v) && !Resident(M, B.dst.v) && (left || RmwCommutes(B.op.bin))
    ensures Step(M, L, s).Next? ==>
              var s1 := Step(M, L, s).s;
              && Step(M, B, s1).Next?
              && var s2 := Step(M, B, s1).s; Step(M, S, s2) == Step(M, RmwFused(S, B, left), s2)
  {
    hide Alu, WriteThrough;
    if Step(M, L, s).Next? {
      var a := Address(M, s, L.r1, L);
      var w := M.load(a, s.mem).value;
      var s1 := Step(M, L, s).s;
      var op, o := B.op.bin, Applied(B, left);
      forall x: Operand | x == S.dst || x == S.idx || x == o ensures Eval(M, s1, x) == Eval(M, s, x) {
        EvalAfterPut(M, s, L.dst, ByteSize(L.dst), w, x);
      }
      assert Eval(M, s1, L.dst) == w && s1.mem == s.mem;
      RmwNeverTraps(op, Eval(M, s1, B.r1), Eval(M, s1, B.r2));
      var v := Alu(op, Eval(M, s1, B.r1), Eval(M, s1, B.r2)).value;
      if !left { Commuted(op, w, Eval(M, s, o)); }
      assert Alu(op, w, Eval(M, s, o)) == Some(v);
      var s2 := Step(M, B, s1).s;
      forall x: Operand | x == S.dst || x == S.idx || x == o ensures Eval(M, s2, x) == Eval(M, s, x) {
        EvalAfterPut(M, s1, B.dst, ByteSize(B.dst), v, x);
      }
      assert s2.mem == s.mem && Eval(M, s2, S.r1) == v;
      assert Address(M, s2, S.dst, S) == a;
      assert Address(M, s2, S.dst, RmwFused(S, B, left)) == a;
    }
  }

  lemma RmwNeverTraps(op: BinOp, a: Word, b: Word)
    requires RmwSupported(op)
    ensures Alu(op, a, b).Some?
  {
  }

  lemma RmwRewriteExec(M: Machine, code: Code, l: nat, m: nat, n: nat, left: bool, s: State)
    requires l < m < n < |code| && NopsBetween(code, l, m) && NopsBetween(code, m, n)
    requires var L, B, S := code[l], code[m], code[n];
             && L.op.LoadDeref? && B.op.Arith? && RmwSupported(B.op.bin) && L.dst == Loaded(B, left)
             && AddressingMatches(L, S) && S.op.StoreDeref? && B.dst == S.r1 && SafeRmw(L, B, S, left)
             && !Resident(M, L.dst.v) && !Resident(M, B.dst.v) && (left || RmwCommutes(B.op.bin))
    ensures Exec(M, code, s) == Exec(M, code[n := RmwFused(code[n], code[m], left)], s)
  {
    hide Step, SafeRmw, Resident, RmwSupported;
    var L, B, S := code[l], code[m], code[n];
    var K := RmwFused(S, B, left);
    var c2 := code[n := K];
    forall s': State ensures Exec(M, code[l..], s') == Exec(M, c2[l..], s') {
      TripleState(M, s', L, B, S, left);
      TripleExec(M, code, l, m, n, s');
      TripleExec(M, c2, l, m, n, s');
      assert code[n + 1..] == c2[n + 1..];
    }
    assert code[..l] == c2[..l];
    PrefixExec(M, code, c2, l, s);
  }

  function Then(M: Machine, o: Outcome, code: Code): Outcome
  {
    if o.Next? then Exec(M, code, o.s) else o
  }

  /** Three instructions with only NOPs between them run one after the other. */
  lemma TripleExec(M: Machine, code: Code, l: nat, m: nat, n: nat, s: State)
    requires l < m < n < |code| && NopsBetween(code, l, m) && NopsBetween(code, m, n)
    ensures Exec(M, code[l..], s) ==
              var o1 := Step(M, code[l], s);
              if !o1.Next? then o1 else
              var o2 := Step(M, code[m], o1.s);
              if !o2.Next? then o2 else Then(M, Step(M, code[n], o2.s), code[n + 1..])
  {
    hide Step;
    assert code[l..][0] == code[l] && code[l..][1..] == code[l + 1..];
    assert code[m..][0] == code[m] && code[m..][1..] == code[m + 1..];
    assert code[n..][0] == code[n] && code[n..][1..] == code[n + 1..];
    var o1 := Step(M, code[l], s);
    if o1.Next? {
      SkipNops(M, code, l + 1, m, o1.s);
      var o2 := Step(M, code[m], o1.s);
      if o2.Next? { SkipNops(M, code, m + 1, n, o2.s); }
    }
  }

  // dropping the load: a load that traps is caught by the fused operation at the same address

  predicate ReadsNone(d: Dead, code: Code)
  {
    forall k :: 0 <= k < |code| ==> Reads(code[k]) !! d.All()
  }

  lemma UnchangedExec(M: Machine, d: Dead, code: Code, s1: State, s2: State)
    requires ReadsNone(d, code) && SameState(d, s1, s2) && Private(M, d.slots)
    ensures SameOutcome(d, Exec(M, code, s1), Exec(M, code, s2))
  {
    assert CodePruned(M, d, code, code);
    ExecPruned(M, d, code, code, s1, s2);
  }

  predicate LoadThenRmw(M: Machine, d: Dead, code: Code, l: nat, n: nat)
  {
    && l < n < |code| && NopsBetween(code, l, n) && d.slots == {}
    && code[l].op.LoadDeref? && code[l].dst.Ref? && code[l].dst.v in d.temps && !Resident(M, code[l].dst.v)
    && code[n].op.RmwDeref? && AddressingMatches(code[l], code[n])
  }

  lemma LoadDroppedHere(M: Machine, d: Dead, code: Code, l: nat, n: nat, s1: State, s2: State)
    requires ReadsNone(d, code) && LoadThenRmw(M, d, code, l, n) && SameState(d, s1, s2)
    ensures SameOutcome(d, Exec(M, code[l..], s1), Exec(M, code[l := NopInstr()][l..], s2))
  {
    hide SameState, Alu, Reads;
    var L, R, c2 := code[l], code[n], code[l := NopInstr()];
    NothingIsPrivate(M);
    assert code[l..][0] == L && code[l..][1..] == code[l + 1..] == c2[l..][1..];
    assert Exec(M, c2[l..], s2) == Exec(M, code[l + 1..], s2);
    assert ReadsNone(d, code[l + 1..]);
    if Step(M, L, s1).Next? {
      var w := M.load(Address(M, s1, L.r1, L), s1.mem).value;
      PutDead(M, d, s1, L.dst, ByteSize(L.dst), w);
      SameStateJoin(d, Step(M, L, s1).s, s1, s2);
      UnchangedExec(M, d, code[l + 1..], Step(M, L, s1).s, s2);
    } else {
      SkipNops(M, code, l + 1, n, s2);
      assert code[n..][0] == R;
      RmwReads(d, L, R);
      EvalSame(M, d, s1, s2, L.r1);
      EvalSame(M, d, s1, s2, L.idx);
      SameMemory(d, s1, s2);
    }
  }

  lemma RmwReads(d: Dead, L: Instr, R: Instr)
    requires Reads(R) !! d.All() && R.op.RmwDeref? && AddressingMatches(L, R)
    ensures Vars(L.r1) !! d.All() && Vars(L.idx) !! d.All()
  {
  }

  lemma SameMemory(d: Dead, s1: State, s2: State)
    requires SameState(d, s1, s2) && d.slots == {}
    ensures s1.mem == s2.mem
  {
    assert s1.mem.slots - {} == s1.mem.slots && s2.mem.slots - {} == s2.mem.slots;
  }

  lemma SameStateJoin(d: Dead, s0: State, s1: State, s2: State)
    requires SameState(d, s0, s1) && SameState(d, s1, s2)
    ensures SameState(d, s0, s2)
  {
  }

  lemma {:induction false} LoadDropped(M: Machine, d: Dead, code: Code, l: nat, n: nat, k: nat, s1: State, s2: State)
    requires ReadsNone(d, code) && LoadThenRmw(M, d, code, l, n) && k <= l && SameState(d, s1, s2)
    ensures SameOutcome(d, Exec(M, code[k..], s1), Exec(M, code[l := NopInstr()][k..], s2))
    decreases l - k
  {
    hide SameState, Step, LoadThenRmw;
    if k == l {
      LoadDroppedHere(M, d, code, l, n, s1, s2);
    } else {
      assert l < |code| by { LoadInside(M, d, code, l, n); }
      var c2 := code[l := NopInstr()];
      assert code[k..][0] == c2[k..][0] == code[k] && code[k..][1..] == code[k + 1..] && c2[k..][1..] == c2[k + 1..];
      LoadInside(M, d, code, l, n);
      NothingIsPrivate(M);
      StepSame(M, d, code[k], s1, s2);
      if Step(M, code[k], s1).Next? {
        LoadDropped(M, d, code, l, n, k + 1, Step(M, code[k], s1).s, Step(M, code[k], s2).s);
      }
    }
  }

  lemma LoadInside(M: Machine, d: Dead, code: Code, l: nat, n: nat)
    requires LoadThenRmw(M, d, code, l, n)
    ensures l < n < |code| && d.slots == {}
  {
  }

  lemma LoadDroppedSimulates(M: Machine, d: Dead, code: Code, l: nat, n: nat)
    requires ReadsNone(d, code) && LoadThenRmw(M, d, code, l, n) && PhisFirst(code)
    ensures Simulates(M, d, code, code[l := NopInstr()])
  {
    hide LoadThenRmw, SameState, SameOutcome, Exec;
    LoadInside(M, d, code, l, n);
    var c2 := code[l := NopInstr()];
    LoadDroppedPhis(M, d, code, l, n);
    forall s1: State, s2: State | SameState(d, s1, s2) ensures SameOutcome(d, Exec(M, code, s1), Exec(M, c2, s2)) {
      assert code[0..] == code && c2[0..] == c2;
      LoadDropped(M, d, code, l, n, 0, s1, s2);
    }
  }

  lemma LoadDroppedPhis(M: Machine, d: Dead, code: Code, l: nat, n: nat)
    requires ReadsNone(d, code) && LoadThenRmw(M, d, code, l, n) && PhisFirst(code)
    ensures forall from: nat :: PhiMoves(code, from) == PhiMoves(code[l := NopInstr()], from)
    ensures forall from: nat, i :: 0 <= i < |PhiMoves(code, from)| ==> Vars(PhiMoves(code, from)[i].src) !! d.All()
  {
    forall from: nat ensures PhiMoves(code, from) == PhiMoves(code[l := NopInstr()], from) {
      PhiMovesDropped(code, l, NopInstr(), from);
    }
    forall from: nat, i | 0 <= i < |PhiMoves(code, from)| ensures Vars(PhiMoves(code, from)[i].src) !! d.All() {
      forall v | v in d.All() ensures v !in Vars(PhiMoves(code, from)[i].src) {
        assert Unread(code, v);
        MovesUnread(code, v, from, PhiMoves(code, from)[i]);
      }
    }
  }

  lemma DropLoadRun(M: Machine, F: Func, b: nat, l: nat, n: nat, c: Config, k: nat)
    requires WellShaped(F) && InFunc(F, b, n) && l < n && NopsBetween(F[b], l, n) && NoAllocaComputed(M, F)
    requires F[b][l].op.LoadDeref? && IsTmp(F[b][l].dst) && UseCount(F, F[b][l].dst.v.id) == 0
    requires F[b][n].op.RmwDeref? && AddressingMatches(F[b][l], F[b][n])
    ensures SameConfig(DeadOne(F[b][l].dst.v), Run(M, F, c, k), Run(M, Replace(F, b, l, NopInstr()), c, k))
  {
    hide Run, SameConfig, Simulates, LoadThenRmw;
    var v, G := F[b][l].dst.v, Replace(F, b, l, NopInstr());
    var d := DeadOne(v);
    forall x | 0 <= x < |F| ensures ReadsNone(d, F[x]) {
      forall y | 0 <= y < |F[x]| ensures Reads(F[x][y]) !! d.All() {
        UnusedTmp(F, v, x, y);
      }
    }
    assert !Resident(M, v) by { assert InFunc(F, b, l); }
    assert LoadThenRmw(M, d, F[b], l, n) by { LoadRmwHolds(M, d, F[b], l, n); }
    NothingIsPrivate(M);
    forall x | 0 <= x < |F| ensures Simulates(M, d, F[x], G[x]) {
      assert PhisFirst(F[x]);
      if x == b {
        LoadDroppedSimulates(M, d, F[b], l, n);
      } else {
        assert CodePruned(M, d, F[x], G[x]);
        PrunedSimulates(M, d, F[x], G[x]);
      }
    }
    SameConfigReflexive(d, c);
    RunSimulated(M, d, F, G, c, c, k);
  }

  lemma LoadRmwHolds(M: Machine, d: Dead, code: Code, l: nat, n: nat)
    requires l < n < |code| && NopsBetween(code, l, n) && d.slots == {}
    requires code[l].op.LoadDeref? && code[l].dst.Ref? && code[l].dst.v in d.temps && !Resident(M, code[l].dst.v)
    requires code[n].op.RmwDeref? && AddressingMatches(code[l], code[n])
    ensures LoadThenRmw(M, d, code, l, n)
  {
  }

  lemma RmwUses(F: Func, b: nat, l: nat, m: nat, n: nat, left: bool)
    requires RmwFold(F, b, l, m, n, left) && SafeRmw(F[b][l], F[b][m], F[b][n], left)
    ensures var H := Replace(F, b, n, RmwFused(F[b][n], F[b][m], left));
            && UseCount(H, F[b][m].dst.v.id) == 0
            && UseCount(Replace(H, b, m, NopInstr()), F[b][l].dst.v.id) == 0
  {
    var L, B, S := F[b][l], F[b][m], F[b][n];
    var K, t, u := RmwFused(S, B, left), B.dst.v.id, L.dst.v.id;
    var H := Replace(F, b, n, K);
    assert B.dst.v in Vars(B.dst) && L.dst.v in Vars(L.dst);
    SumReplace(TmpUses(t), F, b, n, K);
    SumAtLeast(TmpUses(t), F, b, n);
    UsesOfMemOp(S, t);
    UsesOfMemOp(K, t);
    SumReplace(TmpUses(u), F, b, n, K);
    SumAtLeastTwo(TmpUses(u), F, b, m, b, n);
    UsesOfArith(B, u);
    UsesOfMemOp(S, u);
    UsesOfMemOp(K, u);
    SumReplace(TmpUses(u), H, b, m, NopInstr());
  }

  /** The use counts keep the two temporaries out of everything but their one use. */
  lemma CountsKeepApart(F: Func, b: nat, l: nat, m: nat, n: nat, left: bool)
    requires RmwFold(F, b, l, m, n, left) && F[b][l].dst.size >= 8 && F[b][m].dst.size >= 8
    ensures SafeRmw(F[b][l], F[b][m], F[b][n], left)
  {
    hide Sum, TmpOperands;
    var L, B, S := F[b][l], F[b][m], F[b][n];
    forall id | id == L.dst.v.id || id == B.dst.v.id
      ensures Uses(B.r1, id) + Uses(B.r2, id) + Uses(S.dst, id) + Uses(S.idx, id) + Uses(S.r1, id) <= 1
    {
      SumAtLeastTwo(TmpUses(id), F, b, m, b, n);
      UsesOfArith(B, id);
      UsesOfMemOp(S, id);
    }
    assert Uses(S.r1, B.dst.v.id) == 1 && Uses(Loaded(B, left), L.dst.v.id) == 1;
    assert Vars(L.dst) == {Var(Tmp, L.dst.v.id)} && Vars(B.dst) == {Var(Tmp, B.dst.v.id)};
  }

  lemma RmwRewriteRun(M: Machine, F: Func, b: nat, l: nat, m: nat, n: nat, left: bool, c: Config, k: nat)
    requires RmwFold(F, b, l, m, n, left) && SafeRmw(F[b][l], F[b][m], F[b][n], left) && NoAllocaComputed(M, F)
    ensures Run(M, F, c, k) == Run(M, Replace(F, b, n, RmwFused(F[b][n], F[b][m], left)), c, k)
  {
    hide Exec, SameBlocks, SafeRmw, Run;
    var K := RmwFused(F[b][n], F[b][m], left);
    assert InFunc(F, b, l) && InFunc(F, b, m);
    forall s: State ensures Exec(M, F[b], s) == Exec(M, F[b][n := K], s) {
      RmwRewriteExec(M, F[b], l, m, n, left, s);
    }
    ReplacedOne(M, F, b, n, K);
    SameBlocksSameRun(M, F, Replace(F, b, n, K), c, k);
  }

  /** With the store fused, the operation and then the load are dead. */
  lemma RmwDefinitionsDropped(M: Machine, H: Func, b: nat, l: nat, m: nat, n: nat, c: Config, k: nat)
    requires WellShaped(H) && NoAllocaComputed(M, H) && InFunc(H, b, n) && l < m < n && DeadValue(H, b, m)
    requires NopsBetween(H[b], l, m) && NopsBetween(H[b], m, n)
    requires H[b][l].op.LoadDeref? && IsTmp(H[b][l].dst) && H[b][n].op.RmwDeref? && AddressingMatches(H[b][l], H[b][n])
    requires UseCount(Replace(H, b, m, NopInstr()), H[b][l].dst.v.id) == 0
    ensures SameConfig(Dead({H[b][l].dst.v, H[b][m].dst.v}, {}),
                       Run(M, H, c, k), Run(M, Replace(Replace(H, b, m, NopInstr()), b, l, NopInstr()), c, k))
  {
    hide PhisFirst, Sum, SameConfig, Run, NoAllocaComputed;
    var H1 := Replace(H, b, m, NopInstr());
    var G := Replace(H1, b, l, NopInstr());
    DropDeadValueRun(M, H, b, m, c, k);
    ShapeKept(H, b, m, NopInstr());
    NoAllocaKept(M, H, b, m, NopInstr());
    assert NopsBetween(H1[b], l, n);
    DropLoadRun(M, H1, b, l, n, c, k);
    var d, e := DeadOne(H[b][m].dst.v), DeadOne(H[b][l].dst.v);
    SameConfigTransitive(d, e, Run(M, H, c, k), Run(M, H1, c, k), Run(M, G, c, k));
    assert Both(d, e) == Dead({H[b][l].dst.v, H[b][m].dst.v}, {});
  }

  lemma RmwLeavesDead(F: Func, b: nat, l: nat, m: nat, n: nat, left: bool)
    requires RmwFold(F, b, l, m, n, left) && SafeRmw(F[b][l], F[b][m], F[b][n], left) && WellShaped(F)
    ensures var H := Replace(F, b, n, RmwFused(F[b][n], F[b][m], left));
            && WellShaped(H) && DeadValue(H, b, m) && NopsBetween(H[b], l, m) && NopsBetween(H[b], m, n)
            && UseCount(Replace(H, b, m, NopInstr()), H[b][l].dst.v.id) == 0
  {
    hide SafeRmw, PhisFirst, Sum;
    ShapeKept(F, b, n, RmwFused(F[b][n], F[b][m], left));
    RmwUses(F, b, l, m, n, left);
  }

  /** Fusing `load; op; store` of whole words through one address into a read-modify-write is invisible but for
      the two temporaries, from any start. */
  lemma FoldRmwPreservesRuns(M: Machine, F: Func, b: nat, l: nat, m: nat, n: nat, left: bool, c: Config, k: nat)
    requires WellShaped(F) && RmwFold(F, b, l, m, n, left) && NoAllocaComputed(M, F)
    requires F[b][l].dst.size >= 8 && F[b][m].dst.size >= 8
    ensures SameConfig(Dead({F[b][l].dst.v, F[b][m].dst.v}, {}),
                       Run(M, F, c, k), Run(M, FoldRmw(F, b, l, m, n, left), c, k))
  {
    CountsKeepApart(F, b, l, m, n, left);
    hide SafeRmw, PhisFirst, Sum, SameConfig, Run, NoAllocaComputed, DeadValue, NopsBetween, WellShaped, UseCount;
    RmwRewriteRun(M, F, b, l, m, n, left, c, k);
    RmwLeavesDead(F, b, l, m, n, left);
    var K := RmwFused(F[b][n], F[b][m], left);
    NoAllocaKept(M, F, b, n, K);
    RmwDefinitionsDropped(M, Replace(F, b, n, K), b, l, m, n, c, k);
  }

  lemma CountFour(a: Operand, b: Operand, c: Operand, d: Operand, id: nat)
    ensures CountTmp([a, b, c, d], id) == Uses(a, id) + Uses(b, id) + Uses(c, id) + Uses(d, id)
  {
    assert [a, b, c, d][1..] == [b, c, d];
    CountThree(b, c, d, id);
  }
}
