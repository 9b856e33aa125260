/**
 When two versions of a function are indistinguishable, and the bookkeeping shared by the passes:
 sums over all instructions, single-instruction replacement, and the scans that count operands.
 */
module Equivalence {
  import opened Words
  import opened Ir
  import opened Liveness

  // ----- what an observer of a run sees -----

  predicate SameView(s1: State, s2: State)
  {
    s1.log == s2.log && s1.mem.heap == s2.mem.heap
  }

  predicate SameEnd(o1: Outcome, o2: Outcome)
  {
    match (o1, o2)
    case (Next(s1), Next(s2)) => SameView(s1, s2)
    case (Goto(b1, s1), Goto(b2, s2)) => b1 == b2 && SameView(s1, s2)
    case (Return(v1, s1), Return(v2, s2)) => v1 == v2 && SameView(s1, s2)
    case (Trap(s1), Trap(s2)) => SameView(s1, s2)
    case _ => false
  }

  /** Same block reached, or same ending with the same value; same calls with the same arguments,
      same stores through pointers, same memory outside the frame. */
  predicate SameObs(c1: Config, c2: Config)
  {
    match (c1, c2)
    case (At(f1, b1, s1), At(f2, b2, s2)) => f1 == f2 && b1 == b2 && SameView(s1, s2)
    case (Finished(o1), Finished(o2)) => SameEnd(o1, o2)
    case _ => false
  }

  lemma SameConfigIsSameObs(d: Dead, c1: Config, c2: Config)
    requires SameConfig(d, c1, c2)
    ensures SameObs(c1, c2)
  {
  }

  // ----- replacing one instruction -----

  predicate InFunc(F: Func, b: int, i: int)
  {
    0 <= b < |F| && 0 <= i < |F[b]|
  }

  function Replace(F: Func, b: nat, i: nat, J: Instr): (G: Func)
    requires InFunc(F, b, i)
    ensures |G| == |F|
    ensures forall x :: 0 <= x < |F| ==> |G[x]| == |F[x]|
    ensures forall x, y :: InFunc(F, x, y) ==> G[x][y] == if x == b && y == i then J else F[x][y]
  {
    F[b := F[b][i := J]]
  }

  // ----- sums over instructions -----

  function SumCode(f: Instr -> nat, c: Code): nat
  {
    if c == [] then 0 else f(c[0]) + SumCode(f, c[1..])
  }

  function Sum(f: Instr -> nat, F: Func): nat
  {
    if F == [] then 0 else SumCode(f, F[0]) + Sum(f, F[1..])
  }

  lemma {:induction false} SumCodeReplace(f: Instr -> nat, c: Code, i: nat, J: Instr)
    requires i < |c|
    ensures SumCode(f, c[i := J]) + f(c[i]) == SumCode(f, c) + f(J)
    decreases |c|
  {
    if i > 0 {
      SumCodeReplace(f, c[1..], i - 1, J);
      assert c[i := J][1..] == c[1..][i - 1 := J];
    } else {
      assert c[i := J][1..] == c[1..];
    }
  }

  lemma {:induction false} SumReplace(f: Instr -> nat, F: Func, b: nat, i: nat, J: Instr)
    requires InFunc(F, b, i)
    ensures Sum(f, Replace(F, b, i, J)) + f(F[b][i]) == Sum(f, F) + f(J)
    decreases |F|
  {
    var G := Replace(F, b, i, J);
    if b > 0 {
      SumReplace(f, F[1..], b - 1, i, J);
      assert G[1..] == Replace(F[1..], b - 1, i, J);
    } else {
      SumCodeReplace(f, F[0], i, J);
      assert G[1..] == F[1..];
    }
  }

  lemma {:induction false} SumCodeAtLeast(f: Instr -> nat, c: Code, i: nat)
    requires i < |c|
    ensures SumCode(f, c) >= f(c[i])
    decreases |c|
  {
    if i > 0 { SumCodeAtLeast(f, c[1..], i - 1); }
  }

  lemma {:induction false} SumAtLeast(f: Instr -> nat, F: Func, b: nat, i: nat)
    requires InFunc(F, b, i)
    ensures Sum(f, F) >= f(F[b][i])
    decreases |F|
  {
    if b > 0 {
      SumAtLeast(f, F[1..], b - 1, i);
    } else {
      SumCodeAtLeast(f, F[0], i);
    }
  }

  /** Two different places together contribute no more than the whole. */
  lemma {:induction false} SumAtLeastTwo(f: Instr -> nat, F: Func, b: nat, i: nat, x: nat, y: nat)
    requires InFunc(F, b, i) && InFunc(F, x, y) && (b != x || i != y)
    ensures Sum(f, F) >= f(F[b][i]) + f(F[x][y])
    decreases |F|
  {
    if b > 0 && x > 0 {
      SumAtLeastTwo(f, F[1..], b - 1, i, x - 1, y);
    } else if b == 0 && x == 0 {
      SumCodeAtLeastTwo(f, F[0], i, y);
    } else if b == 0 {
      SumCodeAtLeast(f, F[0], i);
      SumAtLeast(f, F[1..], x - 1, y);
    } else {
      SumCodeAtLeast(f, F[0], y);
      SumAtLeast(f, F[1..], b - 1, i);
    }
  }

  lemma {:induction false} SumCodeAtLeastTwo(f: Instr -> nat, c: Code, i: nat, j: nat)
    requires i < |c| && j < |c| && i != j
    ensures SumCode(f, c) >= f(c[i]) + f(c[j])
    decreases |c|
  {
    if i > 0 && j > 0 {
      SumCodeAtLeastTwo(f, c[1..], i - 1, j - 1);
    } else if i == 0 {
      SumCodeAtLeast(f, c[1..], j - 1);
    } else {
      SumCodeAtLeast(f, c[1..], i - 1);
    }
  }

  /** How many instructions are still live; the measure that shrinks when a pass deletes one. */
  function Alive(): Instr -> nat
  {
    (I: Instr) => if I.op.Nop? then 0 else 1
  }

  lemma DeletingShrinks(F: Func, b: nat, i: nat, J: Instr)
    requires InFunc(F, b, i) && !F[b][i].op.Nop? && J.op.Nop?
    ensures Sum(Alive(), Replace(F, b, i, J)) < Sum(Alive(), F)
  {
    SumReplace(Alive(), F, b, i, J);
  }

  // ----- operand scans -----

  function VarId(o: Operand): nat
  {
    match o
    case Null => 0
    case Const(k, _) => k % 0x1_0000_0000   // the id field overlays the low half of the constant
    case Ref(v, _, _, _) => v.id
  }

  function Values(ps: seq<PhiPair>): (os: seq<Operand>)
    ensures |os| == |ps| && forall i :: 0 <= i < |ps| ==> os[i] == ps[i].value
  {
    seq(|ps|, i requires 0 <= i < |ps| => ps[i].value)
  }

  function CountId(os: seq<Operand>, id: nat): nat
  {
    if os == [] then 0
    else (if !os[0].Null? && VarId(os[0]) == id then 1 else 0) + CountId(os[1..], id)
  }

  function CountTmp(os: seq<Operand>, id: nat): nat
  {
    if os == [] then 0
    else (if IsTmp(os[0]) && os[0].v.id == id then 1 else 0) + CountTmp(os[1..], id)
  }

  predicate IsTmp(o: Operand)
  {
    o.Ref? && o.v.kind.Tmp?
  }

  /** The operands irSlotReadCount looks at. */
  function SlotOperands(I: Instr): seq<Operand>
  {
    if I.op.Nop? then []
    else [I.r1, I.r2]
         + (if I.op.Br? || I.op.Ret? || I.op.StoreDeref? then [I.dst] else [])
         + (if I.op.Call? then I.args else [])
         + (if I.op.Phi? then Values(I.pairs) else [])
  }

  /** The operations whose destination counts as a use. */
  predicate ReadsDst(op: Op)
  {
    op.Br? || op.Ret? || op.Store? || op.StoreDeref? || op.RmwDeref?
  }

  /** The operands irBuildTmpUseCounts looks at. */
  function TmpOperands(I: Instr): seq<Operand>
  {
    if I.op.Nop? then []
    else [I.r1, I.r2, I.idx]
         + (if ReadsDst(I.op) then [I.dst] else [])
         + (if I.op.Call? then I.args else [])
         + (if I.op.Phi? then Values(I.pairs) else [])
  }

  function SlotReads(id: nat): Instr -> nat
  {
    (I: Instr) => CountId(SlotOperands(I), id)
  }

  function TmpUses(id: nat): Instr -> nat
  {
    (I: Instr) => CountTmp(TmpOperands(I), id)
  }

  /** irSlotReadCount */
  function ReadCount(F: Func, id: nat): nat
  {
    Sum(SlotReads(id), F)
  }

  /** The entry of irBuildTmpUseCounts for one temporary. */
  function UseCount(F: Func, id: nat): nat
  {
    Sum(TmpUses(id), F)
  }

  /** The map irBuildTmpUseCounts fills; an id without an entry counts as unused. */
  type Counts = map<nat, nat>

  function CountOf(uses: Counts, id: nat): nat
  {
    if id in uses then uses[id] else 0
  }

  function TakesAddress(id: nat): Instr -> nat
  {
    (I: Instr) => if I.op.Lea? && !I.r1.Null? && !I.r1.Const? && VarId(I.r1) == id then 1 else 0
  }

  /** irSlotHasAddressTaken */
  predicate AddressTaken(F: Func, id: nat)
  {
    Sum(TakesAddress(id), F) > 0
  }

  lemma {:induction false} CountIdFinds(os: seq<Operand>, v: Var)
    requires v in VarsOf(os)
    ensures CountId(os, v.id) > 0
    decreases |os|
  {
    var o :| o in os && o.Ref? && o.v == v;
    if os[0] != o {
      assert o in os[1..];
      CountIdFinds(os[1..], v);
    }
  }

  lemma {:induction false} CountTmpFinds(os: seq<Operand>, v: Var)
    requires v in VarsOf(os) && v.kind.Tmp?
    ensures CountTmp(os, v.id) > 0
    decreases |os|
  {
    var o :| o in os && o.Ref? && o.v == v;
    if os[0] != o {
      assert o in os[1..];
      CountTmpFinds(os[1..], v);
    }
  }

  /** The use counts miss no read of a temporary. */
  lemma UsesCoverReads(I: Instr, v: Var)
    requires v in Reads(I) && v.kind.Tmp?
    ensures TmpUses(v.id)(I) > 0
  {
    var os := TmpOperands(I);
    assert v in VarsOf(os) by { ReadsAmongTmpOperands(I, v); }
    CountTmpFinds(os, v);
  }

  lemma ReadsAmongTmpOperands(I: Instr, v: Var)
    requires v in Reads(I)
    ensures v in VarsOf(TmpOperands(I))
  {
    hide TmpOperands, VarsOf, Reads;
    if I.op.Phi? {
      assert v in PairVars(I.pairs) by { PhiReads(I); }
      PhiReadsAmong(I, v);
    } else if I.op.Call? && v in VarsOf(I.args) {
      ArgReadsAmong(I, v);
    } else {
      var o := OperandRead(I, v);
      FixedOperands(I);
      OperandVar(TmpOperands(I), o);
    }
  }

  lemma PhiReads(I: Instr)
    requires I.op.Phi?
    ensures Reads(I) == PairVars(I.pairs)
  {
  }

  lemma OperandVar(os: seq<Operand>, o: Operand)
    requires o in os && o.Ref?
    ensures o.v in VarsOf(os)
  {
  }

  /** The field an instruction reads the variable from. */
  lemma OperandRead(I: Instr, v: Var) returns (o: Operand)
    requires v in Reads(I) && !I.op.Phi? && !(I.op.Call? && v in VarsOf(I.args))
    ensures o.Ref? && o.v == v && !I.op.Nop?
    ensures o == I.r1 || o == I.r2 || o == I.idx || (ReadsDst(I.op) && o == I.dst)
  {
    hide VarsOf;
    o := if v in Vars(I.r1) then I.r1 else if v in Vars(I.r2) then I.r2 else if v in Vars(I.idx) then I.idx else I.dst;
  }

  lemma ArgReadsAmong(I: Instr, v: Var)
    requires I.op.Call? && v in VarsOf(I.args)
    ensures v in VarsOf(TmpOperands(I))
  {
    var o :| o in I.args && o.Ref? && o.v == v;
    assert o in TmpOperands(I);
  }

  lemma PhiReadsAmong(I: Instr, v: Var)
    requires I.op.Phi? && v in PairVars(I.pairs)
    ensures v in VarsOf(TmpOperands(I))
  {
    var p :| p in I.pairs && p.value.Ref? && p.value.v == v;
    assert p.value in Values(I.pairs);
    assert p.value in TmpOperands(I);
  }

  lemma FixedOperands(I: Instr)
    requires !I.op.Nop?
    ensures var os := TmpOperands(I); I.r1 in os && I.r2 in os && I.idx in os
    ensures ReadsDst(I.op) ==> I.dst in TmpOperands(I)
  {
    var os := TmpOperands(I);
    assert os[0] == I.r1 && os[1] == I.r2 && os[2] == I.idx;
    if ReadsDst(I.op) { assert os[3] == I.dst; }
  }

  /** Before fusion has run, no instruction carries an index and none is a fused read-modify-write. */
  predicate Unfused(I: Instr)
  {
    I.idx.Null? && !I.op.RmwDeref?
  }

  /** On unfused code the slot read count misses no read either. */
  lemma SlotReadsCoverReads(I: Instr, v: Var)
    requires v in Reads(I) && Unfused(I)
    ensures SlotReads(v.id)(I) > 0
  {
    var os := SlotOperands(I);
    if I.op.Phi? {
      var p :| p in I.pairs && p.value.Ref? && p.value.v == v;
      assert p.value in Values(I.pairs);
      assert p.value in os;
    } else if I.op.Call? && v in VarsOf(I.args) {
      var o :| o in I.args && o.Ref? && o.v == v;
      assert o in os;
    } else {
      assert I.r1 in os && I.r2 in os by { assert os[0] == I.r1 && os[1] == I.r2; }
      if I.op.Br? || I.op.Ret? || I.op.StoreDeref? {
        assert os[2] == I.dst;
        assert I.dst in os;
      }
    }
    assert v in VarsOf(os);
    CountIdFinds(os, v);
  }

  // ----- equivalence of functions -----

  /** Pointers reach only the exposed slots, and no computed temporary is an alloca'd buffer. */
  ghost predicate Respects(M: Machine, exposed: set<nat>, F: Func)
  {
    && (forall v: Var :: v.kind.Local? && v.id !in exposed ==> Private(M, {v}))
    && NoAllocaComputed(M, F)
  }

  ghost predicate NoAllocaComputed(M: Machine, F: Func)
  {
    forall b, i :: InFunc(F, b, i) && IsTmp(F[b][i].dst) && Produces(F[b][i].op) ==>
      F[b][i].dst.v.id !in M.allocas
  }

  /** irBuildTmpDefs: stores, branches and returns mention a destination without producing it. */
  predicate Produces(op: Op)
  {
    !(op.Nop? || op.Alloca? || op.Store? || op.StoreDeref? || op.RmwDeref? || op.Br? || op.Ret?)
  }

  predicate WellShaped(F: Func)
  {
    forall b :: 0 <= b < |F| ==> PhisFirst(F[b])
  }

  /** No machine that keeps to the exposed slots can tell the two functions apart, in any run. */
  ghost predicate Equivalent(exposed: set<nat>, F: Func, G: Func)
  {
    && (forall M: Machine :: Respects(M, exposed, F) ==> Respects(M, exposed, G))
    && (forall M: Machine, c: Config, n: nat :: Respects(M, exposed, F) ==>
          SameObs(Run(M, F, c, n), Run(M, G, c, n)))
  }

  lemma SameObsReflexive(c: Config)
    ensures SameObs(c, c)
  {
  }

  lemma SameObsTransitive(c1: Config, c2: Config, c3: Config)
    requires SameObs(c1, c2) && SameObs(c2, c3)
    ensures SameObs(c1, c3)
  {
  }

  lemma EquivalentTransitive(exposed: set<nat>, F: Func, G: Func, H: Func)
    requires Equivalent(exposed, F, G) && Equivalent(exposed, G, H)
    ensures Equivalent(exposed, F, H)
  {
    forall M: Machine, c: Config, n: nat | Respects(M, exposed, F)
      ensures SameObs(Run(M, F, c, n), Run(M, H, c, n))
    {
      SameObsTransitive(Run(M, F, c, n), Run(M, G, c, n), Run(M, H, c, n));
    }
  }

  /** Equivalence down to the state: in every run only the variables in d may differ. */
  ghost predicate EquivalentBut(exposed: set<nat>, d: Dead, F: Func, G: Func)
  {
    && (forall M: Machine :: Respects(M, exposed, F) ==> Respects(M, exposed, G))
    && (forall M: Machine, c: Config, n: nat :: Respects(M, exposed, F) ==>
          SameConfig(d, Run(M, F, c, n), Run(M, G, c, n)))
  }

  lemma ButIsEquivalent(exposed: set<nat>, d: Dead, F: Func, G: Func)
    requires EquivalentBut(exposed, d, F, G)
    ensures Equivalent(exposed, F, G)
  {
    forall M: Machine, c: Config, n: nat | Respects(M, exposed, F)
      ensures SameObs(Run(M, F, c, n), Run(M, G, c, n))
    {
      SameConfigIsSameObs(d, Run(M, F, c, n), Run(M, G, c, n));
    }
  }

  function Both(d: Dead, e: Dead): Dead
  {
    Dead(d.temps + e.temps, d.slots + e.slots)
  }

  lemma MapWider(m1: map<Var, Word>, m2: map<Var, Word>, S: set<Var>, T: set<Var>)
    requires m1 - S == m2 - S && S <= T
    ensures m1 - T == m2 - T
  {
    assert m1 - T == (m1 - S) - T && m2 - T == (m2 - S) - T;
  }

  lemma SameStateWider(d: Dead, e: Dead, s1: State, s2: State)
    requires SameState(d, s1, s2) && d.temps <= e.temps && d.slots <= e.slots
    ensures SameState(e, s1, s2)
  {
    MapWider(s1.temps, s2.temps, d.temps, e.temps);
    MapWider(s1.mem.slots, s2.mem.slots, d.slots, e.slots);
  }

  lemma SameConfigWider(d: Dead, e: Dead, c1: Config, c2: Config)
    requires SameConfig(d, c1, c2) && d.temps <= e.temps && d.slots <= e.slots
    ensures SameConfig(e, c1, c2)
  {
    hide SameState;
    var s1 := if c1.At? then c1.s else c1.out.s;
    var s2 := if c2.At? then c2.s else c2.out.s;
    SameStateWider(d, e, s1, s2);
  }

  lemma SameConfigReflexive(d: Dead, c: Config)
    ensures SameConfig(d, c, c)
  {
  }

  /** Two steps in a row differ where either did. */
  lemma SameConfigTransitive(d: Dead, e: Dead, c1: Config, c2: Config, c3: Config)
    requires SameConfig(d, c1, c2) && SameConfig(e, c2, c3)
    ensures SameConfig(Both(d, e), c1, c3)
  {
    SameConfigWider(d, Both(d, e), c1, c2);
    SameConfigWider(e, Both(d, e), c2, c3);
  }

  /** Nothing an edit leaves in place starts to produce an alloca'd temporary. */
  predicate ProducesSame(I: Instr, J: Instr)
  {
    J.op.Nop? || (Produces(J.op) == Produces(I.op) && (J.dst == I.dst || !Produces(J.op)))
  }

  lemma NoAllocaKept(M: Machine, F: Func, b: nat, j: nat, K: Instr)
    requires InFunc(F, b, j) && NoAllocaComputed(M, F) && ProducesSame(F[b][j], K)
    ensures NoAllocaComputed(M, Replace(F, b, j, K))
  {
    var G := Replace(F, b, j, K);
    forall x, y | InFunc(G, x, y) && IsTmp(G[x][y].dst) && Produces(G[x][y].op) ensures G[x][y].dst.v.id !in M.allocas {
      assert InFunc(F, x, y);
    }
  }

  /** The start of every proof that deletes writes: pruning is invisible but for what it prunes. */
  lemma PrunedIsEquivalent(exposed: set<nat>, F: Func, G: Func, d: Dead)
    requires forall M: Machine :: Respects(M, exposed, F) ==> Pruned(M, d, F, G) && Private(M, d.slots)
    ensures EquivalentBut(exposed, d, F, G) && Equivalent(exposed, F, G)
  {
    forall M: Machine | Respects(M, exposed, F) ensures Respects(M, exposed, G) {
      forall b, i | InFunc(G, b, i) && IsTmp(G[b][i].dst) && Produces(G[b][i].op)
        ensures G[b][i].dst.v.id !in M.allocas
      {
        assert CodePruned(M, d, F[b], G[b]);
        assert Kept(M, d, F[b][i], G[b][i]);
        assert InFunc(F, b, i);
      }
    }
    forall M: Machine, c: Config, n: nat | Respects(M, exposed, F)
      ensures SameConfig(d, Run(M, F, c, n), Run(M, G, c, n))
    {
      SameConfigReflexive(d, c);
      RunPruned(M, d, F, G, c, c, n);
    }
    ButIsEquivalent(exposed, d, F, G);
  }
}
