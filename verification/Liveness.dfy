/**
 Removing computations nobody reads.

 The passes that delete instructions (folding, fusion, dead store and dead code elimination) all
 rest on one simulation: if some variables are never read, then a function in which writes to those
 variables have become NOPs makes the same calls, the same stores through pointers, the same branch
 decisions and returns the same value, in every run.
 */
module Liveness {
  import opened Options
  import opened Words
  import opened Ir

  function Vars(o: Operand): set<Var>
  {
    if o.Ref? then {o.v} else {}
  }

  function VarsOf(os: seq<Operand>): set<Var>
  {
    set o | o in os && o.Ref? :: o.v
  }

  function PairVars(ps: seq<PhiPair>): set<Var>
  {
    set p | p in ps && p.value.Ref? :: p.value.v
  }

  /** The variables whose value an instruction consumes; a phi's are consumed on the incoming edge. */
  function Reads(I: Instr): set<Var>
  {
    match I.op
    case Nop => {}
    case Alloca => {}
    case Phi => PairVars(I.pairs)
    case Load => Vars(I.r1)
    case Store => Vars(I.r1)
    case LoadDeref => Vars(I.r1) + Vars(I.idx)
    case StoreDeref => Vars(I.dst) + Vars(I.r1) + Vars(I.idx)
    case RmwDeref(_) => Vars(I.dst) + Vars(I.r1) + Vars(I.idx)
    case Lea => {}
    case Arith(_) => Vars(I.r1) + Vars(I.r2)
    case ICmp(_) => Vars(I.r1) + Vars(I.r2)
    case Opaque(_) => Vars(I.r1) + Vars(I.r2)
    case Ret => Vars(I.dst)
    case Br(_, _) => Vars(I.dst)
    case CmpBr(_, _, _) => Vars(I.r1) + Vars(I.r2)
    case Jmp(_) => {}
    case Call(_) => VarsOf(I.args) + Vars(I.r2)
  }

  /** The variable an instruction assigns. */
  function Written(I: Instr): set<Var>
  {
    match I.op
    case Load => Vars(I.dst)
    case Store => Vars(I.dst)
    case LoadDeref => Vars(I.dst)
    case Lea => Vars(I.dst)
    case Arith(_) => Vars(I.dst)
    case ICmp(_) => Vars(I.dst)
    case Opaque(_) => Vars(I.dst)
    case Call(_) => Vars(I.dst)
    case Phi => Vars(I.dst)
    case _ => {}
  }

  /** The operations after which nothing is known about memory. */
  predicate KillsAll(op: Op)
  {
    op.Call? || op.StoreDeref? || op.RmwDeref?
  }

  /** The dead variables: values that live in registers or temporaries, and frame slots. */
  datatype Dead = Dead(temps: set<Var>, slots: set<Var>)
  {
    function All(): set<Var> { temps + slots }
  }

  predicate SameMem(S: set<Var>, m1: Mem, m2: Mem)
  {
    m1.heap == m2.heap && m1.slots - S == m2.slots - S
  }

  predicate SameState(d: Dead, s1: State, s2: State)
  {
    s1.log == s2.log && SameMem(d.slots, s1.mem, s2.mem) && s1.temps - d.temps == s2.temps - d.temps
  }

  /** Equal control flow, equal returned value, and states that differ only in dead variables. */
  predicate SameOutcome(d: Dead, o1: Outcome, o2: Outcome)
  {
    match (o1, o2)
    case (Next(s1), Next(s2)) => SameState(d, s1, s2)
    case (Goto(b1, s1), Goto(b2, s2)) => b1 == b2 && SameState(d, s1, s2)
    case (Return(v1, s1), Return(v2, s2)) => v1 == v2 && SameState(d, s1, s2)
    case (Trap(s1), Trap(s2)) => SameState(d, s1, s2)
    case _ => false
  }

  predicate SameConfig(d: Dead, c1: Config, c2: Config)
  {
    match (c1, c2)
    case (At(f1, b1, s1), At(f2, b2, s2)) => f1 == f2 && b1 == b2 && SameState(d, s1, s2)
    case (Finished(o1), Finished(o2)) => SameOutcome(d, o1, o2)
    case _ => false
  }

  ghost predicate SameStores(S: set<Var>, r1: Option<Mem>, r2: Option<Mem>)
  {
    match (r1, r2)
    case (Some(m1), Some(m2)) => SameMem(S, m1, m2)
    case (None, None) => true
    case _ => false
  }

  ghost predicate SameCalls(S: set<Var>, r1: Option<(Mem, Word)>, r2: Option<(Mem, Word)>)
  {
    match (r1, r2)
    case (Some(p1), Some(p2)) => p1.1 == p2.1 && SameMem(S, p1.0, p2.0)
    case (None, None) => true
    case _ => false
  }

  /** No pointer leads to these slots: neither memory accesses nor callees see their contents. */
  ghost predicate Private(M: Machine, S: set<Var>)
  {
    && (forall a: Word, m1: Mem, m2: Mem :: SameMem(S, m1, m2) ==> M.load(a, m1) == M.load(a, m2))
    && (forall a: Word, w: Word, m1: Mem, m2: Mem :: SameMem(S, m1, m2) ==>
          SameStores(S, M.store(a, w, m1), M.store(a, w, m2)))
    && (forall f: nat, t: Word, ws: seq<Word>, m1: Mem, m2: Mem :: SameMem(S, m1, m2) ==>
          SameCalls(S, M.call(f, t, ws, m1), M.call(f, t, ws, m2)))
  }

  lemma NothingIsPrivate(M: Machine)
    ensures Private(M, {})
  {
    forall m1: Mem, m2: Mem | SameMem({}, m1, m2) ensures m1 == m2 {
      assert m1.slots - {} == m1.slots && m2.slots - {} == m2.slots;
    }
  }

  lemma GetSame(M: Machine, d: Dead, s1: State, s2: State, v: Var)
    requires SameState(d, s1, s2) && v !in d.All()
    ensures Get(M, s1, v) == Get(M, s2, v)
  {
    assert v in s1.temps <==> v in s1.temps - d.temps;
    assert v in s2.temps <==> v in s2.temps - d.temps;
    assert v in s1.mem.slots <==> v in s1.mem.slots - d.slots;
    assert v in s2.mem.slots <==> v in s2.mem.slots - d.slots;
    if v in s1.temps { assert (s1.temps - d.temps)[v] == (s2.temps - d.temps)[v]; }
    if v in s1.mem.slots { assert (s1.mem.slots - d.slots)[v] == (s2.mem.slots - d.slots)[v]; }
  }

  lemma EvalSame(M: Machine, d: Dead, s1: State, s2: State, o: Operand)
    requires SameState(d, s1, s2) && Vars(o) !! d.All()
    ensures Eval(M, s1, o) == Eval(M, s2, o)
  {
    if o.Ref? {
      assert o.v in Vars(o);
      GetSame(M, d, s1, s2, o.v);
    }
  }

  lemma EvalAllSame(M: Machine, d: Dead, s1: State, s2: State, os: seq<Operand>)
    requires SameState(d, s1, s2) && VarsOf(os) !! d.All()
    ensures EvalAll(M, s1, os) == EvalAll(M, s2, os)
  {
    forall i | 0 <= i < |os| ensures EvalAll(M, s1, os)[i] == EvalAll(M, s2, os)[i] {
      assert os[i] in os;
      assert Vars(os[i]) <= VarsOf(os);
      EvalSame(M, d, s1, s2, os[i]);
    }
  }

  lemma PutSame(M: Machine, d: Dead, s1: State, s2: State, dst: Operand, width: nat, w: Word)
    requires SameState(d, s1, s2)
    ensures SameState(d, Put(M, s1, dst, width, w), Put(M, s2, dst, width, w))
  {
    if dst.Ref? {
      var x := Narrowed(M, width, w);
      UpdateSame(s1.temps, s2.temps, d.temps, dst.v, x);
      UpdateSame(s1.mem.slots, s2.mem.slots, d.slots, dst.v, x);
    }
  }

  lemma UpdateSame(m1: map<Var, Word>, m2: map<Var, Word>, S: set<Var>, v: Var, w: Word)
    requires m1 - S == m2 - S
    ensures m1[v := w] - S == m2[v := w] - S
  {
    var n1, n2 := m1[v := w] - S, m2[v := w] - S;
    forall x | x in n1 ensures x in n2 && n1[x] == n2[x] {
      if x != v { assert x in m1 - S; assert x in m2 - S; assert (m1 - S)[x] == (m2 - S)[x]; }
    }
    forall x | x in n2 ensures x in n1 {
      if x != v { assert x in m2 - S; assert x in m1 - S; }
    }
  }

  lemma WriteThroughSame(M: Machine, d: Dead, s1: State, s2: State, a: Word, w: Word)
    requires SameState(d, s1, s2) && Private(M, d.slots)
    ensures SameOutcome(d, WriteThrough(M, s1, a, w), WriteThrough(M, s2, a, w))
  {
    assert SameStores(d.slots, M.store(a, w, s1.mem), M.store(a, w, s2.mem));
  }

  /** An instruction that reads no dead variable acts alike on states that differ only there. */
  lemma StepSame(M: Machine, d: Dead, I: Instr, s1: State, s2: State)
    requires SameState(d, s1, s2) && Private(M, d.slots) && Reads(I) !! d.All()
    ensures SameOutcome(d, Step(M, I, s1), Step(M, I, s2))
  {
    var op := I.op;
    if op.Nop? || op.Alloca? || op.Phi? || op.Jmp? {
    } else if op.Load? || op.Store? {
      EvalSame(M, d, s1, s2, I.r1);
      PutSame(M, d, s1, s2, I.dst, ByteSize(I.dst), Eval(M, s1, I.r1));
      PutSame(M, d, s1, s2, I.dst, Min(ByteSize(I.dst), ByteSize(I.r1)), Eval(M, s1, I.r1));
    } else if op.LoadDeref? {
      EvalSame(M, d, s1, s2, I.r1);
      EvalSame(M, d, s1, s2, I.idx);
      match M.load(Address(M, s1, I.r1, I), s1.mem)
      case None =>
      case Some(w) => PutSame(M, d, s1, s2, I.dst, ByteSize(I.dst), w);
    } else if op.StoreDeref? || op.RmwDeref? {
      EvalSame(M, d, s1, s2, I.dst);
      EvalSame(M, d, s1, s2, I.idx);
      EvalSame(M, d, s1, s2, I.r1);
      var a := Address(M, s1, I.dst, I);
      var v := Eval(M, s1, I.r1);
      if op.StoreDeref? {
        WriteThroughSame(M, d, s1, s2, a, v);
      } else if M.load(a, s1.mem).Some? {
        var x := Alu(op.rmw, M.load(a, s1.mem).value, v);
        if x.Some? {
          WriteThroughSame(M, d, s1, s2, a, x.value);
        }
      }
    } else if op.Lea? {
      PutSame(M, d, s1, s2, I.dst, ByteSize(I.dst), if I.r1.Ref? then M.address(I.r1.v) else 0);
    } else if op.Ret? || op.Br? {
      EvalSame(M, d, s1, s2, I.dst);
    } else if op.Call? {
      StepCallSame(M, d, I, s1, s2);
    } else {
      StepValueSame(M, d, I, s1, s2);
    }
  }

  lemma StepValueSame(M: Machine, d: Dead, I: Instr, s1: State, s2: State)
    requires SameState(d, s1, s2) && Reads(I) !! d.All()
    requires I.op.Arith? || I.op.ICmp? || I.op.Opaque? || I.op.CmpBr?
    ensures SameOutcome(d, Step(M, I, s1), Step(M, I, s2))
  {
    EvalSame(M, d, s1, s2, I.r1);
    EvalSame(M, d, s1, s2, I.r2);
    var a, b := Eval(M, s1, I.r1), Eval(M, s1, I.r2);
    match I.op
    case Arith(op) =>
      if Alu(op, a, b).Some? { PutSame(M, d, s1, s2, I.dst, ByteSize(I.dst), Alu(op, a, b).value); }
    case ICmp(c) => PutSame(M, d, s1, s2, I.dst, ByteSize(I.dst), if Compare(c, a, b) then 1 else 0);
    case Opaque(code) => PutSame(M, d, s1, s2, I.dst, ByteSize(I.dst), M.compute(code, a, b));
    case CmpBr(_, _, _) =>
  }

  lemma StepCallSame(M: Machine, d: Dead, I: Instr, s1: State, s2: State)
    requires SameState(d, s1, s2) && Private(M, d.slots) && Reads(I) !! d.All() && I.op.Call?
    ensures SameOutcome(d, Step(M, I, s1), Step(M, I, s2))
  {
    EvalAllSame(M, d, s1, s2, I.args);
    EvalSame(M, d, s1, s2, I.r2);
    var args, t := EvalAll(M, s1, I.args), Eval(M, s1, I.r2);
    assert SameCalls(d.slots, M.call(I.op.callee, t, args, s1.mem), M.call(I.op.callee, t, args, s2.mem));
    var log := s1.log + [Called(I.op.callee, t, args)];
    match M.call(I.op.callee, t, args, s1.mem)
    case None =>
    case Some(p) =>
      var q := M.call(I.op.callee, t, args, s2.mem).value;
      PutSame(M, d, s1.(log := log, mem := p.0), s2.(log := log, mem := q.0), I.dst, ByteSize(I.dst), p.1);
  }

  // ----- deleting writes to dead variables -----

  /** An operation that always completes and only writes its destination. */
  predicate Pure(I: Instr)
  {
    match I.op
    case Nop => true
    case Load => true
    case Store => true
    case Lea => true
    case ICmp(_) => true
    case Opaque(_) => true
    case Arith(op) => Divides(op) ==> SafeDivision(op, I.r1, I.r2)
    case _ => false
  }

  /** A division whose constant operands show that it cannot trap. */
  predicate SafeDivision(op: BinOp, a: Operand, b: Operand)
  {
    b.Const? && b.k != 0 && (op.UDiv? || op.URem? || b.k != -1 || (a.Const? && a.k != -TWO63))
  }

  predicate WritesOnly(M: Machine, d: Dead, dst: Operand)
  {
    dst.Ref? ==> if Resident(M, dst.v) then dst.v in d.slots else dst.v in d.temps
  }

  predicate Deletable(M: Machine, d: Dead, I: Instr)
  {
    Pure(I) && (I.op.Nop? || WritesOnly(M, d, I.dst))
  }

  lemma PutDead(M: Machine, d: Dead, s: State, dst: Operand, width: nat, w: Word)
    requires WritesOnly(M, d, dst)
    ensures SameState(d, Put(M, s, dst, width, w), s)
  {
    if dst.Ref? {
      var x := Narrowed(M, width, w);
      if Resident(M, dst.v) {
        assert s.mem.slots[dst.v := x] - d.slots == s.mem.slots - d.slots;
      } else {
        assert s.temps[dst.v := x] - d.temps == s.temps - d.temps;
      }
    }
  }

  lemma DivisionCompletes(op: BinOp, a: Operand, b: Operand, M: Machine, s: State)
    requires Divides(op) && SafeDivision(op, a, b)
    ensures Alu(op, Eval(M, s, a), Eval(M, s, b)).Some?
  {
    WrapOfSigned(b.k);
    if a.Const? { WrapOfSigned(a.k); }
  }

  lemma StepDeleted(M: Machine, d: Dead, I: Instr, s: State)
    requires Deletable(M, d, I)
    ensures Step(M, I, s).Next? && SameState(d, Step(M, I, s).s, s)
  {
    match I.op
    case Nop =>
    case Load => PutDead(M, d, s, I.dst, ByteSize(I.dst), Eval(M, s, I.r1));
    case Store => PutDead(M, d, s, I.dst, Min(ByteSize(I.dst), ByteSize(I.r1)), Eval(M, s, I.r1));
    case Lea => PutDead(M, d, s, I.dst, ByteSize(I.dst), if I.r1.Ref? then M.address(I.r1.v) else 0);
    case ICmp(c) =>
      PutDead(M, d, s, I.dst, ByteSize(I.dst),
              if Compare(c, Eval(M, s, I.r1), Eval(M, s, I.r2)) then 1 else 0);
    case Opaque(code) =>
      PutDead(M, d, s, I.dst, ByteSize(I.dst), M.compute(code, Eval(M, s, I.r1), Eval(M, s, I.r2)));
    case Arith(op) =>
      if Divides(op) { DivisionCompletes(op, I.r1, I.r2, M, s); }
      PutDead(M, d, s, I.dst, ByteSize(I.dst), Alu(op, Eval(M, s, I.r1), Eval(M, s, I.r2)).value);
  }

  /** `J` is `I`, or a NOP standing for a deleted write. */
  predicate Kept(M: Machine, d: Dead, I: Instr, J: Instr)
  {
    (J == I && Reads(I) !! d.All()) || (J.op.Nop? && Deletable(M, d, I))
  }

  predicate CodePruned(M: Machine, d: Dead, c1: Code, c2: Code)
  {
    |c1| == |c2| && forall i :: 0 <= i < |c1| ==> Kept(M, d, c1[i], c2[i])
  }

  predicate Pruned(M: Machine, d: Dead, F: Func, G: Func)
  {
    |F| == |G| && forall b :: 0 <= b < |F| ==> PhisFirst(F[b]) && CodePruned(M, d, F[b], G[b])
  }

  /** Phis come before every other instruction of a block. */
  predicate PhisFirst(code: Code)
  {
    forall i, j :: 0 <= i < j < |code| && code[j].op.Phi? ==> code[i].op.Phi? || code[i].op.Nop?
  }

  lemma ExecPruned(M: Machine, d: Dead, c1: Code, c2: Code, s1: State, s2: State)
    requires CodePruned(M, d, c1, c2) && SameState(d, s1, s2) && Private(M, d.slots)
    ensures SameOutcome(d, Exec(M, c1, s1), Exec(M, c2, s2))
    decreases |c1|
  {
    if c1 != [] {
      var I, J := c1[0], c2[0];
      assert Kept(M, d, I, J);
      assert CodePruned(M, d, c1[1..], c2[1..]);
      if J == I && Reads(I) !! d.All() {
        StepSame(M, d, I, s1, s2);
        if Step(M, I, s1).Next? {
          ExecPruned(M, d, c1[1..], c2[1..], Step(M, I, s1).s, Step(M, I, s2).s);
        }
      } else {
        StepDeleted(M, d, I, s1);
        ExecPruned(M, d, c1[1..], c2[1..], Step(M, I, s1).s, s2);
      }
    }
  }

  lemma NoPhisNoMoves(code: Code, from: nat)
    requires forall i :: 0 <= i < |code| ==> !code[i].op.Phi?
    ensures PhiMoves(code, from) == []
  {
  }

  lemma KeptPhi(M: Machine, d: Dead, I: Instr, J: Instr)
    requires Kept(M, d, I, J)
    ensures I.op.Phi? ==> J == I && PairVars(I.pairs) !! d.All()
    ensures J.op.Phi? ==> J == I
  {
  }

  lemma PhiMovesPruned(M: Machine, d: Dead, c1: Code, c2: Code, from: nat)
    requires CodePruned(M, d, c1, c2) && PhisFirst(c1)
    ensures PhiMoves(c1, from) == PhiMoves(c2, from)
    ensures forall i :: 0 <= i < |PhiMoves(c1, from)| ==> Vars(PhiMoves(c1, from)[i].src) !! d.All()
    decreases |c1|
  {
    hide Deletable, Reads;
    if c1 != [] {
      assert Kept(M, d, c1[0], c2[0]);
      KeptPhi(M, d, c1[0], c2[0]);
      assert CodePruned(M, d, c1[1..], c2[1..]);
      assert PhisFirst(c1[1..]) by {
        forall i, j | 0 <= i < j < |c1[1..]| && c1[1..][j].op.Phi?
          ensures c1[1..][i].op.Phi? || c1[1..][i].op.Nop? {
          assert c1[i + 1].op.Phi? || c1[i + 1].op.Nop?;
        }
      }
      if c1[0].op.Phi? {
        PhiMovesPruned(M, d, c1[1..], c2[1..], from);
        IncomingVars(c1[0].pairs, from);
      } else if c1[0].op.Nop? {
        PhiMovesPruned(M, d, c1[1..], c2[1..], from);
      } else {
        forall i | 0 <= i < |c2[1..]| ensures !c2[1..][i].op.Phi? {
          assert Kept(M, d, c1[i + 1], c2[i + 1]);
          KeptPhi(M, d, c1[i + 1], c2[i + 1]);
        }
        NoPhisNoMoves(c2[1..], from);
      }
    }
  }

  lemma IncomingVars(pairs: seq<PhiPair>, from: nat)
    ensures Incoming(pairs, from).Some? ==> Vars(Incoming(pairs, from).value) <= PairVars(pairs)
  {
    if pairs != [] && pairs[0].block != from {
      IncomingVars(pairs[1..], from);
    }
  }

  lemma AssignAllSame(M: Machine, d: Dead, b1: State, b2: State, s1: State, s2: State, moves: seq<Move>)
    requires SameState(d, b1, b2) && SameState(d, s1, s2)
    requires forall i :: 0 <= i < |moves| ==> Vars(moves[i].src) !! d.All()
    ensures SameState(d, AssignAll(M, b1, s1, moves), AssignAll(M, b2, s2, moves))
    decreases |moves|
  {
    if moves != [] {
      EvalSame(M, d, b1, b2, moves[0].src);
      var w := Eval(M, b1, moves[0].src);
      PutSame(M, d, s1, s2, moves[0].dst, ByteSize(moves[0].dst), w);
      AssignAllSame(M, d, b1, b2, Assign(M, s1, moves[0].dst, w), Assign(M, s2, moves[0].dst, w), moves[1..]);
    }
  }

  /** From states that differ only in dead variables, the two blocks end alike. */
  ghost predicate Simulates(M: Machine, d: Dead, c1: Code, c2: Code)
  {
    && (forall from: nat :: PhiMoves(c1, from) == PhiMoves(c2, from))
    && (forall from: nat, i :: 0 <= i < |PhiMoves(c1, from)| ==> Vars(PhiMoves(c1, from)[i].src) !! d.All())
    && (forall s1: State, s2: State :: SameState(d, s1, s2) ==> SameOutcome(d, Exec(M, c1, s1), Exec(M, c2, s2)))
  }

  lemma PrunedSimulates(M: Machine, d: Dead, c1: Code, c2: Code)
    requires CodePruned(M, d, c1, c2) && PhisFirst(c1) && Private(M, d.slots)
    ensures Simulates(M, d, c1, c2)
  {
    forall from: nat ensures PhiMoves(c1, from) == PhiMoves(c2, from) {
      PhiMovesPruned(M, d, c1, c2, from);
    }
    forall from: nat, i | 0 <= i < |PhiMoves(c1, from)| ensures Vars(PhiMoves(c1, from)[i].src) !! d.All() {
      PhiMovesPruned(M, d, c1, c2, from);
    }
    forall s1: State, s2: State | SameState(d, s1, s2) ensures SameOutcome(d, Exec(M, c1, s1), Exec(M, c2, s2)) {
      ExecPruned(M, d, c1, c2, s1, s2);
    }
  }

  lemma StepBlockSimulated(M: Machine, d: Dead, F: Func, G: Func, x: Config, y: Config)
    requires |F| == |G| && SameConfig(d, x, y)
    requires forall b :: 0 <= b < |F| ==> Simulates(M, d, F[b], G[b])
    ensures SameConfig(d, StepBlock(M, F, x), StepBlock(M, G, y))
  {
    hide SameState, Exec;
    if x.At? && x.block < |F| {
      var b, moves := x.block, PhiMoves(F[x.block], x.from);
      assert Simulates(M, d, F[b], G[b]);
      AssignAllSame(M, d, x.s, y.s, x.s, y.s, moves);
      assert SameOutcome(d, Exec(M, F[b], Enter(M, F[b], x.from, x.s)), Exec(M, G[b], Enter(M, G[b], x.from, y.s)));
    }
  }

  /** Block by block simulation carries over to runs of any length. */
  lemma {:induction false} RunSimulated(M: Machine, d: Dead, F: Func, G: Func, c1: Config, c2: Config, n: nat)
    requires |F| == |G| && SameConfig(d, c1, c2)
    requires forall b :: 0 <= b < |F| ==> Simulates(M, d, F[b], G[b])
    ensures SameConfig(d, Run(M, F, c1, n), Run(M, G, c2, n))
  {
    hide Simulates, SameConfig, StepBlock;
    if n > 0 {
      RunSimulated(M, d, F, G, c1, c2, n - 1);
      StepBlockSimulated(M, d, F, G, Run(M, F, c1, n - 1), Run(M, G, c2, n - 1));
    }
  }

  /** Deleting writes to unread variables changes nothing observable, in a run of any length. */
  lemma RunPruned(M: Machine, d: Dead, F: Func, G: Func, c1: Config, c2: Config, n: nat)
    requires Pruned(M, d, F, G) && Private(M, d.slots) && SameConfig(d, c1, c2)
    ensures SameConfig(d, Run(M, F, c1, n), Run(M, G, c2, n))
  {
    hide Simulates, SameConfig, Run, Private;
    forall b | 0 <= b < |F| ensures Simulates(M, d, F[b], G[b]) {
      PrunedSimulates(M, d, F[b], G[b]);
    }
    RunSimulated(M, d, F, G, c1, c2, n);
  }
}
