/**
 Single assignment, as a certificate that can be checked block by block.

 `avail[b]` lists the temporaries that may be read when block b starts; `sup` names, for a temporary, the variables
 its value is tied to: once one of them gets a new value, or may have got one behind a pointer, the temporary is no
 longer available. `buffers` are the alloca'd temporaries, which are memory and not values, and are not tracked.
 `defs` are the temporaries whose definitions are relied on, and `addr` the variables that may become addresses;
 what they are good for is up to the pass.

 A fact is an equation `t = a op b`. If the facts about t speak of nothing but what t is tied to, and every
 assignment of t makes its fact true, then in every run an available temporary meets its fact.
 */
module Ssa {
  import opened Options
  import opened Words
  import opened Ir
  import opened Liveness
  import opened Equivalence
  import Forward

  datatype Cert = Cert(
    avail: seq<set<nat>>, sup: map<nat, set<Var>>, buffers: set<nat>, defs: set<nat>, addr: set<Var>)

  function Tmps(vs: set<Var>): set<nat>
  {
    set v | v in vs && v.kind.Tmp? :: v.id
  }

  /** The temporaries among vs whose availability is tracked. */
  function Tracked(cert: Cert, vs: set<Var>): set<nat>
  {
    Tmps(vs) - cert.buffers
  }

  function Sup(cert: Cert, t: nat): set<Var>
  {
    if t in cert.sup then cert.sup[t] else {}
  }

  /** What an operation is computed from; arrival values never change. */
  function Operands(I: Instr): set<Var>
  {
    set v | v in Vars(I.r1) + Vars(I.r2) && !v.kind.Param?
  }

  /** Ties are inherited: what u is tied to, everything tied to u is tied to. */
  predicate CertShape(cert: Cert)
  {
    forall t :: t in cert.sup ==>
      Var(Tmp, t) !in cert.sup[t] && forall u :: u in Tracked(cert, cert.sup[t]) ==> Sup(cert, u) <= cert.sup[t]
  }

  /** Whatever an available temporary is tied to is available too. */
  predicate Closed(cert: Cert, A: set<nat>)
  {
    forall t :: t in A ==> Tracked(cert, Sup(cert, t)) <= A
  }

  /** Frame slots and buffers can be reached through pointers. */
  predicate Volatile(cert: Cert, v: Var)
  {
    v.kind.Local? || (v.kind.Tmp? && v.id in cert.buffers)
  }

  /** t keeps its value and its ties when X are assigned, and, if `spill`, memory too. */
  predicate Survives(cert: Cert, t: nat, X: set<Var>, spill: bool)
  {
    Var(Tmp, t) !in X && Sup(cert, t) !! X && (spill ==> forall v :: v in Sup(cert, t) ==> !Volatile(cert, v))
  }

  function Refresh(cert: Cert, A: set<nat>, X: set<Var>, spill: bool): set<nat>
  {
    (set t | t in A && Survives(cert, t, X, spill)) + Tracked(cert, X)
  }

  /** What is available after I; a phi's assignment was made on the edge. */
  function AfterInstr(cert: Cert, A: set<nat>, I: Instr): set<nat>
  {
    if I.op.Phi? then A else Refresh(cert, A, Written(I), KillsAll(I.op))
  }

  function ReadsHere(cert: Cert, I: Instr): set<nat>
  {
    if I.op.Phi? then {} else Tracked(cert, Reads(I))
  }

  function Targets(I: Instr): set<nat>
  {
    match I.op
    case Br(t, f) => {t, f}
    case CmpBr(_, t, f) => {t, f}
    case Jmp(t) => {t}
    case _ => {}
  }

  function MoveVars(moves: seq<Move>): set<Var>
  {
    set m | m in moves && m.dst.Ref? :: m.dst.v
  }

  predicate EdgeOk(cert: Cert, F: Func, from: nat, c: nat, A: set<nat>)
    requires c < |F| && |cert.avail| == |F|
  {
    var moves := PhiMoves(F[c], from);
    && (forall m :: m in moves ==> Tracked(cert, Vars(m.src)) <= A && (m.dst.Ref? ==> !m.dst.v.kind.Param?))
    && cert.avail[c] <= Refresh(cert, A, MoveVars(moves), false)
  }

  predicate WritesOk(cert: Cert, A: set<nat>, I: Instr)
  {
    !I.op.Phi? ==>
      && (forall v :: v in Written(I) ==> !v.kind.Param?)
      && (forall t :: t in Tracked(cert, Written(I)) ==> Tracked(cert, Sup(cert, t)) <= AfterInstr(cert, A, I))
  }

  predicate CodeOk(cert: Cert, F: Func, b: nat, code: Code, A: set<nat>)
    requires |cert.avail| == |F|
    decreases |code|
  {
    code != [] ==>
      && ReadsHere(cert, code[0]) <= A && WritesOk(cert, A, code[0])
      && (forall c :: c in Targets(code[0]) && c < |F| ==> EdgeOk(cert, F, b, c, A))
      && CodeOk(cert, F, b, code[1..], AfterInstr(cert, A, code[0]))
  }

  predicate Certified(cert: Cert, F: Func)
  {
    && |cert.avail| == |F| && CertShape(cert)
    && forall b :: 0 <= b < |F| ==> Closed(cert, cert.avail[b]) && CodeOk(cert, F, b, F[b], cert.avail[b])
  }

  /** The machine's buffers are the certificate's. */
  predicate Plain(M: Machine, cert: Cert)
  {
    M.allocas <= cert.buffers
  }

  // ----- availability is kept closed -----

  lemma RefreshClosed(cert: Cert, A: set<nat>, X: set<Var>, spill: bool)
    requires CertShape(cert) && Closed(cert, A)
    requires forall t :: t in Tracked(cert, X) ==> Tracked(cert, Sup(cert, t)) <= Refresh(cert, A, X, spill)
    ensures Closed(cert, Refresh(cert, A, X, spill))
  {
    var B := Refresh(cert, A, X, spill);
    forall t, u | t in B && u in Tracked(cert, Sup(cert, t)) ensures u in B {
      if t !in Tracked(cert, X) {
        assert u in A && Sup(cert, u) <= Sup(cert, t);
        assert Var(Tmp, u) in Sup(cert, t);
      }
    }
  }

  lemma StepClosed(cert: Cert, I: Instr, A: set<nat>)
    requires CertShape(cert) && Closed(cert, A) && WritesOk(cert, A, I)
    ensures Closed(cert, AfterInstr(cert, A, I))
  {
    if !I.op.Phi? { RefreshClosed(cert, A, Written(I), KillsAll(I.op)); }
  }

  // ----- facts -----

  type Facts = map<nat, Instr>

  function ValueOf(M: Machine, s: State, I: Instr): Option<Word>
  {
    match I.op
    case Arith(op) => Alu(op, Eval(M, s, I.r1), Eval(M, s, I.r2))
    case ICmp(c) => Some(if Compare(c, Eval(M, s, I.r1), Eval(M, s, I.r2)) then 1 else 0)
    case _ => None
  }

  predicate Holds(M: Machine, s: State, I: Instr)
  {
    ValueOf(M, s, I) == Some(Eval(M, s, I.dst))
  }

  predicate FactInv(M: Machine, s: State, facts: Facts, A: set<nat>)
  {
    forall t :: t in A && t in facts ==> Holds(M, s, facts[t])
  }

  /** A fact about t speaks of t and of what t is tied to. */
  predicate Fits(cert: Cert, t: nat, I: Instr)
  {
    IsTmp(I.dst) && I.dst.v.id == t && t !in cert.buffers && Operands(I) <= Sup(cert, t)
  }

  ghost predicate FactsFit(cert: Cert, F: Func, facts: Facts)
  {
    && (forall t :: t in facts ==> Fits(cert, t, facts[t]))
    && (forall b, i :: InFunc(F, b, i) && F[b][i].op.Phi? && IsTmp(F[b][i].dst) ==> F[b][i].dst.v.id !in facts)
  }

  /** Assigning a temporary makes its fact true, given the facts about what is available. */
  ghost predicate Established(M: Machine, cert: Cert, F: Func, facts: Facts, b: nat, i: nat, A: set<nat>, s: State)
    requires InFunc(F, b, i)
  {
    var I := F[b][i];
    ReadsHere(cert, I) <= A && Closed(cert, A) && FactInv(M, s, facts, A) && !I.op.Phi? && Step(M, I, s).Next? ==>
      forall t :: t in Tracked(cert, Written(I)) && t in facts ==> Holds(M, Step(M, I, s).s, facts[t])
  }

  ghost predicate Establishes(M: Machine, cert: Cert, F: Func, facts: Facts)
  {
    forall b, i, A: set<nat>, s: State :: 0 <= b < |F| && 0 <= i < |F[b]| ==>
      Established(M, cert, F, facts, b, i, A, s)
  }

  /** A step leaves alone every value it does not assign. */
  lemma StepKeepsValue(M: Machine, I: Instr, s: State, v: Var)
    requires Step(M, I, s).Next? && v !in Written(I) && !Resident(M, v)
    ensures Get(M, Step(M, I, s).s, v) == Get(M, s, v)
  {
  }

  lemma StepKeepsVar(M: Machine, s: State, I: Instr, v: Var)
    requires Step(M, I, s).Next? && v !in Written(I) && (KillsAll(I.op) ==> !Resident(M, v))
    ensures Get(M, Step(M, I, s).s, v) == Get(M, s, v)
  {
    if KillsAll(I.op) {
      StepKeepsValue(M, I, s, v);
    } else if !I.op.Phi? {
      Forward.StepWritesOnly(M, I, s, Ref(v, 8, None, false));
    }
  }

  /** The variables a fact about t mentions, when t survives. */
  lemma FactVarKept(M: Machine, cert: Cert, A: set<nat>, I: Instr, s: State, t: nat, D: Instr, v: Var)
    requires Plain(M, cert) && WritesOk(cert, A, I) && !I.op.Phi? && Fits(cert, t, D)
    requires Survives(cert, t, Written(I), KillsAll(I.op)) && Step(M, I, s).Next?
    requires v in Vars(D.dst) + Vars(D.r1) + Vars(D.r2)
    ensures Get(M, Step(M, I, s).s, v) == Get(M, s, v)
  {
    hide Step, Written;
    if v == D.dst.v {
      assert v == Var(Tmp, t);
    } else if !v.kind.Param? {
      assert v in Operands(D);
    }
    StepKeepsVar(M, s, I, v);
  }

  lemma SurvivingFact(M: Machine, cert: Cert, A: set<nat>, I: Instr, s: State, t: nat, D: Instr)
    requires Plain(M, cert) && WritesOk(cert, A, I) && !I.op.Phi? && Fits(cert, t, D)
    requires Survives(cert, t, Written(I), KillsAll(I.op)) && Step(M, I, s).Next? && Holds(M, s, D)
    ensures Holds(M, Step(M, I, s).s, D)
  {
    hide Step, Alu, Compare, Survives, WritesOk, Fits, Plain;
    forall o: Operand | o == D.dst || o == D.r1 || o == D.r2
      ensures Eval(M, Step(M, I, s).s, o) == Eval(M, s, o)
    {
      if o.Ref? {
        assert o.v in Vars(o);
        FactVarKept(M, cert, A, I, s, t, D, o.v);
      }
    }
  }

  lemma PhiKeepsState(M: Machine, I: Instr, s: State)
    ensures I.op.Phi? ==> Step(M, I, s) == Next(s)
  {
  }

  /** The facts about available temporaries survive each instruction. */
  lemma StepKeepsFacts(M: Machine, cert: Cert, F: Func, facts: Facts, b: nat, i: nat, s: State, A: set<nat>)
    requires InFunc(F, b, i) && CertShape(cert) && Plain(M, cert) && FactsFit(cert, F, facts)
    requires Closed(cert, A) && FactInv(M, s, facts, A) && ReadsHere(cert, F[b][i]) <= A && WritesOk(cert, A, F[b][i])
    requires Established(M, cert, F, facts, b, i, A, s) && Step(M, F[b][i], s).Next?
    ensures Closed(cert, AfterInstr(cert, A, F[b][i]))
    ensures FactInv(M, Step(M, F[b][i], s).s, facts, AfterInstr(cert, A, F[b][i]))
  {
    hide Step, Holds, Plain, Reads, Written, CertShape, WritesOk, Closed, Fits;
    var I := F[b][i];
    StepClosed(cert, I, A);
    if I.op.Phi? {
      PhiKeepsState(M, I, s);
    } else {
      forall t | t in AfterInstr(cert, A, I) && t in facts ensures Holds(M, Step(M, I, s).s, facts[t]) {
        if t !in Tracked(cert, Written(I)) { SurvivingFact(M, cert, A, I, s, t, facts[t]); }
      }
    }
  }

  // ----- over edges and whole runs -----

  lemma {:induction false} AssignAllKeeps(M: Machine, before: State, s: State, moves: seq<Move>, v: Var)
    requires forall m :: m in moves ==> v !in Vars(m.dst)
    ensures Get(M, AssignAll(M, before, s, moves), v) == Get(M, s, v)
    decreases |moves|
  {
    if moves != [] {
      var w := Eval(M, before, moves[0].src);
      assert v !in Vars(moves[0].dst);
      Forward.EvalAfterPut(M, s, moves[0].dst, ByteSize(moves[0].dst), w, Ref(v, 8, None, false));
      AssignAllKeeps(M, before, Assign(M, s, moves[0].dst, w), moves[1..], v);
    }
  }

  lemma {:induction false} MovesOfPhis(code: Code, from: nat, m: Move) returns (i: nat)
    requires m in PhiMoves(code, from)
    ensures i < |code| && code[i].op.Phi? && code[i].dst == m.dst
    decreases |code|
  {
    if m in PhiMoves(code[1..], from) && (code[0].op.Nop? || code[0].op.Phi?) {
      i := MovesOfPhis(code[1..], from, m);
      i := i + 1;
    } else {
      i := 0;
    }
  }

  lemma NoFactMoved(cert: Cert, F: Func, facts: Facts, from: nat, c: nat, m: Move)
    requires c < |F| && FactsFit(cert, F, facts) && m in PhiMoves(F[c], from) && IsTmp(m.dst)
    ensures m.dst.v.id !in facts
  {
    var i := MovesOfPhis(F[c], from, m);
    assert InFunc(F, c, i);
  }

  lemma NotMoved(cert: Cert, F: Func, facts: Facts, from: nat, c: nat, A: set<nat>, t: nat, v: Var)
    requires c < |F| && |cert.avail| == |F| && EdgeOk(cert, F, from, c, A) && FactsFit(cert, F, facts)
    requires t in cert.avail[c] && t in facts && v in Vars(facts[t].dst) + Vars(facts[t].r1) + Vars(facts[t].r2)
    ensures t in A && forall m :: m in PhiMoves(F[c], from) ==> v !in Vars(m.dst)
  {
    var moves, D := PhiMoves(F[c], from), facts[t];
    assert Fits(cert, t, D);
    hide PhiMoves;
    forall m | m in moves && IsTmp(m.dst) ensures m.dst.v.id !in facts {
      NoFactMoved(cert, F, facts, from, c, m);
    }
    assert Survives(cert, t, MoveVars(moves), false);
    forall m | m in moves ensures v !in Vars(m.dst) {
      if !v.kind.Param? && v != D.dst.v { assert v in Operands(D); }
      assert m.dst.Ref? ==> m.dst.v in MoveVars(moves);
    }
  }

  lemma EnterKeepsFacts(M: Machine, cert: Cert, F: Func, facts: Facts, from: nat, c: nat, A: set<nat>, s: State)
    requires c < |F| && |cert.avail| == |F| && EdgeOk(cert, F, from, c, A) && FactsFit(cert, F, facts)
    requires FactInv(M, s, facts, A)
    ensures FactInv(M, Enter(M, F[c], from, s), facts, cert.avail[c])
  {
    hide FactsFit, EdgeOk, Alu, Compare;
    var moves := PhiMoves(F[c], from);
    forall t | t in cert.avail[c] && t in facts ensures Holds(M, Enter(M, F[c], from, s), facts[t]) {
      var D := facts[t];
      forall o: Operand | o == D.dst || o == D.r1 || o == D.r2
        ensures Eval(M, AssignAll(M, s, s, moves), o) == Eval(M, s, o)
      {
        if o.Ref? {
          assert o.v in Vars(o);
          NotMoved(cert, F, facts, from, c, A, t, o.v);
          AssignAllKeeps(M, s, s, moves, o.v);
        }
      }
      assert t in A by { StaysFromEdge(cert, F, facts, from, c, A, t); }
    }
  }

  lemma StaysFromEdge(cert: Cert, F: Func, facts: Facts, from: nat, c: nat, A: set<nat>, t: nat)
    requires c < |F| && |cert.avail| == |F| && EdgeOk(cert, F, from, c, A) && FactsFit(cert, F, facts)
    requires t in cert.avail[c] && t in facts
    ensures t in A
  {
    assert Fits(cert, t, facts[t]);
    assert facts[t].dst.v in Vars(facts[t].dst);
    NotMoved(cert, F, facts, from, c, A, t, facts[t].dst.v);
  }

  /** The invariant of runs: at the start of a block some set of temporaries is available and meets the facts. */
  ghost predicate ConfigOk(M: Machine, cert: Cert, F: Func, facts: Facts, c: Config)
    requires |cert.avail| == |F|
  {
    c.At? && c.block < |F| ==>
      exists A: set<nat> :: Closed(cert, A) && EdgeOk(cert, F, c.from, c.block, A) && FactInv(M, c.s, facts, A)
  }

  /** A fact base that runs of F keep up. */
  ghost predicate Sustained(M: Machine, cert: Cert, F: Func, facts: Facts)
  {
    Certified(cert, F) && Plain(M, cert) && FactsFit(cert, F, facts) && Establishes(M, cert, F, facts)
  }

  lemma GotoTargets(M: Machine, I: Instr, s: State)
    ensures Step(M, I, s).Goto? ==> Step(M, I, s).block in Targets(I) && Step(M, I, s).s == s
  {
  }

  lemma {:induction false} ExecKeepsFacts(M: Machine, cert: Cert, F: Func, facts: Facts, b: nat, i: nat,
                                          A: set<nat>, s: State)
    requires Sustained(M, cert, F, facts) && b < |F| && i <= |F[b]|
    requires CodeOk(cert, F, b, F[b][i..], A) && Closed(cert, A) && FactInv(M, s, facts, A)
    ensures var o := Exec(M, F[b][i..], s); o.Goto? ==> ConfigOk(M, cert, F, facts, At(b, o.block, o.s))
    decreases |F[b]| - i
  {
    hide Step, CertShape, FactsFit, Established, Closed, EdgeOk, FactInv, WritesOk, ReadsHere, Plain, AfterInstr;
    var code := F[b][i..];
    if i < |F[b]| {
      var I := F[b][i];
      assert code[0] == I && code[1..] == F[b][i + 1..] && InFunc(F, b, i);
      var o := Step(M, I, s);
      if o.Next? {
        assert Established(M, cert, F, facts, b, i, A, s);
        StepKeepsFacts(M, cert, F, facts, b, i, s, A);
        ExecKeepsFacts(M, cert, F, facts, b, i + 1, AfterInstr(cert, A, I), o.s);
      } else if o.Goto? {
        GotoTargets(M, I, s);
        if o.block < |F| { assert EdgeOk(cert, F, b, o.block, A); }
      }
    }
  }

  lemma StepBlockKeepsFacts(M: Machine, cert: Cert, F: Func, facts: Facts, c: Config)
    requires Sustained(M, cert, F, facts) && ConfigOk(M, cert, F, facts, c)
    ensures ConfigOk(M, cert, F, facts, StepBlock(M, F, c))
  {
    hide Closed, EdgeOk, FactInv, CodeOk, FactsFit, Establishes, CertShape;
    if c.At? && c.block < |F| {
      var b := c.block;
      var A :| Closed(cert, A) && EdgeOk(cert, F, c.from, b, A) && FactInv(M, c.s, facts, A);
      EnterKeepsFacts(M, cert, F, facts, c.from, b, A, c.s);
      assert F[b][0..] == F[b];
      ExecKeepsFacts(M, cert, F, facts, b, 0, cert.avail[b], Enter(M, F[b], c.from, c.s));
    }
  }

  /** A run begins in the entry block, which has no phis and relies on no temporary. */
  predicate Initial(cert: Cert, F: Func, c: Config)
  {
    |F| > 0 && |cert.avail| == |F| && c.At? && c.block == 0 && PhiMoves(F[0], c.from) == [] && cert.avail[0] == {}
  }

  lemma StartOk(M: Machine, cert: Cert, F: Func, facts: Facts, c: Config)
    requires Certified(cert, F) && Initial(cert, F, c)
    ensures ConfigOk(M, cert, F, facts, c)
  {
    assert EdgeOk(cert, F, c.from, 0, {});
    assert Closed(cert, {}) && FactInv(M, c.s, facts, {});
  }

  lemma SustainedCertified(M: Machine, cert: Cert, F: Func, facts: Facts)
    requires Sustained(M, cert, F, facts)
    ensures Certified(cert, F) && |cert.avail| == |F|
  {
  }

  /** Single assignment pays off: in every run, an available temporary meets its fact. */
  lemma {:induction false} RunKeepsFacts(M: Machine, cert: Cert, F: Func, facts: Facts, c: Config, n: nat)
    requires Sustained(M, cert, F, facts) && Initial(cert, F, c)
    ensures |cert.avail| == |F| && ConfigOk(M, cert, F, facts, Run(M, F, c, n))
  {
    hide ConfigOk, StepBlock, Sustained, Certified;
    assert Certified(cert, F) && |cert.avail| == |F| by { SustainedCertified(M, cert, F, facts); }
    if n == 0 {
      StartOk(M, cert, F, facts, c);
    } else {
      RunKeepsFacts(M, cert, F, facts, c, n - 1);
      StepBlockKeepsFacts(M, cert, F, facts, Run(M, F, c, n - 1));
    }
  }
}
