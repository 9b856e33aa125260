/**
 When fusion is right: one condition on the function, which every rewrite keeps.

 A relied-on temporary still equals its defining expression wherever it is read, so a memory operation that
 reads the temporary may read the expression's operands instead, however far away the definition is. The
 rewrite moves reads only to operands the temporary is tied to, and a temporary nobody reads any more can be
 struck from the certificate: the function the rewrite leaves behind meets the same condition.

 Only what may become an address is concerned. Its operands may be frame slots, as long as the address is used
 before the slot is assigned.
 */
module FusionSafe {
  import opened Ir
  import opened Liveness
  import opened Equivalence
  import opened DeadCode
  import opened Forward
  import opened Ssa
  import opened CertEdit
  import opened Fuse

  predicate WordOperand(o: Operand)
  {
    IsTmp(o) ==> o.size >= 8
  }

  predicate AddsWords(I: Instr)
  {
    (I.op == Arith(IAdd) || I.op == Arith(ISub)) && IsTmp(I.dst) && I.dst.size == 8 && !I.r1.Null? && !I.r2.Null?
  }

  predicate ScalesWord(I: Instr)
  {
    (I.op == Arith(Shl) || I.op == Arith(IMul)) && IsTmp(I.dst) && I.dst.size >= 8
  }

  /** A relied-on temporary is assigned by word arithmetic on what it is tied to. */
  predicate Relies(cert: Cert, I: Instr)
  {
    IsTmp(I.dst) && I.dst.v.id in cert.defs && I.dst.v in Written(I) ==>
      && I.op.Arith? && I.dst.size >= 8 && I.dst.v.id !in cert.buffers
      && Operands(I) <= Sup(cert, I.dst.v.id)
  }

  /** What memory operations use as addresses, and what that is computed from, is in `addr`; sums and multiples among
      it are relied on. */
  predicate Addressed(cert: Cert, I: Instr)
  {
    && (MemOp(I.op) ==> forall v :: v in Vars(BaseOf(I)) && !v.kind.Param? ==> v in cert.addr)
    && (I.op.Arith? && IsTmp(I.dst) && I.dst.v in cert.addr ==> Operands(I) <= cert.addr)
    && (AddsWords(I) && I.dst.v in cert.addr ==> I.dst.v.id in cert.defs && WordOperand(I.r1) && WordOperand(I.r2))
    && (ScalesWord(I) && I.dst.v in cert.addr ==> I.dst.v.id in cert.defs)
  }

  ghost predicate AllAddressed(cert: Cert, F: Func)
  {
    forall b, i :: InFunc(F, b, i) ==> Relies(cert, F[b][i]) && Addressed(cert, F[b][i])
  }

  ghost predicate DefAt(cert: Cert, F: Func, t: nat, b: nat, i: nat)
  {
    && InFunc(F, b, i) && IsTmp(F[b][i].dst) && F[b][i].dst.v.id == t
    && F[b][i].dst.v in Written(F[b][i]) && t in cert.defs
  }

  /** Whatever assigns a relied-on temporary is the same instruction. */
  ghost predicate OneDef(cert: Cert, F: Func)
  {
    forall t: nat, b: nat, i: nat, x: nat, y: nat :: DefAt(cert, F, t, b, i) && DefAt(cert, F, t, x, y) ==>
      F[b][i] == F[x][y]
  }

  predicate StoresResult(B: Instr, S: Instr)
  {
    S.op.StoreDeref? && B.op.Arith? && RmwSupported(B.op.bin) && IsTmp(B.dst) && B.dst == S.r1
  }

  /** What is computed in order to be stored through a pointer is a word, computed from words. */
  ghost predicate WordUpdates(F: Func)
  {
    forall b, m, n :: InFunc(F, b, m) && InFunc(F, b, n) && StoresResult(F[b][m], F[b][n]) ==>
      F[b][m].dst.size >= 8 && WordOperand(F[b][m].r1) && WordOperand(F[b][m].r2)
  }

  /** The condition on the function. */
  ghost predicate Fusible(cert: Cert, F: Func)
  {
    WellShaped(F) && Certified(cert, F) && AllAddressed(cert, F) && OneDef(cert, F) && WordUpdates(F)
  }

  /** What the machine and the start have to do with it: buffers are not computed, the run begins at the entry. */
  ghost predicate Starts(M: Machine, cert: Cert, F: Func, c: Config)
  {
    Plain(M, cert) && NoAllocaComputed(M, F) && Initial(cert, F, c)
  }

  // ----- the definitions as facts -----

  ghost function Definitions(cert: Cert, F: Func): Facts
  {
    map t | t in cert.defs && (exists b: nat, i: nat :: DefAt(cert, F, t, b, i)) ::
      (var b: nat, i: nat :| DefAt(cert, F, t, b, i); F[b][i])
  }

  lemma DefinitionIs(cert: Cert, F: Func, t: nat, b: nat, i: nat)
    requires OneDef(cert, F) && DefAt(cert, F, t, b, i)
    ensures t in Definitions(cert, F) && Definitions(cert, F)[t] == F[b][i]
  {
  }

  lemma DefinitionPlace(cert: Cert, F: Func, t: nat) returns (b: nat, i: nat)
    requires OneDef(cert, F) && t in Definitions(cert, F)
    ensures DefAt(cert, F, t, b, i) && Definitions(cert, F)[t] == F[b][i]
  {
    b, i :| DefAt(cert, F, t, b, i);
    DefinitionIs(cert, F, t, b, i);
  }

  lemma ReliedDefines(cert: Cert, I: Instr)
    requires CertShape(cert) && Relies(cert, I) && IsTmp(I.dst) && I.dst.v.id in cert.defs && I.dst.v in Written(I)
    ensures Fits(cert, I.dst.v.id, I) && Defining(I)
  {
    var t := I.dst.v.id;
    assert I.dst.v == Var(Tmp, t);
    assert Var(Tmp, t) !in Sup(cert, t);
    forall v | v in Vars(I.r1) + Vars(I.r2) ensures v != I.dst.v {
      if !v.kind.Param? { assert v in Operands(I); }
    }
  }

  lemma DefinitionsFit(cert: Cert, F: Func)
    requires Fusible(cert, F)
    ensures FactsFit(cert, F, Definitions(cert, F))
  {
    hide CodeOk, PhisFirst, WordUpdates, Addressed, Relies, OneDef, Definitions;
    var facts := Definitions(cert, F);
    forall t | t in facts ensures Fits(cert, t, facts[t]) {
      var b, i := DefinitionPlace(cert, F, t);
      ReliedDefines(cert, F[b][i]);
    }
    forall b, i | InFunc(F, b, i) && F[b][i].op.Phi? && IsTmp(F[b][i].dst) ensures F[b][i].dst.v.id !in facts {
      assert Relies(cert, F[b][i]);
      PhiNotRelied(cert, F[b][i]);
      DefinedKeys(cert, F);
    }
  }

  lemma DefinedKeys(cert: Cert, F: Func)
    ensures Definitions(cert, F).Keys <= cert.defs
  {
  }

  lemma PhiNotRelied(cert: Cert, I: Instr)
    requires Relies(cert, I) && I.op.Phi? && IsTmp(I.dst)
    ensures I.dst.v.id !in cert.defs
  {
  }

  lemma WrittenIsDst(I: Instr, t: nat)
    requires t in Tmps(Written(I))
    ensures IsTmp(I.dst) && I.dst.v.id == t && I.dst.v in Written(I)
  {
  }

  lemma DefinitionsSustained(M: Machine, cert: Cert, F: Func)
    requires Fusible(cert, F) && Plain(M, cert)
    ensures Sustained(M, cert, F, Definitions(cert, F))
  {
    DefinitionsFit(cert, F);
    hide CodeOk, PhisFirst, WordUpdates, Addressed, Relies, OneDef, Definitions, Written, Step, Holds, Reads, Defining;
    var facts := Definitions(cert, F);
    forall b, i, A: set<nat>, s: State | 0 <= b < |F| && 0 <= i < |F[b]|
      ensures Established(M, cert, F, facts, b, i, A, s)
    {
      var I := F[b][i];
      if Step(M, I, s).Next? {
        forall t | t in Tracked(cert, Written(I)) && t in facts ensures Holds(M, Step(M, I, s).s, facts[t]) {
          DefinedKeys(cert, F);
          WrittenIsDst(I, t);
          assert InFunc(F, b, i);
          DefinitionIs(cert, F, t, b, i);
          ReliedDefines(cert, I);
          StepMakesFact(M, s, I);
        }
      }
    }
  }

  // ----- the two edits keep the condition -----

  /** Replacing one memory operation by another that stores the same value or none. */
  predicate Rebases(J: Instr, K: Instr)
  {
    && MemOp(J.op) && MemOp(K.op) && ProducesSame(J, K) && (J.op.LoadDeref? <==> K.op.LoadDeref?)
    && (K.op.StoreDeref? ==> J.op.StoreDeref? && K.r1 == J.r1)
  }

  lemma RebasedEffect(J: Instr, K: Instr)
    requires Rebases(J, K)
    ensures SameEffect(J, K)
  {
  }

  lemma RebasedRelies(cert: Cert, J: Instr, K: Instr)
    requires Rebases(J, K) && Relies(cert, J)
    ensures Relies(cert, K)
  {
  }

  lemma ReplaceKeeps(M: Machine, cert: Cert, F: Func, b: nat, j: nat, K: Instr, c: Config)
    requires Fusible(cert, F) && Starts(M, cert, F, c)
    requires InFunc(F, b, j) && Rebases(F[b][j], K) && Addressed(cert, K) && Certified(cert, Replace(F, b, j, K))
    ensures Fusible(cert, Replace(F, b, j, K)) && Starts(M, cert, Replace(F, b, j, K), c)
    ensures SameMoves(F, Replace(F, b, j, K))
  {
    hide Certified, PhisFirst, Plain, NoAllocaComputed, Addressed, Relies;
    var G := Replace(F, b, j, K);
    ShapeKept(F, b, j, K);
    ReplaceSameMoves(F, b, j, K);
    NoAllocaKept(M, F, b, j, K);
    forall x, y | InFunc(G, x, y) ensures Relies(cert, G[x][y]) && Addressed(cert, G[x][y]) {
      assert InFunc(F, x, y);
      if x == b && y == j { RebasedRelies(cert, F[b][j], K); }
    }
    assert OneDef(cert, G) by { OneDefKept(cert, cert, F, b, j, K); }
    forall x, m, n | InFunc(G, x, m) && InFunc(G, x, n) && StoresResult(G[x][m], G[x][n])
      ensures G[x][m].dst.size >= 8 && WordOperand(G[x][m].r1) && WordOperand(G[x][m].r2)
    {
      assert InFunc(F, x, m) && InFunc(F, x, n) && StoresResult(F[x][m], F[x][n]);
    }
  }

  /** An edit that assigns no relied-on temporary leaves each with one definition. */
  lemma OneDefKept(cert: Cert, less: Cert, F: Func, b: nat, j: nat, K: Instr)
    requires OneDef(cert, F) && AllAddressed(cert, F) && InFunc(F, b, j) && less.defs == cert.defs
    requires K.op.Nop? || Rebases(F[b][j], K)
    ensures OneDef(less, Replace(F, b, j, K))
  {
    hide Addressed;
    var G := Replace(F, b, j, K);
    forall t: nat, x: nat, y: nat | DefAt(less, G, t, x, y) ensures DefAt(cert, F, t, x, y) && G[x][y] == F[x][y] {
      assert InFunc(F, x, y) && Relies(cert, F[x][y]);
    }
  }

  lemma UnusedIsUnmentioned(F: Func, t: nat)
    requires UseCount(F, t) == 0
    ensures Unmentioned(F, {t})
  {
    forall b | 0 <= b < |F| ensures Unread(F[b], Var(Tmp, t)) {
      forall i | 0 <= i < |F[b]| ensures Var(Tmp, t) !in Reads(F[b][i]) {
        UnusedTmp(F, Var(Tmp, t), b, i);
      }
    }
  }

  lemma DropKeeps(M: Machine, cert: Cert, F: Func, b: nat, i: nat, c: Config)
    requires Fusible(cert, F) && Starts(M, cert, F, c) && InFunc(F, b, i) && IsTmp(F[b][i].dst)
    requires F[b][i].op.Arith? || F[b][i].op.LoadDeref?
    requires UseCount(F, F[b][i].dst.v.id) == 0
    ensures var G, less := Replace(F, b, i, NopInstr()), Without(cert, {F[b][i].dst.v.id});
            Fusible(less, G) && Starts(M, less, G, c)
  {
    hide Certified, PhisFirst, NoAllocaComputed, Unmentioned, UseCount, Addressed, Relies, OneDef;
    var t := F[b][i].dst.v.id;
    var G, less := Replace(F, b, i, NopInstr()), Without(cert, {t});
    UnusedIsUnmentioned(F, t);
    ShapeKept(F, b, i, NopInstr());
    assert Tracked(cert, Written(F[b][i])) <= {t} by { assert Written(F[b][i]) == {Var(Tmp, t)}; }
    DropKeepsCert(cert, t, F, b, i);
    NoAllocaKept(M, F, b, i, NopInstr());
    forall x, y | InFunc(G, x, y) ensures Relies(less, G[x][y]) && Addressed(less, G[x][y]) {
      AddressedWithout(cert, F, x, y, t);
      NopAddressed(less);
    }
    OneDefKept(cert, less, F, b, i, NopInstr());
    forall x, m, n | InFunc(G, x, m) && InFunc(G, x, n) && StoresResult(G[x][m], G[x][n])
      ensures G[x][m].dst.size >= 8 && WordOperand(G[x][m].r1) && WordOperand(G[x][m].r2)
    {
      assert InFunc(F, x, m) && InFunc(F, x, n) && StoresResult(F[x][m], F[x][n]);
    }
  }

  lemma NopAddressed(cert: Cert)
    ensures Relies(cert, NopInstr()) && Addressed(cert, NopInstr())
  {
  }

  lemma AddressedWithout(cert: Cert, F: Func, b: nat, i: nat, t: nat)
    requires InFunc(F, b, i) && Relies(cert, F[b][i]) && Addressed(cert, F[b][i]) && Unmentioned(F, {t})
    ensures Relies(Without(cert, {t}), F[b][i]) && Addressed(Without(cert, {t}), F[b][i])
  {
    hide Addressed, Reads;
    var I, less := F[b][i], Without(cert, {t});
    assert NoneRead(F[b], {t}) && Unread(F[b], Var(Tmp, t));
    assert Var(Tmp, t) !in Reads(I);
    SameAddresses(cert, less, I);
    ReliesUnlinked(cert, less, I, t);
  }

  lemma SameAddresses(cert: Cert, less: Cert, I: Instr)
    requires Addressed(cert, I) && less.addr == cert.addr && less.defs == cert.defs
    ensures Addressed(less, I)
  {
  }

  lemma ReliesUnlinked(cert: Cert, less: Cert, I: Instr, t: nat)
    requires Relies(cert, I) && less.defs == cert.defs && less.buffers == cert.buffers
    requires less == Without(cert, {t}) || less == Unlinked(cert, {t})
    requires I.op.Arith? ==> Var(Tmp, t) !in Reads(I)
    ensures Relies(less, I)
  {
    if I.op.Arith? && IsTmp(I.dst) {
      UnlinkedSup(cert, {t}, I.dst.v.id);
      assert Operands(I) <= Reads(I);
    }
  }

  // ----- the consumer may read the operands instead -----

  lemma MemOpReads(cert: Cert, J: Instr)
    requires MemOp(J.op)
    ensures ReadsHere(cert, J) ==
              Tracked(cert, Vars(BaseOf(J)) + Vars(J.idx) + (if J.op.LoadDeref? then {} else Vars(J.r1)))
    ensures Targets(J) == {} && Written(J) == (if J.op.LoadDeref? then Vars(J.dst) else {})
  {
  }

  lemma BaseIsRead(cert: Cert, J: Instr, t: nat)
    requires MemOp(J.op) && IsTmp(BaseOf(J)) && BaseOf(J).v.id == t && t !in cert.buffers
    ensures t in ReadsHere(cert, J)
  {
    MemOpReads(cert, J);
    assert BaseOf(J).v in Vars(BaseOf(J));
  }

  /** What the operands of a relied-on definition contribute to the reads. */
  function OperandTmps(cert: Cert, I: Instr): set<nat>
  {
    Tracked(cert, Operands(I))
  }

  lemma OperandsAvailable(cert: Cert, A: set<nat>, I: Instr)
    requires Closed(cert, A) && Relies(cert, I) && I.op.Arith? && IsTmp(I.dst) && I.dst.v.id in cert.defs
    requires I.dst.v.id in A
    ensures OperandTmps(cert, I) <= A
  {
    assert Operands(I) <= Sup(cert, I.dst.v.id);
    assert Tracked(cert, Sup(cert, I.dst.v.id)) <= A;
  }

  lemma OneOperand(cert: Cert, I: Instr, o: Operand)
    requires o == I.r1 || o == I.r2
    ensures Tracked(cert, Vars(o)) <= OperandTmps(cert, I)
    ensures forall v :: v in Vars(o) && !v.kind.Param? ==> v in Operands(I)
  {
  }

  // ----- displacement -----

  /** The address is relied on, and the consumer's new base is an address too. */
  lemma DispCovered(cert: Cert, F: Func, b: nat, i: nat)
    requires AllAddressed(cert, F) && Candidate(F, b, i)
    ensures var I := F[b][i];
            I.dst.v.id in cert.defs && I.dst.v in cert.addr && Relies(cert, I) && Operands(I) <= cert.addr
            && WordOperand(I.r1) && WordOperand(I.r2) && I.dst.v.id !in cert.buffers
  {
    hide FindMemConsumer, UseCount;
    var I, j := F[b][i], Consumer(F, b, i);
    assert InFunc(F, b, i) && InFunc(F, b, j) && AddsWords(I);
    assert Addressed(cert, F[b][j]) && Addressed(cert, I) && Relies(cert, I);
    assert I.dst.v in Vars(BaseOf(F[b][j]));
  }

  lemma FusedAddressed(cert: Cert, J: Instr, K: Instr, I: Instr, base: Operand)
    requires Rebases(J, K) && BaseOf(K) == base && (base == I.r1 || base == I.r2) && Operands(I) <= cert.addr
    ensures Addressed(cert, K)
  {
    OneOperand(cert, I, base);
  }

  lemma DispRebases(p: Pool, F: Func, b: nat, i: nat)
    requires DispFold(p, F, b, i)
    ensures var I, K := F[b][i], DispFused(F, b, i);
            && Rebases(F[b][Consumer(F, b, i)], K) && BaseOf(K) == DispOf(I).value.0
            && (DispOf(I).value.0 == I.r1 || DispOf(I).value.0 == I.r2)
  {
    hide FindMemConsumer, RegisterAtRisk, UseCount;
  }

  lemma DispReads(p: Pool, cert: Cert, F: Func, b: nat, i: nat)
    requires DispFold(p, F, b, i) && F[b][i].dst.v.id !in cert.buffers
    ensures var J, K := F[b][Consumer(F, b, i)], DispFused(F, b, i);
            && F[b][i].dst.v.id in ReadsHere(cert, J)
            && ReadsHere(cert, K) <= ReadsHere(cert, J) + OperandTmps(cert, F[b][i])
  {
    DispRebases(p, F, b, i);
    hide FindMemConsumer, RegisterAtRisk, UseCount, ReadsHere, Reads;
    var I, J, K := F[b][i], F[b][Consumer(F, b, i)], DispFused(F, b, i);
    BaseIsRead(cert, J, I.dst.v.id);
    MemOpReads(cert, J);
    MemOpReads(cert, K);
    OneOperand(cert, I, DispOf(I).value.0);
  }

  lemma DispAdmitted(p: Pool, cert: Cert, F: Func, b: nat, i: nat)
    requires DispFold(p, F, b, i) && AllAddressed(cert, F)
    ensures var J, K := F[b][Consumer(F, b, i)], DispFused(F, b, i);
            Admits(cert, J, K) && Rebases(J, K) && Addressed(cert, K)
  {
    DispCovered(cert, F, b, i);
    DispRebases(p, F, b, i);
    DispReads(p, cert, F, b, i);
    hide FindMemConsumer, RegisterAtRisk, UseCount, ReadsHere, Reads, Relies, AllAddressed, Addressed, Rebases;
    hide OperandTmps;
    hide Written, Closed, DispFused;
    var I, J, K := F[b][i], F[b][Consumer(F, b, i)], DispFused(F, b, i);
    RebasedEffect(J, K);
    FusedAddressed(cert, J, K, I, DispOf(I).value.0);
    forall A: set<nat> | Closed(cert, A) && ReadsHere(cert, J) <= A ensures ReadsHere(cert, K) <= A {
      OperandsAvailable(cert, A, I);
    }
  }

  lemma DispAgrees(M: Machine, p: Pool, cert: Cert, F: Func, b: nat, i: nat)
    requires DispFold(p, F, b, i) && AllAddressed(cert, F) && OneDef(cert, F)
    ensures Agree(M, cert, Definitions(cert, F), F[b][Consumer(F, b, i)], DispFused(F, b, i))
  {
    DispCovered(cert, F, b, i);
    DispReads(p, cert, F, b, i);
    assert DefAt(cert, F, F[b][i].dst.v.id, b, i);
    DefinitionIs(cert, F, F[b][i].dst.v.id, b, i);
    hide FindMemConsumer, RegisterAtRisk, UseCount, ReadsHere, Reads, AllAddressed, Step, Holds, Closed, OneDef;
    hide Definitions;
    var I, J, K := F[b][i], F[b][Consumer(F, b, i)], DispFused(F, b, i);
    forall s: State, A: set<nat>
      | ReadsHere(cert, J) <= A && Closed(cert, A) && FactInv(M, s, Definitions(cert, F), A)
      ensures Step(M, J, s) == Step(M, K, s)
    {
      assert I.dst.v.id in A && Holds(M, s, I);
      DispFusedStep(M, F, b, i, s);
    }
  }

  lemma RelyDefines(cert: Cert, F: Func, b: nat, i: nat)
    requires Fusible(cert, F) && InFunc(F, b, i) && F[b][i].op.Arith? && IsTmp(F[b][i].dst)
    requires F[b][i].dst.v.id in cert.defs
    ensures Defining(F[b][i])
  {
    hide CodeOk, PhisFirst, WordUpdates, Addressed, OneDef;
    assert Relies(cert, F[b][i]);
    ReliedDefines(cert, F[b][i]);
  }

  /** The displacement fold keeps the condition and changes no run from the entry but for its temporary. */
  lemma FoldDispPreservesRuns(M: Machine, p: Pool, cert: Cert, F: Func, b: nat, i: nat, c: Config)
    requires Fusible(cert, F) && Starts(M, cert, F, c) && DispFold(p, F, b, i)
    ensures var G, less := FoldDisp(F, b, i), Without(cert, {F[b][i].dst.v.id});
            Fusible(less, G) && Starts(M, less, G, c)
    ensures forall n: nat :: SameConfig(Dead({F[b][i].dst.v}, {}), Run(M, F, c, n), Run(M, FoldDisp(F, b, i), c, n))
  {
    DispCovered(cert, F, b, i);
    DispAdmitted(p, cert, F, b, i);
    DispAgrees(M, p, cert, F, b, i);
    DefinitionsSustained(M, cert, F);
    RelyDefines(cert, F, b, i);
    hide FindMemConsumer, RegisterAtRisk, Admits, Agree, Run, SameConfig, UseCount, AllAddressed, WordUpdates;
    hide PhisFirst;
    hide Certified, Defining, OneDef, Definitions, Sustained, Addressed, Rebases, Without, WordOperand, Relies;
    var j, K := Consumer(F, b, i), DispFused(F, b, i);
    var H := Replace(F, b, j, K);
    ReplaceKeepsCert(cert, F, b, j, K);
    ReplaceKeeps(M, cert, F, b, j, K, c);
    DispFusedUses(F, b, i);
    DropKeeps(M, cert, H, b, i, c);
    assert DeadOne(F[b][i].dst.v) == Dead({F[b][i].dst.v}, {});
    forall n: nat ensures SameConfig(Dead({F[b][i].dst.v}, {}), Run(M, F, c, n), Run(M, FoldDisp(F, b, i), c, n)) {
      AgreeRun(M, cert, F, Definitions(cert, F), b, j, K, c, n);
      DispDefinitionDropped(M, F, b, i, c, n);
    }
  }

  // ----- scale -----

  lemma ScaleCovered(p: Pool, cert: Cert, F: Func, b: nat, i: nat, x: nat, y: nat, right: bool)
    requires AllAddressed(cert, F) && ScaleFold(p, F, b, i, x, y, right)
    ensures var I, D := F[b][i], F[x][y];
            && I.dst.v.id in cert.defs && I.dst.v.id !in cert.buffers && Relies(cert, I) && Operands(I) <= cert.addr
            && D.op.Arith? && IsTmp(D.dst) && D.dst.v.id in cert.defs && D.dst.v.id !in cert.buffers && Relies(cert, D)
            && D.dst.v in Operands(I)
  {
    DispCovered(cert, F, b, i);
    hide FindMemConsumer, RegisterAtRisk, UseCount;
    var I, D := F[b][i], F[x][y];
    ScalerIsArith(D);
    assert D.dst.v in Vars(I.r1) + Vars(I.r2) && D.dst.v in Operands(I);
    assert InFunc(F, x, y) && Addressed(cert, D) && Relies(cert, D);
    assert ScalesWord(D);
  }

  lemma ScalerIsArith(D: Instr)
    requires ScaleOf(D).Some?
    ensures D.op.Arith?
  {
  }

  /** The scaling definition cannot mention the address computed from it. */
  lemma NoCycle(cert: Cert, I: Instr, D: Instr)
    requires CertShape(cert) && Relies(cert, I) && Relies(cert, D) && I.op.Arith? && D.op.Arith? && IsTmp(I.dst)
    requires IsTmp(D.dst)
    requires I.dst.v.id in cert.defs && D.dst.v.id in cert.defs && D.dst.v in Operands(I)
    ensures I.dst.v.id != D.dst.v.id && Vars(I.dst) !! FactVars(D)
  {
    var t, u := I.dst.v.id, D.dst.v.id;
    assert I.dst.v == Var(Tmp, t) && D.dst.v == Var(Tmp, u);
    assert Var(Tmp, u) in Sup(cert, t);
    assert u in Tracked(cert, Sup(cert, t));
    assert Sup(cert, u) <= Sup(cert, t) && Var(Tmp, t) !in Sup(cert, t);
    forall v | v in Vars(D.r1) + Vars(D.r2) ensures v != I.dst.v {
      if !v.kind.Param? { assert v in Operands(D); }
    }
  }

  lemma ScaleRebases(p: Pool, F: Func, b: nat, i: nat, x: nat, y: nat, right: bool)
    requires ScaleFold(p, F, b, i, x, y, right)
    ensures var J, K := F[b][Consumer(F, b, i)], ScaleFused(F, b, i, F[x][y], right);
            Rebases(J, K) && BaseOf(K) == Other(F[b][i], right)
  {
    hide FindMemConsumer, RegisterAtRisk, ScaleOf, UseCount;
  }

  lemma ScaleReads(p: Pool, cert: Cert, F: Func, b: nat, i: nat, x: nat, y: nat, right: bool)
    requires ScaleFold(p, F, b, i, x, y, right) && F[b][i].dst.v.id !in cert.buffers
    ensures var J, K := F[b][Consumer(F, b, i)], ScaleFused(F, b, i, F[x][y], right);
            && F[b][i].dst.v.id in ReadsHere(cert, J)
            && ReadsHere(cert, K) <= ReadsHere(cert, J) + (OperandTmps(cert, F[b][i]) + OperandTmps(cert, F[x][y]))
  {
    ScaleRebases(p, F, b, i, x, y, right);
    hide FindMemConsumer, RegisterAtRisk, ScaleOf, UseCount, ReadsHere, Reads, OperandTmps, Written;
    var I, D, J, K := F[b][i], F[x][y], F[b][Consumer(F, b, i)], ScaleFused(F, b, i, F[x][y], right);
    BaseIsRead(cert, J, I.dst.v.id);
    MemOpReads(cert, J);
    MemOpReads(cert, K);
    OneOperand(cert, I, Other(I, right));
    OneOperand(cert, D, D.r1);
  }

  lemma ScaleAvailable(cert: Cert, A: set<nat>, I: Instr, D: Instr)
    requires Closed(cert, A) && Relies(cert, I) && Relies(cert, D) && I.op.Arith? && D.op.Arith?
    requires IsTmp(I.dst) && I.dst.v.id in cert.defs && IsTmp(D.dst) && D.dst.v.id in cert.defs
    requires I.dst.v.id in A && D.dst.v in Operands(I) && D.dst.v.id !in cert.buffers
    ensures D.dst.v.id in A && OperandTmps(cert, I) + OperandTmps(cert, D) <= A
  {
    OperandsAvailable(cert, A, I);
    assert D.dst.v.id in OperandTmps(cert, I);
    OperandsAvailable(cert, A, D);
  }

  lemma ScaleAdmitted(p: Pool, cert: Cert, F: Func, b: nat, i: nat, x: nat, y: nat, right: bool)
    requires ScaleFold(p, F, b, i, x, y, right) && AllAddressed(cert, F)
    ensures var J, K := F[b][Consumer(F, b, i)], ScaleFused(F, b, i, F[x][y], right);
            Admits(cert, J, K) && Rebases(J, K) && Addressed(cert, K)
  {
    ScaleCovered(p, cert, F, b, i, x, y, right);
    ScaleRebases(p, F, b, i, x, y, right);
    ScaleReads(p, cert, F, b, i, x, y, right);
    hide FindMemConsumer, RegisterAtRisk, UseCount, ScaleOf, ReadsHere, Reads, Relies, AllAddressed, Addressed, Rebases;
    hide OperandTmps, Operands, Written, Closed, ScaleFused;
    var I, D, J, K := F[b][i], F[x][y], F[b][Consumer(F, b, i)], ScaleFused(F, b, i, F[x][y], right);
    RebasedEffect(J, K);
    FusedAddressed(cert, J, K, I, Other(I, right));
    forall A: set<nat> | Closed(cert, A) && ReadsHere(cert, J) <= A ensures ReadsHere(cert, K) <= A {
      ScaleAvailable(cert, A, I, D);
    }
  }

  lemma ScaleAgrees(M: Machine, p: Pool, cert: Cert, F: Func, b: nat, i: nat, x: nat, y: nat, right: bool)
    requires ScaleFold(p, F, b, i, x, y, right) && AllAddressed(cert, F) && OneDef(cert, F)
    ensures Agree(M, cert, Definitions(cert, F), F[b][Consumer(F, b, i)], ScaleFused(F, b, i, F[x][y], right))
  {
    ScaleCovered(p, cert, F, b, i, x, y, right);
    ScaleReads(p, cert, F, b, i, x, y, right);
    assert DefAt(cert, F, F[b][i].dst.v.id, b, i) && DefAt(cert, F, F[x][y].dst.v.id, x, y);
    DefinitionIs(cert, F, F[b][i].dst.v.id, b, i);
    DefinitionIs(cert, F, F[x][y].dst.v.id, x, y);
    hide FindMemConsumer, RegisterAtRisk, UseCount, ScaleOf, ReadsHere, Reads, AllAddressed, Step, Holds, Closed;
    hide OneDef;
    hide Definitions, Operands, Relies, OperandTmps, ScaleFused;
    var I, D, J := F[b][i], F[x][y], F[b][Consumer(F, b, i)];
    forall s: State, A: set<nat>
      | ReadsHere(cert, J) <= A && Closed(cert, A) && FactInv(M, s, Definitions(cert, F), A)
      ensures Step(M, J, s) == Step(M, ScaleFused(F, b, i, D, right), s)
    {
      ScaleAvailable(cert, A, I, D);
      assert Holds(M, s, I) && Holds(M, s, D);
      ScaleFusedStep(M, F, b, i, D, right, s);
    }
  }

  lemma ScaleDefined(p: Pool, cert: Cert, F: Func, b: nat, i: nat, x: nat, y: nat, right: bool)
    requires Fusible(cert, F) && ScaleFold(p, F, b, i, x, y, right)
    ensures Defining(F[b][i]) && Defining(F[x][y]) && Vars(F[b][i].dst) !! FactVars(F[x][y])
  {
    ScaleCovered(p, cert, F, b, i, x, y, right);
    RelyDefines(cert, F, b, i);
    RelyDefines(cert, F, x, y);
    hide FindMemConsumer, RegisterAtRisk, CodeOk, Closed, WordUpdates, PhisFirst, UseCount, Defining, FactVars, Relies;
    hide OneDef, AllAddressed, Operands;
    NoCycle(cert, F[b][i], F[x][y]);
  }

  /** The scale fold keeps the condition. */
  lemma ScaleKeeps(M: Machine, p: Pool, cert: Cert, F: Func, b: nat, i: nat, x: nat, y: nat, right: bool, c: Config)
    requires Fusible(cert, F) && Starts(M, cert, F, c) && ScaleFold(p, F, b, i, x, y, right)
    ensures var G, less := FoldScale(F, b, i, x, y, right),
                           Without(Without(cert, {F[b][i].dst.v.id}), {F[x][y].dst.v.id});
            Fusible(less, G) && Starts(M, less, G, c)
    ensures SameMoves(F, Replace(F, b, Consumer(F, b, i), ScaleFused(F, b, i, F[x][y], right)))
  {
    ScaleDefined(p, cert, F, b, i, x, y, right);
    ScaleAdmitted(p, cert, F, b, i, x, y, right);
    DifferentPlaces(F, b, i, x, y, right, p);
    ScaleFusedUses(p, F, b, i, x, y, right);
    hide FindMemConsumer, RegisterAtRisk, Admits, AllAddressed, WordUpdates, PhisFirst, UseCount, Rebases, Without;
    hide Starts;
    hide CodeOk, Closed, CertShape, Defining, FactVars, WellShaped, Certified, SameMoves, Addressed, OneDef;
    var j, K := Consumer(F, b, i), ScaleFused(F, b, i, F[x][y], right);
    var H := Replace(F, b, j, K);
    ReplaceKeepsCert(cert, F, b, j, K);
    ReplaceKeeps(M, cert, F, b, j, K, c);
    ScalerIsArith(F[x][y]);
    DropKeeps(M, cert, H, b, i, c);
    DropKeeps(M, Without(cert, {F[b][i].dst.v.id}), Replace(H, b, i, NopInstr()), x, y, c);
  }

  /** And it changes no run from the entry but for its two temporaries. */
  lemma FoldScalePreservesRuns(M: Machine, p: Pool, cert: Cert, F: Func, b: nat, i: nat, x: nat, y: nat, right: bool,
                               c: Config)
    requires Fusible(cert, F) && Starts(M, cert, F, c) && ScaleFold(p, F, b, i, x, y, right)
    ensures var G, less := FoldScale(F, b, i, x, y, right),
                           Without(Without(cert, {F[b][i].dst.v.id}), {F[x][y].dst.v.id});
            Fusible(less, G) && Starts(M, less, G, c)
    ensures forall n: nat :: SameConfig(Dead({F[b][i].dst.v, F[x][y].dst.v}, {}),
                                        Run(M, F, c, n), Run(M, FoldScale(F, b, i, x, y, right), c, n))
  {
    ScaleAgrees(M, p, cert, F, b, i, x, y, right);
    DefinitionsSustained(M, cert, F);
    hide FindMemConsumer, RegisterAtRisk, Agree, Run, SameConfig, UseCount, AllAddressed, WordUpdates, WellShaped;
    hide Certified, Defining, FactVars, SameMoves, Without, Plain, Initial, NoAllocaComputed, OneDef, Sustained;
    hide Definitions;
    ScaleDefined(p, cert, F, b, i, x, y, right);
    ScaleKeeps(M, p, cert, F, b, i, x, y, right, c);
    var j, K := Consumer(F, b, i), ScaleFused(F, b, i, F[x][y], right);
    forall n: nat ensures SameConfig(Dead({F[b][i].dst.v, F[x][y].dst.v}, {}),
                                     Run(M, F, c, n), Run(M, FoldScale(F, b, i, x, y, right), c, n))
    {
      AgreeRun(M, cert, F, Definitions(cert, F), b, j, K, c, n);
      ScaleDefinitionsDropped(M, p, F, b, i, x, y, right, c, n);
    }
  }

  // ----- read-modify-write -----

  lemma ArithReads(cert: Cert, B: Instr)
    requires B.op.Arith? && IsTmp(B.dst)
    ensures ReadsHere(cert, B) == Tracked(cert, Vars(B.r1) + Vars(B.r2)) && Written(B) == {Var(Tmp, B.dst.v.id)}
  {
  }

  lemma RmwReadsHere(cert: Cert, F: Func, b: nat, l: nat, m: nat, n: nat, left: bool)
    requires RmwFold(F, b, l, m, n, left) && SafeRmw(F[b][l], F[b][m], F[b][n], left)
    ensures var B, S, K := F[b][m], F[b][n], RmwFused(F[b][n], F[b][m], left);
            && Rebases(S, K) && BaseOf(K) == BaseOf(S) && Written(B) == {Var(Tmp, B.dst.v.id)}
            && ReadsHere(cert, K) <= ReadsHere(cert, S) + (ReadsHere(cert, B) - {B.dst.v.id})
  {
    hide ReadsHere, Reads, Written, UseCount, NopsBetween;
    var B, S, K := F[b][m], F[b][n], RmwFused(F[b][n], F[b][m], left);
    MemOpReads(cert, S);
    MemOpReads(cert, K);
    ArithReads(cert, B);
    assert B.dst.v == Var(Tmp, B.dst.v.id) && B.dst.v !in Vars(Applied(B, left)) by { assert B.dst.v in Vars(B.dst); }
  }

  lemma SameBaseAddressed(cert: Cert, S: Instr, K: Instr)
    requires Addressed(cert, S) && Rebases(S, K) && BaseOf(K) == BaseOf(S)
    ensures Addressed(cert, K)
  {
  }

  /** With one use, by the store, the result is no operand of anything relied on. */
  lemma UnlinkKeeps(M: Machine, cert: Cert, F: Func, b: nat, l: nat, m: nat, n: nat, left: bool, c: Config)
    requires Fusible(cert, F) && Starts(M, cert, F, c) && RmwFold(F, b, l, m, n, left)
    ensures var less := Unlinked(cert, {F[b][m].dst.v.id}); Fusible(less, F) && Starts(M, less, F, c)
  {
    hide Certified, PhisFirst, NoAllocaComputed, UseCount, WordUpdates, WellShaped, Relies, Addressed, Reads;
    var t := F[b][m].dst.v.id;
    var less := Unlinked(cert, {t});
    UnlinkKeepsCert(cert, F, {t});
    forall x, y | InFunc(F, x, y) ensures Relies(less, F[x][y]) && Addressed(less, F[x][y]) {
      SameAddresses(cert, less, F[x][y]);
      if F[x][y].op.Arith? { OnlyTheStoreReads(F, b, l, m, n, left, x, y); }
      ReliesUnlinked(cert, less, F[x][y], t);
    }
    assert OneDef(less, F) by {
      forall u: nat, x: nat, y: nat | DefAt(less, F, u, x, y) ensures DefAt(cert, F, u, x, y) {}
    }
  }

  lemma OnlyTheStoreReads(F: Func, b: nat, l: nat, m: nat, n: nat, left: bool, x: nat, y: nat)
    requires RmwFold(F, b, l, m, n, left) && InFunc(F, x, y) && F[x][y].op.Arith?
    ensures Var(Tmp, F[b][m].dst.v.id) !in Reads(F[x][y])
  {
    hide Sum;
    var t, S, I := F[b][m].dst.v.id, F[b][n], F[x][y];
    if Var(Tmp, t) in Reads(I) {
      UsesCoverReads(I, Var(Tmp, t));
      UsesOfMemOp(S, t);
      SumAtLeastTwo(TmpUses(t), F, b, n, x, y);
    }
  }

  lemma RmwWords(F: Func, b: nat, l: nat, m: nat, n: nat, left: bool)
    requires RmwFold(F, b, l, m, n, left) && WordUpdates(F)
    ensures F[b][l].dst.size >= 8 && F[b][m].dst.size >= 8
  {
    assert InFunc(F, b, m) && InFunc(F, b, n) && StoresResult(F[b][m], F[b][n]);
  }

  function RmwCert(cert: Cert, t: nat, u: nat): Cert
  {
    Without(Without(Unlinked(cert, {t}), {t}), {u})
  }

  /** The read-modify-write fusion keeps the condition. */
  lemma RmwKeeps(M: Machine, cert: Cert, F: Func, b: nat, l: nat, m: nat, n: nat, left: bool, c: Config)
    requires Fusible(cert, F) && Starts(M, cert, F, c) && RmwFold(F, b, l, m, n, left)
    ensures var G, less := FoldRmw(F, b, l, m, n, left), RmwCert(cert, F[b][m].dst.v.id, F[b][l].dst.v.id);
            Fusible(less, G) && Starts(M, less, G, c)
  {
    var t, K := F[b][m].dst.v.id, RmwFused(F[b][n], F[b][m], left);
    var cert1, H := Unlinked(cert, {t}), Replace(F, b, n, K);
    RmwWords(F, b, l, m, n, left);
    CountsKeepApart(F, b, l, m, n, left);
    UnlinkKeeps(M, cert, F, b, l, m, n, left, c);
    RmwReadsHere(cert1, F, b, l, m, n, left);
    UnlinkedPromises(cert, {t});
    RmwLeavesDead(F, b, l, m, n, left);
    RmwUses(F, b, l, m, n, left);
    assert InFunc(F, b, n) && Addressed(cert1, F[b][n]);
    SameBaseAddressed(cert1, F[b][n], K);
    RebasedEffect(F[b][n], K);
    hide AllAddressed, WordUpdates, Certified, Starts, SafeRmw, WellShaped, DeadValue, Promises, ReadsHere, Written;
    hide Loose;
    hide Without, Unlinked, Rebases, SameEffect, OneDef, Addressed;
    BorrowKeepsCert(cert1, F, b, m, n, K, t);
    ReplaceKeeps(M, cert1, F, b, n, K, c);
    DropKeeps(M, cert1, H, b, m, c);
    DropKeeps(M, Without(cert1, {t}), Replace(H, b, m, NopInstr()), b, l, c);
  }

  // ----- what has changed between two versions of a function -----

  /** Places become NOPs, stay NOPs, or keep what they produce. */
  ghost predicate Follows(F: Func, G: Func)
  {
    && |G| == |F| && (forall b :: 0 <= b < |F| ==> |G[b]| == |F[b]|)
    && forall b, i :: InFunc(F, b, i) ==>
         && (F[b][i].op.Nop? ==> G[b][i].op.Nop?)
         && ProducesSame(F[b][i], G[b][i])
  }

  predicate DroppedAt(F: Func, G: Func, b: nat, i: nat)
  {
    InFunc(F, b, i) && InFunc(G, b, i) && Produces(F[b][i].op) && IsTmp(F[b][i].dst) && G[b][i].op.Nop?
  }

  /** The temporaries with a definition that is gone. */
  function Vanished(F: Func, G: Func): set<Var>
  {
    set b: nat, i: nat | b < |F| && i < |F[b]| && DroppedAt(F, G, b, i) :: F[b][i].dst.v
  }

  lemma FollowsReplace(F: Func, b: nat, i: nat, K: Instr)
    requires InFunc(F, b, i) && !F[b][i].op.Nop? && ProducesSame(F[b][i], K)
    ensures Follows(F, Replace(F, b, i, K))
    ensures K.op.Nop? && Produces(F[b][i].op) && IsTmp(F[b][i].dst) ==>
      F[b][i].dst.v in Vanished(F, Replace(F, b, i, K))
  {
    var G := Replace(F, b, i, K);
    if K.op.Nop? && Produces(F[b][i].op) && IsTmp(F[b][i].dst) { assert DroppedAt(F, G, b, i); }
  }

  lemma FollowsTransitive(F: Func, G: Func, H: Func)
    requires Follows(F, G) && Follows(G, H)
    ensures Follows(F, H) && Vanished(F, G) + Vanished(G, H) <= Vanished(F, H)
  {
    forall b, i | InFunc(F, b, i)
      ensures F[b][i].op.Nop? ==> H[b][i].op.Nop?
      ensures ProducesSame(F[b][i], H[b][i])
    {
      assert InFunc(G, b, i);
    }
    forall v | v in Vanished(F, G) ensures v in Vanished(F, H) {
      var b: nat, i: nat :| b < |F| && i < |F[b]| && DroppedAt(F, G, b, i) && F[b][i].dst.v == v;
      assert InFunc(G, b, i) && DroppedAt(F, H, b, i);
    }
    forall v | v in Vanished(G, H) ensures v in Vanished(F, H) {
      var b: nat, i: nat :| b < |G| && i < |G[b]| && DroppedAt(G, H, b, i) && G[b][i].dst.v == v;
      assert InFunc(F, b, i) && DroppedAt(F, H, b, i);
    }
  }
}
