/**
 Rounds of folding and forwarding: a condition on the first function that both passes keep, so that any number of
 rounds leaves every run as it was.

 Arithmetic may read frame slots. What can only be folded to a constant (comparisons, arithmetic with a constant that
 is no identity) is not restricted at all: once forwarding has made its operands constants it folds, and a constant
 stays right wherever the temporary is read. What can be folded to a variable is tied to its operands and has to be
 used before they change. As forwarding may put the source of a store in place of a slot, it is tied to those, too.
 */
module RoundsKeep {
  import opened Ir
  import opened Liveness
  import opened Equivalence
  import opened Evaluate
  import opened Ssa
  import opened ConstFold
  import opened FoldKeeps
  import opened Forward
  import opened FusionSafe
  import Fuse
  import CE = CertEdit

  // ----- the condition -----

  ghost predicate AllSettled(F: Func)
  {
    forall b :: 0 <= b < |F| ==> Settled(F[b])
  }

  ghost predicate AllUnfused(F: Func)
  {
    forall b, i :: InFunc(F, b, i) ==> Unfused(F[b][i])
  }

  /** The variables stored to slots before instruction i. */
  function Sources(code: Code, i: nat): set<Var>
    requires i <= |code|
  {
    set k | 0 <= k < i && code[k].op.Store? && code[k].r1.Ref? :: code[k].r1.v
  }

  predicate TiedToMemory(cert: Cert, t: nat)
  {
    exists v :: v in Sup(cert, t) && Volatile(cert, v)
  }

  /** A relied-on temporary tied to a slot is tied to whatever was stored before it in its block. */
  predicate Sourced(cert: Cert, code: Code, i: nat)
    requires i < |code|
  {
    var I := code[i];
    I.op.Arith? && IsTmp(I.dst) && I.dst.v.id in cert.defs && TiedToMemory(cert, I.dst.v.id) ==>
      forall v :: v in Sources(code, i) && !v.kind.Param? ==> v in Sup(cert, I.dst.v.id)
  }

  /** What `o` is and is tied to is not assigned by I. */
  predicate LeavesAlone(cert: Cert, I: Instr, o: Operand)
  {
    Written(I) !! Vars(o) && (IsTmp(o) && o.v.id !in cert.buffers ==> Sup(cert, o.v.id) !! Written(I))
  }

  /** What the operand is, and all it is tied to, stays as it is for the rest of the block. */
  predicate LastsFrom(cert: Cert, code: Code, i: nat, o: Operand)
  {
    forall j :: i <= j < |code| ==> LeavesAlone(cert, code[j], o)
  }

  predicate SourcesLast(cert: Cert, code: Code)
  {
    forall i :: 0 <= i < |code| && code[i].op.Store? ==> LastsFrom(cert, code, i, code[i].r1)
  }

  /** What is stored to an address slot is an address. */
  predicate StoresAddress(cert: Cert, I: Instr)
  {
    I.op.Store? && I.dst.Ref? && I.dst.v in cert.addr ==> NonParams(I.r1) <= cert.addr
  }

  ghost predicate AllFlow(cert: Cert, F: Func)
  {
    && (forall b, i :: InFunc(F, b, i) ==> Sourced(cert, F[b], i) && StoresAddress(cert, F[b][i]))
    && (forall b :: 0 <= b < |F| ==> SourcesLast(cert, F[b]))
  }

  /** The condition on the function. */
  ghost predicate Optimisable(cert: Cert, F: Func)
  {
    && Certified(cert, F) && ListOrder(F) && AllUnfused(F) && WholeWords(cert, F) && AllSettled(F)
    && AllAddressed(cert, F) && AllFlow(cert, F)
  }

  lemma SettledPhisFirst(code: Code)
    requires Settled(code)
    ensures PhisFirst(code)
  {
  }

  lemma OptimisableIsFoldable(cert: Cert, F: Func)
    requires Optimisable(cert, F)
    ensures Foldable(cert, F)
  {
    hide Certified, ListOrder, AllFlow, AllAddressed, Settled, FoldSafe;
    forall b | 0 <= b < |F| ensures PhisFirst(F[b]) {
      SettledPhisFirst(F[b]);
    }
    WholeWordsAreSafe(cert, F);
  }

  // ----- folding keeps list order -----

  lemma HalfDefinedBy(rho: Resolver, I: Instr)
    ensures DefinedBy(HalfStep(rho, I)) == DefinedBy(I)
  {
  }

  lemma FoldDefinedBy(cert: Cert, F: Func, b: nat, i: nat)
    requires Foldable(cert, F) && InFunc(F, b, i)
    ensures DefinedBy(Fold(F)[b][i]) <= DefinedBy(F[b][i]) <= DefinedBy(Fold(F)[b][i]) + Final(F).Keys
  {
    hide Foldable, Decide, Rho, Final;
    var rho, I := Rho(F, b, i), F[b][i];
    HalfDefinedBy(rho, I);
    if Decide(ResolveInstr(rho, I)).Vanishes? {
      VanishedShape(ResolveInstr(rho, I));
      FoldedIsFinal(cert, F, b, i);
    }
  }

  lemma {:induction false} FoldDefined(cert: Cert, F: Func, b: nat, i: nat)
    requires Foldable(cert, F) && Position(F, b, i)
    ensures Position(Fold(F), b, i)
    ensures Defined(Fold(F), b, i) <= Defined(F, b, i) <= Defined(Fold(F), b, i) + Final(F).Keys
    decreases b, i
  {
    hide Foldable, DefinedBy, FoldStep, Final;
    if i > 0 {
      FoldDefined(cert, F, b, i - 1);
      FoldDefinedBy(cert, F, b, i - 1);
    } else if b > 0 {
      FoldDefined(cert, F, b - 1, |F[b - 1]|);
    }
  }

  lemma FoldReads(cert: Cert, F: Func, b: nat, i: nat)
    requires Foldable(cert, F) && InFunc(F, b, i)
    ensures Tmps(Reads(Fold(F)[b][i])) <= Defined(F, b, i) - Final(F).Keys
  {
    hide Decide, Certified, FoldSafe, WellShaped, Rho, ResolveInstr, RhoShape, Unfused;
    var rho, I := Rho(F, b, i), F[b][i];
    RhoShapeAt(F, b, i);
    LateFolds(F, b, i);
    assert Tmps(Reads(I)) <= Defined(F, b, i);
    assert Unfused(I);
    ResolvedReads(rho, I, Defined(F, b, i));
    RewrittenShape(ResolveInstr(rho, I));
    hide ListOrder, Final, Reads;
    if Decide(ResolveInstr(rho, I)).Vanishes? {
      NopReads(Fold(F)[b][i]);
    } else {
      forall t | t in Tmps(Reads(Fold(F)[b][i])) ensures t in Defined(F, b, i) - Final(F).Keys {
        assert Var(Tmp, t) in Reads(ResolveInstr(rho, I));
        assert t in Defined(F, b, i) - rho.Keys;
      }
    }
  }

  lemma NopReads(I: Instr)
    requires I.op.Nop?
    ensures Reads(I) == {}
  {
  }

  lemma FoldKeepsOrder(cert: Cert, F: Func)
    requires Foldable(cert, F)
    ensures ListOrder(Fold(F))
  {
    var G := Fold(F);
    forall b, i | InFunc(G, b, i)
      ensures Tmps(Reads(G[b][i])) <= Defined(G, b, i) && DefinedBy(G[b][i]) !! Defined(G, b, i)
    {
      assert InFunc(F, b, i) && DefinedBy(F[b][i]) !! Defined(F, b, i);
      hide Foldable, DefinedBy, FoldStep, Reads, Final;
      FoldReads(cert, F, b, i);
      FoldDefined(cert, F, b, i);
      FoldDefinedBy(cert, F, b, i);
    }
  }

  // ----- what folding makes of one instruction -----

  /** Redirections stay among the addresses. */
  predicate AddressRho(cert: Cert, rho: Resolver)
  {
    forall t :: t in rho && Var(Tmp, t) in cert.addr ==> NonParams(rho[t]) <= cert.addr
  }

  lemma ResolvedAddress(cert: Cert, rho: Resolver, o: Operand)
    requires AddressRho(cert, rho) && NonParams(o) <= cert.addr
    ensures NonParams(Resolve(rho, o)) <= cert.addr
  {
    if IsTmp(o) && o.v.id in rho {
      assert o.v in NonParams(o) && o.v == Var(Tmp, o.v.id);
    }
  }

  lemma AddressStep(cert: Cert, rho: Resolver, I: Instr)
    requires AddressRho(cert, rho) && Addressed(cert, I)
    ensures AddressRho(cert, FoldStep(rho, I).1)
  {
    hide Decide, NonParams, Operands;
    var I1 := ResolveInstr(rho, I);
    if Decide(I1).Vanishes? {
      VanishedShape(I1);
      var v := Decide(I1).value;
      if v.Const? {
        ConstHasNone(v);
      } else if I.dst.v in cert.addr {
        ArithAlias(I1);
        OperandParts(I);
        ResolvedAddress(cert, rho, I.r1);
        ResolvedAddress(cert, rho, I.r2);
      }
    }
  }

  lemma {:induction false} RhoAddress(cert: Cert, F: Func, b: nat, i: nat)
    requires AllAddressed(cert, F) && Position(F, b, i)
    ensures AddressRho(cert, Rho(F, b, i))
    decreases b, i
  {
    hide FoldStep, Addressed, Relies, AddressRho;
    if i > 0 {
      RhoAddress(cert, F, b, i - 1);
      assert InFunc(F, b, i - 1);
      AddressStep(cert, Rho(F, b, i - 1), F[b][i - 1]);
    } else if b > 0 {
      RhoAddress(cert, F, b - 1, |F[b - 1]|);
    } else {
      assert AddressRho(cert, map[]) by { NoAddresses(cert); }
    }
  }

  lemma NoAddresses(cert: Cert)
    ensures AddressRho(cert, map[])
  {
  }

  lemma BecomesShift(I: Instr)
    requires Decide(I).Becomes? && IsTmp(I.dst)
    ensures var J := Decide(I).J; J == I.(op := Arith(Shl), r2 := J.r2) && J.r2.Const? && J.r2.k != 0
    ensures I.op == Arith(IMul) && I.r2.Const? && Decide(I).J.r2.width == I.r2.width
  {
    if I.r2.Const? && IsPositivePowerOfTwo(I.r2.k) { MulIsShift(0, I.r2.k); }
  }

  lemma BecomesStore(I: Instr)
    requires Decide(I).Becomes? && !IsTmp(I.dst)
    ensures Calculates(I.op) && I.dst.Ref? && I.dst.v.kind.Local?
    ensures var J := Decide(I).J; J.op.Store? && J.dst == I.dst && J.r1.Const? && J.r1.width == I.dst.size
  {
  }

  /** A multiplication turned into a shift. */
  predicate ShiftForm(I: Instr, J: Instr)
  {
    && I.op == Arith(IMul) && IsTmp(I.dst) && I.r2.Const? && J.r2.Const? && J.r2.k != 0 && J.r2.width == I.r2.width
    && J == I.(op := Arith(Shl), r2 := J.r2)
  }

  /** Arithmetic into a slot turned into the store of a constant. */
  predicate StoreForm(I: Instr, J: Instr)
  {
    && Calculates(I.op) && I.dst.Ref? && I.dst.v.kind.Local?
    && J.op.Store? && J.dst == I.dst && J.r1.Const? && J.r1.width == I.dst.size
  }

  /** What is left of the instruction, if anything, is resolved and perhaps put more simply. */
  lemma FoldedForm(rho: Resolver, I: Instr)
    ensures var I1, J := ResolveInstr(rho, I), HalfStep(rho, I);
            && (FoldStep(rho, I).0.op.Nop? || FoldStep(rho, I).0 == J)
            && (J == I1 || ShiftForm(I1, J) || StoreForm(I1, J))
  {
    hide Decide;
    var I1 := ResolveInstr(rho, I);
    if Decide(I1).Becomes? {
      if IsTmp(I1.dst) {
        BecomesShift(I1);
      } else {
        BecomesStore(I1);
      }
    }
  }

  lemma NopFine(cert: Cert, J: Instr)
    requires J.op.Nop?
    ensures WholeWord(cert, J) && Relies(cert, J) && Addressed(cert, J) && StoresAddress(cert, J)
    ensures Unfused(J) == J.idx.Null?
  {
  }

  /** The operands of what is left are tied like those of what was there. */
  lemma FoldedOperands(cert: Cert, rho: Resolver, I: Instr, t: nat)
    requires CertShape(cert) && Grounded(cert, rho) && I.op.Arith? && IsTmp(I.dst) && Operands(I) <= Sup(cert, t)
    ensures Operands(HalfStep(rho, I)) <= Sup(cert, t)
  {
    FoldedForm(rho, I);
    hide HalfStep, CertShape, Grounded, Operands, NonParams;
    var I1, J := ResolveInstr(rho, I), HalfStep(rho, I);
    OperandParts(I);
    OperandParts(I1);
    OperandParts(J);
    ResolvedTied(cert, rho, t, I.r1);
    ResolvedTied(cert, rho, t, I.r2);
    if ShiftForm(I1, J) { ConstHasNone(J.r2); }
  }

  lemma FoldedAddresses(cert: Cert, rho: Resolver, I: Instr)
    requires AddressRho(cert, rho) && I.op.Arith? && IsTmp(I.dst) && Operands(I) <= cert.addr
    ensures Operands(HalfStep(rho, I)) <= cert.addr
  {
    FoldedForm(rho, I);
    hide HalfStep, AddressRho, Operands, NonParams;
    var I1, J := ResolveInstr(rho, I), HalfStep(rho, I);
    OperandParts(I);
    OperandParts(I1);
    OperandParts(J);
    ResolvedAddress(cert, rho, I.r1);
    ResolvedAddress(cert, rho, I.r2);
    if ShiftForm(I1, J) { ConstHasNone(J.r2); }
  }

  lemma ResolvedWidths(rho: Resolver, I: Instr)
    requires EightWide(rho)
    ensures var I1 := ResolveInstr(rho, I);
            && (ByteSize(I.r1) == 8 ==> ByteSize(I1.r1) == 8) && (ByteSize(I.r2) == 8 ==> ByteSize(I1.r2) == 8)
            && (I1.r1.Null? <==> I.r1.Null?) && (I1.r2.Null? <==> I.r2.Null?) && I1.op == I.op
            && (I.op.Br? || I.op.Ret? || I.op.StoreDeref? || I1.dst == I.dst)
  {
  }

  lemma ResolvedIdle(rho: Resolver, I: Instr)
    requires Idle(I)
    ensures Idle(HalfStep(rho, I)) || HalfStep(rho, I).op.Store?
  {
    FoldedForm(rho, I);
    hide HalfStep;
    var I1, J := ResolveInstr(rho, I), HalfStep(rho, I);
    if ShiftForm(I1, J) { ShiftIsIdle(J); }
  }

  lemma ShiftIsIdle(J: Instr)
    requires J.op == Arith(Shl) && J.dst.Ref? && J.r2.Const? && J.r2.k != 0
    ensures Idle(J)
  {
  }

  lemma FoldedWord(cert: Cert, rho: Resolver, I: Instr)
    requires CertShape(cert) && Grounded(cert, rho) && EightWide(rho) && NoBuffers(cert, rho) && WholeWord(cert, I)
    ensures WholeWord(cert, HalfStep(rho, I))
  {
    FoldedForm(rho, I);
    ResolvedWidths(rho, I);
    var I1, J := ResolveInstr(rho, I), HalfStep(rho, I);
    if Calculates(I.op) && IsTmp(I.dst) {
      if Idle(I) { ResolvedIdle(rho, I); }
      if I.op.Arith? && I.dst.v.id in cert.defs { FoldedOperands(cert, rho, I, I.dst.v.id); }
    }
    hide HalfStep, Idle, Operands, CertShape, Grounded;
  }

  lemma FoldedRelies(cert: Cert, rho: Resolver, I: Instr)
    requires CertShape(cert) && Grounded(cert, rho) && Relies(cert, I)
    ensures Relies(cert, HalfStep(rho, I))
  {
    FoldedForm(rho, I);
    HalfWritten(rho, I);
    var J := HalfStep(rho, I);
    if IsTmp(J.dst) && J.dst.v.id in cert.defs && J.dst.v in Written(J) {
      WrittenHere(rho, I);
      FoldedOperands(cert, rho, I, I.dst.v.id);
    }
  }

  /** What assigns its destination has kept it. */
  lemma WrittenHere(rho: Resolver, I: Instr)
    requires var J := HalfStep(rho, I); IsTmp(J.dst) && J.dst.v in Written(J)
    ensures HalfStep(rho, I).dst == I.dst && I.dst.v in Written(I) && (I.op.Arith? ==> HalfStep(rho, I).op.Arith?)
  {
    FoldedForm(rho, I);
    HalfWritten(rho, I);
  }

  lemma FoldedAddressed(cert: Cert, rho: Resolver, I: Instr)
    requires AddressRho(cert, rho) && EightWide(rho) && WholeWord(cert, I) && Addressed(cert, I)
    requires StoresAddress(cert, I)
    requires Unfused(I)
    ensures Addressed(cert, HalfStep(rho, I)) && StoresAddress(cert, HalfStep(rho, I))
  {
    FoldedForm(rho, I);
    ResolvedWidths(rho, I);
    var I1, J := ResolveInstr(rho, I), HalfStep(rho, I);
    if Fuse.MemOp(I.op) {
      ResolvedAddress(cert, rho, Fuse.BaseOf(I));
    } else if I.op.Store? {
      if I.dst.Ref? && I.dst.v in cert.addr { ResolvedAddress(cert, rho, I.r1); }
    } else if I.op.Arith? && IsTmp(I.dst) {
      if I.dst.v in cert.addr { FoldedAddresses(cert, rho, I); }
    }
    if StoreForm(I1, J) { ConstHasNone(J.r1); }
    hide HalfStep, Operands, AddressRho;
  }

  /** The same to a certificate without what the instruction does not mention. */
  lemma StruckWord(cert: Cert, gone: set<nat>, J: Instr)
    requires WholeWord(cert, J) && Relies(cert, J) && Addressed(cert, J) && StoresAddress(cert, J)
    requires Reads(J) !! CE.TmpVars(gone)
    ensures var less := CE.Without(cert, gone);
            WholeWord(less, J) && Relies(less, J) && Addressed(less, J) && StoresAddress(less, J)
  {
    var less := CE.Without(cert, gone);
    if J.op.Arith? && IsTmp(J.dst) {
      CE.UnlinkedSup(cert, gone, J.dst.v.id);
      assert Operands(J) <= Reads(J);
    }
    hide Idle, Reads, CE.Without, Operands, Sup;
    assert less.defs == cert.defs && less.addr == cert.addr && less.buffers == cert.buffers by { SameRest(cert, gone); }
    SameAddresses(cert, less, J);
  }

  lemma SameRest(cert: Cert, gone: set<nat>)
    ensures var less := CE.Without(cert, gone);
            less.defs == cert.defs && less.addr == cert.addr && less.buffers == cert.buffers
  {
  }

  /** Folding keeps what is asked of single instructions. */
  lemma FoldKeepsWords(cert: Cert, F: Func, b: nat, i: nat)
    requires Optimisable(cert, F) && InFunc(F, b, i)
    ensures var less, J := FoldedCert(cert, F), Fold(F)[b][i];
            WholeWord(less, J) && Relies(less, J) && Addressed(less, J) && StoresAddress(less, J) && Unfused(J)
  {
    OptimisableIsFoldable(cert, F);
    assert WholeWord(cert, F[b][i]) && Relies(cert, F[b][i]) && Addressed(cert, F[b][i]);
    assert StoresAddress(cert, F[b][i]) && Unfused(F[b][i]) && CertShape(cert);
    GroundedAt(cert, F, b, i);
    RhoEight(cert, F, b, i);
    RhoAddress(cert, F, b, i);
    hide Optimisable, Foldable, WholeWord, Relies, Addressed, StoresAddress, HalfStep, Rho, Grounded, EightWide;
    hide CertShape;
    hide NoBuffers, AddressRho, CE.Without, Final, Unfused, Reads;
    var rho, I, J := Rho(F, b, i), F[b][i], Fold(F)[b][i];
    FoldedForm(rho, I);
    HalfUnfused(rho, I);
    if J.op.Nop? {
      NopFine(FoldedCert(cert, F), J);
      NopUnfused(rho, I);
    } else {
      FoldedWord(cert, rho, I);
      FoldedRelies(cert, rho, I);
      FoldedAddressed(cert, rho, I);
      KeptReads(cert, F, b, i);
      FoldedVars(F);
      StruckWord(cert, Final(F).Keys, J);
    }
  }

  lemma FoldedVars(F: Func)
    ensures CE.TmpVars(Final(F).Keys) == Folded(F).All()
  {
  }

  lemma HalfUnfused(rho: Resolver, I: Instr)
    requires Unfused(I)
    ensures Unfused(HalfStep(rho, I))
  {
    FoldedForm(rho, I);
  }

  lemma NopUnfused(rho: Resolver, I: Instr)
    requires Unfused(I) && FoldStep(rho, I).0.op.Nop?
    ensures Unfused(FoldStep(rho, I).0)
  {
    FoldedForm(rho, I);
  }

  // ----- folding keeps what is asked of blocks -----

  lemma FoldOps(rho: Resolver, I: Instr)
    ensures var J := FoldStep(rho, I).0;
            (J.op.Phi? <==> I.op.Phi?) && (I.op.Nop? ==> J.op.Nop?) && Written(J) <= Written(I)
  {
    HalfShape(rho, I);
    HalfWritten(rho, I);
    FoldedForm(rho, I);
    if Decide(ResolveInstr(rho, I)).Vanishes? { VanishedShape(ResolveInstr(rho, I)); }
  }

  /** A store's source after folding: a constant, as it was, or what that is tied to. */
  predicate SourceFrom(cert: Cert, I: Instr, o: Operand)
  {
    || o.Const?
    || (I.op.Store?
        && (o == I.r1 || (IsTmp(I.r1) && I.r1.v.id !in cert.buffers && NonParams(o) <= Sup(cert, I.r1.v.id))))
  }

  lemma FoldedSource(cert: Cert, rho: Resolver, I: Instr)
    requires Grounded(cert, rho) && FoldStep(rho, I).0.op.Store?
    ensures SourceFrom(cert, I, FoldStep(rho, I).0.r1)
  {
    FoldedForm(rho, I);
  }

  lemma LeavesSource(cert: Cert, less: Cert, I: Instr, J: Instr, r: Operand, o: Operand)
    requires CertShape(cert) && LeavesAlone(cert, I, r) && Written(J) <= Written(I) && less.buffers == cert.buffers
    requires forall v :: v in Written(I) ==> !v.kind.Param?
    requires forall u :: Sup(less, u) <= Sup(cert, u)
    requires o.Const? || o == r || (IsTmp(r) && r.v.id !in cert.buffers && NonParams(o) <= Sup(cert, r.v.id))
    ensures LeavesAlone(less, J, o)
  {
    hide Written;
    if o.Ref? && o != r {
      if !o.v.kind.Param? { assert o.v in NonParams(o); }
      if IsTmp(o) && o.v.id !in cert.buffers {
        assert o.v == Var(Tmp, o.v.id) && o.v.id in Tracked(cert, Sup(cert, r.v.id));
      }
    }
  }

  lemma {:induction false} CodeOkAt(cert: Cert, F: Func, b: nat, code: Code, A: set<nat>, i: nat)
    requires |cert.avail| == |F| && CodeOk(cert, F, b, code, A) && i < |code|
    ensures !code[i].op.Phi? ==> forall v :: v in Written(code[i]) ==> !v.kind.Param?
    decreases |code|
  {
    hide AfterInstr;
    if i > 0 { CodeOkAt(cert, F, b, code[1..], AfterInstr(cert, A, code[0]), i - 1); }
  }

  lemma SmallerSup(cert: Cert, gone: set<nat>)
    ensures forall u :: Sup(CE.Without(cert, gone), u) <= Sup(cert, u)
  {
    forall u ensures Sup(CE.Without(cert, gone), u) <= Sup(cert, u) {
      CE.UnlinkedSup(cert, gone, u);
    }
  }

  /** After a store no phi follows. */
  lemma NoPhisAfter(code: Code, i: nat)
    requires PhisFirst(code) && i < |code| && !code[i].op.Phi? && !code[i].op.Nop?
    ensures forall k :: i + 1 <= k < |code| ==> !code[k].op.Phi?
  {
  }

  /** What the condition says of one instruction and its block. */
  lemma OptimisableAt(cert: Cert, F: Func, b: nat, i: nat)
    requires Optimisable(cert, F) && InFunc(F, b, i)
    ensures var I := F[b][i];
            && WholeWord(cert, I) && Relies(cert, I) && Addressed(cert, I) && StoresAddress(cert, I) && Unfused(I)
            && Sourced(cert, F[b], i) && SourcesLast(cert, F[b]) && Settled(F[b]) && PhisFirst(F[b])
            && (!I.op.Phi? ==> forall v :: v in Written(I) ==> !v.kind.Param?)
    ensures CertShape(cert) && |cert.avail| == |F|
  {
    hide WholeWord, Relies, Addressed, StoresAddress, Unfused, Sourced, SourcesLast, CertShape, ListOrder, CodeOk;
    hide Written;
    CodeOkAt(cert, F, b, F[b], cert.avail[b], i);
    hide PhisFirst;
    SettledPhisFirst(F[b]);
  }

  lemma FoldKeepsLasting(cert: Cert, F: Func, b: nat, i: nat, j: nat)
    requires Optimisable(cert, F) && InFunc(F, b, i) && InFunc(F, b, j) && i <= j && Fold(F)[b][i].op.Store?
    ensures LeavesAlone(FoldedCert(cert, F), Fold(F)[b][j], Fold(F)[b][i].r1)
  {
    hide Optimisable, Foldable, Grounded, Rho, FoldStep, Written, Final, CE.Without, PhisFirst, WholeWord, Relies;
    hide Addressed;
    hide Sourced, StoresAddress, Unfused, Settled, CertShape;
    OptimisableIsFoldable(cert, F);
    OptimisableAt(cert, F, b, i);
    OptimisableAt(cert, F, b, j);
    GroundedAt(cert, F, b, i);
    FoldedSource(cert, Rho(F, b, i), F[b][i]);
    FoldOps(Rho(F, b, j), F[b][j]);
    SmallerSup(cert, Final(F).Keys);
    SameRest(cert, Final(F).Keys);
    var I, o := F[b][i], Fold(F)[b][i].r1;
    if !o.Const? {
      NoPhisAfter(F[b], i);
      assert LeavesAlone(cert, F[b][j], I.r1);
      hide LeavesAlone, SourcesLast, SourceFrom;
      SourceCases(cert, I, o);
      LeavesSource(cert, FoldedCert(cert, F), F[b][j], Fold(F)[b][j], I.r1, o);
    }
  }

  lemma SourceCases(cert: Cert, I: Instr, o: Operand)
    requires SourceFrom(cert, I, o) && !o.Const?
    ensures I.op.Store?
    ensures o == I.r1 || (IsTmp(I.r1) && I.r1.v.id !in cert.buffers && NonParams(o) <= Sup(cert, I.r1.v.id))
  {
  }

  lemma FoldPhisFirst(F: Func, b: nat)
    requires b < |F| && PhisFirst(F[b])
    ensures PhisFirst(Fold(F)[b])
  {
    hide FoldStep;
    forall i | 0 <= i < |F[b]|
      ensures (Fold(F)[b][i].op.Phi? <==> F[b][i].op.Phi?) && (F[b][i].op.Nop? ==> Fold(F)[b][i].op.Nop?)
    {
      assert InFunc(F, b, i);
      FoldOps(Rho(F, b, i), F[b][i]);
    }
  }

  /** Words stored and sources that last make a block settled. */
  lemma LastingIsSettled(cert: Cert, code: Code)
    requires PhisFirst(code) && SourcesLast(cert, code) && forall i :: 0 <= i < |code| ==> WholeWord(cert, code[i])
    ensures Settled(code)
  {
    hide WholeWord, PhisFirst, Written;
    forall i | 0 <= i < |code| && code[i].op.Store?
      ensures code[i].dst.Ref? && code[i].dst.size >= 8 && !code[i].r1.Null? && ByteSize(code[i].r1) == 8
    {
      StoreWords(cert, code[i]);
    }
    forall i, j | 0 <= i < j < |code| && code[i].op.Store? ensures Written(code[j]) !! Vars(code[i].r1) {
      assert LastsFrom(cert, code, i, code[i].r1);
      assert LeavesAlone(cert, code[j], code[i].r1);
    }
  }

  lemma FoldKeepsSettled(cert: Cert, F: Func, b: nat)
    requires Optimisable(cert, F) && b < |F|
    ensures Settled(Fold(F)[b]) && SourcesLast(FoldedCert(cert, F), Fold(F)[b])
  {
    assert PhisFirst(F[b]) by { SettledPhisFirst(F[b]); }
    FoldPhisFirst(F, b);
    hide Optimisable, FoldStep, FoldedCert, WholeWord, Relies, Addressed, StoresAddress, Unfused, LeavesAlone;
    hide PhisFirst;
    hide Settled;
    var out, less := Fold(F)[b], FoldedCert(cert, F);
    forall i | 0 <= i < |out| ensures WholeWord(less, out[i]) {
      assert InFunc(F, b, i);
      FoldKeepsWords(cert, F, b, i);
    }
    forall i, j | 0 <= i <= j < |out| && out[i].op.Store? ensures LeavesAlone(less, out[j], out[i].r1) {
      FoldKeepsLasting(cert, F, b, i, j);
    }
    LastingIsSettled(less, out);
  }

  lemma StoreWords(cert: Cert, I: Instr)
    requires WholeWord(cert, I) && I.op.Store?
    ensures I.dst.Ref? && I.dst.size == 8 && !I.r1.Null? && ByteSize(I.r1) == 8
  {
  }

  lemma FoldedFrom(cert: Cert, F: Func, b: nat, i: nat, v: Var) returns (k: nat)
    requires Optimisable(cert, F) && InFunc(F, b, i) && v in Sources(Fold(F)[b], i)
    ensures k < i && F[b][k].op.Store? && F[b][k].r1.Ref? && v !in CE.TmpVars(Final(F).Keys)
    ensures v == F[b][k].r1.v || v.kind.Param?
            || (IsTmp(F[b][k].r1) && F[b][k].r1.v.id !in cert.buffers && v in Sup(cert, F[b][k].r1.v.id))
  {
    hide Optimisable, Foldable, Grounded, Rho, FoldStep, Final, SourceFrom;
    OptimisableIsFoldable(cert, F);
    k :| 0 <= k < i && Fold(F)[b][k].op.Store? && Fold(F)[b][k].r1.Ref? && Fold(F)[b][k].r1.v == v;
    GroundedAt(cert, F, b, k);
    FoldedSource(cert, Rho(F, b, k), F[b][k]);
    FoldReads(cert, F, b, k);
    var J := Fold(F)[b][k];
    SourceCases(cert, F[b][k], J.r1);
    assert v in Reads(J);
    if v.kind.Tmp? { assert v.id in Tmps(Reads(J)); }
    if !v.kind.Param? { assert v in NonParams(J.r1); }
  }

  lemma SourceTied(cert: Cert, F: Func, b: nat, i: nat, t: nat, v: Var)
    requires Optimisable(cert, F) && InFunc(F, b, i) && v in Sources(Fold(F)[b], i) && !v.kind.Param?
    requires CertShape(cert) && forall r :: r in Sources(F[b], i) && !r.kind.Param? ==> r in Sup(cert, t)
    ensures v in Sup(FoldedCert(cert, F), t)
  {
    hide Optimisable, FoldStep, Final, CE.Without;
    var k := FoldedFrom(cert, F, b, i, v);
    CE.UnlinkedSup(cert, Final(F).Keys, t);
    var r := F[b][k].r1.v;
    assert r in Sources(F[b], i);
    if v != r { assert r == Var(Tmp, r.id) && r.id in Tracked(cert, Sup(cert, t)); }
  }

  lemma FoldKeepsSourced(cert: Cert, F: Func, b: nat, i: nat)
    requires Optimisable(cert, F) && InFunc(F, b, i)
    ensures Sourced(FoldedCert(cert, F), Fold(F)[b], i)
  {
    hide Optimisable, FoldStep, Final, CE.Without, WholeWord, Relies, Addressed, StoresAddress, Unfused, Settled;
    hide SourcesLast;
    hide CertShape, PhisFirst, Sources;
    var J, less, gone := Fold(F)[b][i], FoldedCert(cert, F), Final(F).Keys;
    SameRest(cert, gone);
    OptimisableAt(cert, F, b, i);
    if J.op.Arith? && IsTmp(J.dst) && J.dst.v.id in cert.defs && TiedToMemory(less, J.dst.v.id) {
      var t := J.dst.v.id;
      StillArith(Rho(F, b, i), F[b][i]);
      SmallerSup(cert, gone);
      assert TiedToMemory(cert, t);
      forall v | v in Sources(Fold(F)[b], i) && !v.kind.Param? ensures v in Sup(less, t) {
        SourceTied(cert, F, b, i, t, v);
      }
    }
  }

  lemma StillArith(rho: Resolver, I: Instr)
    requires FoldStep(rho, I).0.op.Arith?
    ensures I.op.Arith? && FoldStep(rho, I).0.dst == I.dst
  {
    FoldedForm(rho, I);
  }

  /** Folding keeps the condition. */
  lemma FoldKeepsOptimisable(cert: Cert, F: Func)
    requires Optimisable(cert, F)
    ensures Optimisable(FoldedCert(cert, F), Fold(F))
  {
    OptimisableIsFoldable(cert, F);
    FoldKeepsCert(cert, F);
    FoldKeepsOrder(cert, F);
    var G, less := Fold(F), FoldedCert(cert, F);
    hide Optimisable, Foldable, Certified, ListOrder, FoldStep, Settled, SourcesLast, Sourced, StoresAddress;
    hide WholeWord, Relies;
    hide Addressed, Unfused, FoldedCert;
    forall b, i | InFunc(G, b, i)
      ensures WholeWord(less, G[b][i]) && Relies(less, G[b][i]) && Addressed(less, G[b][i]) && Unfused(G[b][i])
      ensures StoresAddress(less, G[b][i]) && Sourced(less, G[b], i)
    {
      assert InFunc(F, b, i);
      FoldKeepsWords(cert, F, b, i);
      FoldKeepsSourced(cert, F, b, i);
    }
    forall b | 0 <= b < |G| ensures Settled(G[b]) && SourcesLast(less, G[b]) {
      FoldKeepsSettled(cert, F, b);
    }
    assert Optimisable(less, G) by { PutTogether(less, G); }
  }

  lemma PutTogether(cert: Cert, F: Func)
    requires Certified(cert, F) && ListOrder(F)
    requires forall b, i :: InFunc(F, b, i) ==>
               WholeWord(cert, F[b][i]) && Relies(cert, F[b][i]) && Addressed(cert, F[b][i]) && Unfused(F[b][i])
               && StoresAddress(cert, F[b][i]) && Sourced(cert, F[b], i)
    requires forall b :: 0 <= b < |F| ==> Settled(F[b]) && SourcesLast(cert, F[b])
    ensures Optimisable(cert, F)
  {
    hide Certified, ListOrder, Settled, SourcesLast, Sourced, StoresAddress, WholeWord, Relies, Addressed, Unfused;
  }

  // ----- forwarding: what becomes of one instruction -----

  /** An entry of the table says that a slot holds a whole word, an address if the slot is one. */
  predicate EntryOk(cert: Cert, e: Entry)
  {
    && e.slot.Ref? && Volatile(cert, e.slot.v) && !e.source.Null? && ByteSize(e.source) == 8
    && (e.slot.v in cert.addr ==> NonParams(e.source) <= cert.addr)
  }

  predicate EntriesOk(cert: Cert, t: seq<Entry>)
  {
    forall e :: e in t ==> EntryOk(cert, e)
  }

  /** An operand is left as it was or replaced by a tracked source; only slots are replaced. */
  predicate Redirects(cert: Cert, t: seq<Entry>, o: Operand, o': Operand)
  {
    && (o' == o || exists e :: e in t && e.source == o')
    && (!(o.Ref? && Volatile(cert, o.v)) ==> o' == o)
    && (NonParams(o) <= cert.addr ==> NonParams(o') <= cert.addr)
  }

  lemma RedirectsOne(cert: Cert, t: seq<Entry>, o: Operand, e: Entry)
    requires EntryOk(cert, e) && e in t
    ensures Redirects(cert, t, o, RewriteOne(o, e)) && Redirects(cert, t, o, o)
  {
    if Matches(o, e.slot) && !o.v.kind.Param? && NonParams(o) <= cert.addr { assert o.v in NonParams(o); }
  }

  lemma RedirectsOn(cert: Cert, t: seq<Entry>, o: Operand, o1: Operand, o2: Operand)
    requires |t| > 0 && Redirects(cert, t, o, o1) && Redirects(cert, t[1..], o1, o2)
    ensures Redirects(cert, t, o, o2)
  {
    hide Volatile, NonParams;
  }

  /** The instruction keeps its form. */
  predicate SameForm(I: Instr, J: Instr)
  {
    && J.op == I.op && J.idx == I.idx && (J.dst == I.dst || I.op.Br? || I.op.Ret?)
    && (I.op.Lea? ==> J == I) && (I.op.Arith? ==> J == I.(r1 := J.r1, r2 := J.r2))
  }

  lemma {:induction false} RewriteAllForm(p: Pool, cert: Cert, I: Instr, t: seq<Entry>)
    requires EntriesOk(cert, t)
    ensures var J := RewriteAll(p, I, t);
            SameForm(I, J) && Redirects(cert, t, I.r1, J.r1) && Redirects(cert, t, I.r2, J.r2)
    decreases |t|
  {
    if t == [] {
      SameRedirects(cert, t, I.r1);
      SameRedirects(cert, t, I.r2);
    } else {
      var I1 := RewriteOperands(p, I, t[0]);
      assert t[0] in t;
      RewriteAllForm(p, cert, I1, t[1..]);
      RewrittenFields(p, I, t[0]);
      RedirectsOne(cert, t, I.r1, t[0]);
      RedirectsOne(cert, t, I.r2, t[0]);
      var J := RewriteAll(p, I1, t[1..]);
      RedirectsOn(cert, t, I.r1, I1.r1, J.r1);
      RedirectsOn(cert, t, I.r2, I1.r2, J.r2);
      hide Redirects, EntriesOk, RewriteOne;
    }
  }

  lemma SameRedirects(cert: Cert, t: seq<Entry>, o: Operand)
    ensures Redirects(cert, t, o, o)
  {
  }

  predicate SourcesWithin(t: seq<Entry>, T: set<nat>)
  {
    forall e :: e in t ==> Tmps(Vars(e.source)) <= T
  }

  lemma RewriteOneReads(o: Operand, e: Entry, T: set<nat>)
    requires Tmps(Vars(e.source)) <= T
    ensures Tmps(Vars(RewriteOne(o, e))) <= Tmps(Vars(o)) + T
  {
  }

  lemma RewriteArgsReads(os: seq<Operand>, e: Entry, T: set<nat>)
    requires Tmps(Vars(e.source)) <= T
    ensures Tmps(VarsOf(RewriteArgs(os, e))) <= Tmps(VarsOf(os)) + T
  {
    forall x | x in Tmps(VarsOf(RewriteArgs(os, e))) ensures x in Tmps(VarsOf(os)) + T {
      var o :| o in RewriteArgs(os, e) && o.Ref? && o.v == Var(Tmp, x);
      var k :| 0 <= k < |os| && RewriteArgs(os, e)[k] == o;
      if Matches(os[k], e.slot) {
        assert Var(Tmp, x) in Vars(e.source);
      } else {
        assert os[k] in os && Var(Tmp, x) in VarsOf(os);
      }
    }
  }

  lemma RewriteReads(p: Pool, I: Instr, e: Entry, T: set<nat>)
    requires Tmps(Vars(e.source)) <= T && !I.op.Phi?
    ensures Tmps(Reads(RewriteOperands(p, I, e))) <= Tmps(Reads(I)) + T
  {
    var J := RewriteOperands(p, I, e);
    RewrittenFields(p, I, e);
    hide RewriteOperands, RewriteOne, RewriteArgs, VarsOf, Reads;
    RewriteOneReads(I.r1, e, T);
    RewriteOneReads(I.r2, e, T);
    RewriteOneReads(I.dst, e, T);
    RewriteArgsReads(I.args, e, T);
    FieldReads(I, J, T);
  }

  lemma FieldReads(I: Instr, J: Instr, T: set<nat>)
    requires J.op == I.op && !I.op.Phi? && J.idx == I.idx
    requires Tmps(Vars(J.r1)) <= Tmps(Vars(I.r1)) + T && Tmps(Vars(J.r2)) <= Tmps(Vars(I.r2)) + T
    requires Tmps(Vars(J.dst)) <= Tmps(Vars(I.dst)) + T && Tmps(VarsOf(J.args)) <= Tmps(VarsOf(I.args)) + T
    ensures Tmps(Reads(J)) <= Tmps(Reads(I)) + T
  {
    hide VarsOf;
    forall x | x in Tmps(Reads(J)) ensures x in Tmps(Reads(I)) + T {
      var v := Var(Tmp, x);
      assert v in Vars(J.r1) ==> x in Tmps(Vars(J.r1));
      assert v in Vars(J.r2) ==> x in Tmps(Vars(J.r2));
      assert v in Vars(J.dst) ==> x in Tmps(Vars(J.dst));
      assert v in VarsOf(J.args) ==> x in Tmps(VarsOf(J.args));
    }
  }

  lemma {:induction false} RewriteAllReads(p: Pool, I: Instr, t: seq<Entry>, T: set<nat>)
    requires SourcesWithin(t, T) && !I.op.Phi?
    ensures var J := RewriteAll(p, I, t); J.op == I.op && Tmps(Reads(J)) <= Tmps(Reads(I)) + T
    decreases |t|
  {
    hide Tmps, Reads;
    if t != [] {
      var I1 := RewriteOperands(p, I, t[0]);
      assert t[0] in t;
      RewriteReads(p, I, t[0], T);
      RewriteAllReads(p, I1, t[1..], T);
    }
  }

  /** What rewriting keeps of the instruction's own conditions; what it puts in is tied where it has to be. */
  lemma RedirectedOperands(cert: Cert, t: seq<Entry>, I: Instr, J: Instr, u: nat, S: set<Var>)
    requires SameForm(I, J) && I.op.Arith? && Redirects(cert, t, I.r1, J.r1) && Redirects(cert, t, I.r2, J.r2)
    requires Operands(I) <= Sup(cert, u) && forall e :: e in t ==> NonParams(e.source) <= S
    requires TiedToMemory(cert, u) ==> S <= Sup(cert, u)
    ensures Operands(J) <= Sup(cert, u)
  {
    OperandParts(I);
    OperandParts(J);
    forall o: Operand, o': Operand
      | Redirects(cert, t, o, o') && NonParams(o) <= Sup(cert, u)
      ensures NonParams(o') <= Sup(cert, u)
    {
      if o' != o {
        assert o.v in NonParams(o);
        assert TiedToMemory(cert, u);
      }
    }
  }

  lemma RedirectedAddresses(cert: Cert, t: seq<Entry>, I: Instr, J: Instr)
    requires Redirects(cert, t, I.r1, J.r1) && Redirects(cert, t, I.r2, J.r2) && Operands(I) <= cert.addr
    ensures Operands(J) <= cert.addr
  {
    OperandParts(I);
    OperandParts(J);
  }

  lemma RedirectedWidth(cert: Cert, t: seq<Entry>, o: Operand, o': Operand)
    requires EntriesOk(cert, t) && Redirects(cert, t, o, o')
    ensures (ByteSize(o) == 8 ==> ByteSize(o') == 8) && (o'.Null? <==> o.Null?) && (o.Const? ==> o' == o)
  {
  }

  lemma RedirectedIdle(cert: Cert, t: seq<Entry>, I: Instr, J: Instr)
    requires EntriesOk(cert, t) && SameForm(I, J) && Idle(I) && I.dst.Ref? && J.dst == I.dst
    requires Redirects(cert, t, I.r1, J.r1) && Redirects(cert, t, I.r2, J.r2)
    ensures Idle(J)
  {
    RedirectedWidth(cert, t, I.r1, J.r1);
    RedirectedWidth(cert, t, I.r2, J.r2);
    hide EntriesOk, Redirects;
  }

  lemma ForwardedWord(cert: Cert, t: seq<Entry>, I: Instr, J: Instr, S: set<Var>)
    requires EntriesOk(cert, t) && SameForm(I, J) && WholeWord(cert, I)
    requires Redirects(cert, t, I.r1, J.r1) && Redirects(cert, t, I.r2, J.r2)
    requires forall e :: e in t ==> NonParams(e.source) <= S
    requires I.op.Arith? && IsTmp(I.dst) && I.dst.v.id in cert.defs && TiedToMemory(cert, I.dst.v.id) ==>
               S <= Sup(cert, I.dst.v.id)
    ensures WholeWord(cert, J)
  {
    RedirectedWidth(cert, t, I.r1, J.r1);
    RedirectedWidth(cert, t, I.r2, J.r2);
    if Calculates(I.op) && IsTmp(I.dst) {
      if Idle(I) { RedirectedIdle(cert, t, I, J); }
      if I.op.Arith? && I.dst.v.id in cert.defs { RedirectedOperands(cert, t, I, J, I.dst.v.id, S); }
    }
    hide Idle, EntriesOk, Redirects, Operands;
  }

  lemma ForwardedRelies(cert: Cert, t: seq<Entry>, I: Instr, J: Instr, S: set<Var>)
    requires SameForm(I, J) && Relies(cert, I) && Redirects(cert, t, I.r1, J.r1) && Redirects(cert, t, I.r2, J.r2)
    requires forall e :: e in t ==> NonParams(e.source) <= S
    requires I.op.Arith? && IsTmp(I.dst) && I.dst.v.id in cert.defs && TiedToMemory(cert, I.dst.v.id) ==>
               S <= Sup(cert, I.dst.v.id)
    ensures Relies(cert, J)
  {
    if I.op.Arith? && IsTmp(I.dst) && I.dst.v.id in cert.defs {
      assert I.dst.v in Written(I);
      RedirectedOperands(cert, t, I, J, I.dst.v.id, S);
    }
    hide Redirects, Operands;
  }

  lemma ForwardedAddressed(cert: Cert, t: seq<Entry>, I: Instr, J: Instr)
    requires EntriesOk(cert, t) && SameForm(I, J) && Addressed(cert, I) && StoresAddress(cert, I) && Unfused(I)
    requires WholeWord(cert, J) && Redirects(cert, t, I.r1, J.r1) && Redirects(cert, t, I.r2, J.r2)
    ensures Addressed(cert, J) && StoresAddress(cert, J)
  {
    RedirectedWidth(cert, t, I.r1, J.r1);
    RedirectedWidth(cert, t, I.r2, J.r2);
    if I.op.Arith? && IsTmp(I.dst) && I.dst.v in cert.addr { RedirectedAddresses(cert, t, I, J); }
    hide EntriesOk, Operands, Idle;
  }

  // ----- forwarding: a block -----

  /** A source stays available, in order and as it is. */
  predicate SourceOk(cert: Cert, F: Func, b: nat, i: nat, A: set<nat>, o: Operand)
    requires b < |F| && i <= |F[b]|
  {
    && Tracked(cert, Vars(o)) <= A && Tmps(Vars(o)) <= Defined(F, b, i) && Vars(o) <= Sources(F[b], i)
    && LastsFrom(cert, F[b], i, o)
  }

  /** What is tracked in front of instruction i of block b. */
  ghost predicate TableOk(cert: Cert, F: Func, b: nat, i: nat, t: seq<Entry>, A: set<nat>)
    requires b < |F| && i <= |F[b]|
  {
    && EntriesOk(cert, t) && OnePerSlot(t) && (forall e :: e in t ==> SourceOk(cert, F, b, i, A, e.source))
    && (t != [] ==> forall k :: i <= k < |F[b]| ==> !F[b][k].op.Phi?)
  }

  /** What a pass over the block has to show for the instruction it puts at (b, i). */
  predicate ForwardedOk(cert: Cert, F: Func, b: nat, i: nat, J: Instr)
    requires InFunc(F, b, i)
  {
    var I := F[b][i];
    && WholeWord(cert, J) && Relies(cert, J) && Addressed(cert, J) && StoresAddress(cert, J) && Unfused(J)
    && J.op == I.op && Written(J) == Written(I) && DefinedBy(J) == DefinedBy(I) && (J.op.Arith? ==> J.dst == I.dst)
    && Tmps(Reads(J)) <= Defined(F, b, i)
    && (J.op.Store? ==> Vars(J.r1) <= Sources(F[b], i + 1) && LastsFrom(cert, F[b], i, J.r1))
  }

  lemma NoEntriesNoChange(p: Pool, I: Instr)
    ensures RewriteAll(p, I, []) == I
  {
  }

  lemma SameEffects(I: Instr, J: Instr)
    requires SameForm(I, J) && !I.op.Phi?
    ensures Targets(J) == Targets(I) && DefinedBy(J) == DefinedBy(I) && Written(J) == Written(I)
    ensures Unfused(J) == Unfused(I)
  {
  }

  lemma OwnSource(cert: Cert, code: Code, i: nat)
    requires i < |code| && SourcesLast(cert, code) && code[i].op.Store?
    ensures Vars(code[i].r1) <= Sources(code, i + 1) && LastsFrom(cert, code, i, code[i].r1)
  {
  }

  lemma MoreSources(code: Code, i: nat, j: nat)
    requires i <= j <= |code|
    ensures Sources(code, i) <= Sources(code, j)
  {
  }

  lemma StoredSource(cert: Cert, F: Func, b: nat, i: nat, t: seq<Entry>, A: set<nat>, o: Operand)
    requires InFunc(F, b, i) && F[b][i].op.Store? && SourcesLast(cert, F[b]) && TableOk(cert, F, b, i, t, A)
    requires Redirects(cert, t, F[b][i].r1, o)
    ensures Vars(o) <= Sources(F[b], i + 1) && LastsFrom(cert, F[b], i, o)
  {
    hide LastsFrom, SourcesLast, Defined, Tracked, EntriesOk, OnePerSlot, Sources;
    OwnSource(cert, F[b], i);
    MoreSources(F[b], i, i + 1);
    if o != F[b][i].r1 {
      var e :| e in t && e.source == o;
      assert SourceOk(cert, F, b, i, A, e.source);
    }
  }

  lemma UnchangedOk(cert: Cert, F: Func, b: nat, i: nat)
    requires Optimisable(cert, F) && InFunc(F, b, i)
    ensures ForwardedOk(cert, F, b, i, F[b][i])
  {
    assert Tmps(Reads(F[b][i])) <= Defined(F, b, i);
    hide Optimisable, WholeWord, Relies, Addressed, StoresAddress, Unfused, Defined, Reads, Written, DefinedBy;
    hide LastsFrom;
    hide Sources, Settled, PhisFirst, Sourced, CertShape, SourcesLast;
    OptimisableAt(cert, F, b, i);
    if F[b][i].op.Store? { OwnSource(cert, F[b], i); }
  }

  lemma InOrder(cert: Cert, F: Func, b: nat, i: nat)
    requires Optimisable(cert, F) && InFunc(F, b, i)
    ensures Tmps(Reads(F[b][i])) <= Defined(F, b, i)
  {
    hide Certified, AllUnfused, WholeWords, AllSettled, AllAddressed, AllFlow, Defined, Reads;
  }

  /** The variables of the tracked sources. */
  function Sourcing(code: Code, i: nat): set<Var>
    requires i <= |code|
  {
    set v | v in Sources(code, i) && !v.kind.Param?
  }

  lemma SourcedTies(cert: Cert, code: Code, i: nat)
    requires i < |code| && Sourced(cert, code, i)
    ensures var I := code[i];
            I.op.Arith? && IsTmp(I.dst) && I.dst.v.id in cert.defs && TiedToMemory(cert, I.dst.v.id) ==>
              Sourcing(code, i) <= Sup(cert, I.dst.v.id)
  {
  }

  lemma TableSources(cert: Cert, F: Func, b: nat, i: nat, t: seq<Entry>, A: set<nat>)
    requires b < |F| && i <= |F[b]| && TableOk(cert, F, b, i, t, A)
    ensures EntriesOk(cert, t) && SourcesWithin(t, Defined(F, b, i)) && SourcesWithin(t, A + cert.buffers)
    ensures forall e :: e in t ==> NonParams(e.source) <= Sourcing(F[b], i)
  {
    hide Defined, LastsFrom;
  }

  /** The instruction at (b, i), rewritten with what is tracked there. */
  lemma ForwardedFits(p: Pool, cert: Cert, F: Func, b: nat, i: nat, t: seq<Entry>, A: set<nat>)
    requires Optimisable(cert, F) && InFunc(F, b, i) && TableOk(cert, F, b, i, t, A) && (F[b][i].op.Phi? ==> t == [])
    requires ReadsHere(cert, F[b][i]) <= A
    ensures var J := RewriteAll(p, F[b][i], t);
            ForwardedOk(cert, F, b, i, J) && ReadsHere(cert, J) <= A && Targets(J) == Targets(F[b][i])
  {
    hide Optimisable, TableOk, WholeWord, Relies, Addressed, StoresAddress, Unfused, Settled, PhisFirst, Sourced;
    hide CertShape;
    hide SourcesLast, LastsFrom, Defined, Reads, Written, DefinedBy, Targets, Sources, Sourcing, EntriesOk, Redirects;
    hide RewriteAll;
    var I, J := F[b][i], RewriteAll(p, F[b][i], t);
    if I.op.Phi? {
      NoEntriesNoChange(p, I);
      UnchangedOk(cert, F, b, i);
    } else {
      OptimisableAt(cert, F, b, i);
      InOrder(cert, F, b, i);
      TableSources(cert, F, b, i, t, A);
      RewriteAllForm(p, cert, I, t);
      RewriteAllReads(p, I, t, A + cert.buffers);
      RewriteAllReads(p, I, t, Defined(F, b, i));
      SourcedTies(cert, F[b], i);
      ForwardedWord(cert, t, I, J, Sourcing(F[b], i));
      ForwardedRelies(cert, t, I, J, Sourcing(F[b], i));
      ForwardedAddressed(cert, t, I, J);
      SameEffects(I, J);
      if I.op.Store? { StoredSource(cert, F, b, i, t, A, J.r1); }
    }
  }

  // ----- what is tracked after it -----

  lemma DefinedNext(F: Func, b: nat, i: nat)
    requires InFunc(F, b, i)
    ensures Defined(F, b, i) <= Defined(F, b, i + 1)
  {
  }

  lemma LastsLonger(cert: Cert, code: Code, i: nat, o: Operand)
    requires i < |code| && LastsFrom(cert, code, i, o)
    ensures LastsFrom(cert, code, i + 1, o) && LeavesAlone(cert, code[i], o)
  {
  }

  /** What is left alone stays available. */
  lemma StaysAvailable(cert: Cert, A: set<nat>, I: Instr, o: Operand)
    requires Tracked(cert, Vars(o)) <= A && LeavesAlone(cert, I, o) && !KillsAll(I.op)
    ensures Tracked(cert, Vars(o)) <= AfterInstr(cert, A, I)
  {
    hide Written;
    forall u | u in Tracked(cert, Vars(o)) ensures u in AfterInstr(cert, A, I) {
      assert o.v == Var(Tmp, u);
    }
  }

  lemma SourceNext(cert: Cert, F: Func, b: nat, i: nat, A: set<nat>, o: Operand)
    requires InFunc(F, b, i) && !KillsAll(F[b][i].op)
    requires Tracked(cert, Vars(o)) <= A && Tmps(Vars(o)) <= Defined(F, b, i) && Vars(o) <= Sources(F[b], i + 1)
    requires LastsFrom(cert, F[b], i, o)
    ensures SourceOk(cert, F, b, i + 1, AfterInstr(cert, A, F[b][i]), o)
  {
    hide LastsFrom, LeavesAlone, AfterInstr, Defined, Tracked;
    LastsLonger(cert, F[b], i, o);
    StaysAvailable(cert, A, F[b][i], o);
    DefinedNext(F, b, i);
  }

  lemma StoredEntry(cert: Cert, J: Instr, slot: Operand)
    requires WholeWord(cert, J) && StoresAddress(cert, J) && J.op.Store? && slot.Ref? && slot.v == J.dst.v
    requires forall v :: v in Written(J) ==> !v.kind.Param?
    ensures EntryOk(cert, Entry(slot, J.r1))
  {
    assert J.dst.v in Written(J);
  }

  lemma StoreReads(cert: Cert, J: Instr)
    requires J.op.Store?
    ensures Vars(J.r1) == Reads(J) && ReadsHere(cert, J) == Tracked(cert, Vars(J.r1))
  {
  }

  lemma NothingTracked(p: Pool, J: Instr)
    ensures J.op.Phi? || KillsAll(J.op) ==> Track(p, J, []) == []
    ensures forall t :: KillsAll(J.op) ==> Track(p, J, t) == []
  {
  }

  lemma TableEmpty(cert: Cert, F: Func, b: nat, i: nat, A: set<nat>)
    requires b < |F| && i <= |F[b]|
    ensures TableOk(cert, F, b, i, [], A)
  {
  }

  lemma TableNext(p: Pool, cert: Cert, F: Func, b: nat, i: nat, t: seq<Entry>, A: set<nat>, J: Instr)
    requires InFunc(F, b, i) && TableOk(cert, F, b, i, t, A) && ForwardedOk(cert, F, b, i, J) && ReadsHere(cert, J) <= A
    requires PhisFirst(F[b]) && !F[b][i].op.Phi? && !F[b][i].op.Nop? && forall v :: v in Written(F[b][i]) ==>
      !v.kind.Param?
    ensures TableOk(cert, F, b, i + 1, Track(p, J, t), AfterInstr(cert, A, F[b][i]))
  {
    hide WholeWord, Relies, Addressed, StoresAddress, Unfused, Defined, Reads, Written, DefinedBy, LastsFrom, Sources;
    hide EntryOk;
    hide Track, AfterInstr, Tracked, PhisFirst, ReadsHere;
    var t', A' := Track(p, J, t), AfterInstr(cert, A, F[b][i]);
    if KillsAll(J.op) {
      NothingTracked(p, J);
      TableEmpty(cert, F, b, i + 1, A');
    } else {
      if J.op.Store? {
        StoreWords(cert, J);
        TrackStore(p, J, t);
        StoreReads(cert, J);
      } else {
        TrackOther(p, J, t);
      }
      NoPhisAfter(F[b], i);
      MoreSources(F[b], i, i + 1);
      forall e | e in t' ensures EntryOk(cert, e) && SourceOk(cert, F, b, i + 1, A', e.source) {
        if e in t {
          assert SourceOk(cert, F, b, i, A, e.source);
        } else {
          assert e.slot.Ref? by { TrackedSlots(p, J, t, e); }
          StoredEntry(cert, J, e.slot);
        }
        SourceNext(cert, F, b, i, A, e.source);
      }
    }
  }

  lemma TrackedSlots(p: Pool, J: Instr, t: seq<Entry>, e: Entry)
    requires OnePerSlot(Track(p, J, t)) && e in Track(p, J, t)
    ensures e.slot.Ref?
  {
  }

  lemma TableSkips(cert: Cert, F: Func, b: nat, i: nat, t: seq<Entry>, A: set<nat>)
    requires InFunc(F, b, i) && TableOk(cert, F, b, i, t, A) && (F[b][i].op.Nop? || t == [])
    ensures TableOk(cert, F, b, i + 1, t, AfterInstr(cert, A, F[b][i]))
  {
    hide Defined, LastsFrom, Sources, EntryOk, Tracked, AfterInstr;
    if t == [] {
      TableEmpty(cert, F, b, i + 1, AfterInstr(cert, A, F[b][i]));
    } else {
      CE.NopChangesNothing(cert, A, F[b][i]);
      MoreSources(F[b], i, i + 1);
      forall e | e in t ensures SourceOk(cert, F, b, i + 1, A, e.source) {
        assert SourceOk(cert, F, b, i, A, e.source);
        LastsLonger(cert, F[b], i, e.source);
        DefinedNext(F, b, i);
      }
    }
  }

  // ----- forwarding keeps the condition -----

  ghost predicate AllForwarded(cert: Cert, F: Func, b: nat, i: nat, code: Code)
    requires b < |F| && i + |code| == |F[b]|
  {
    forall k: nat :: k < |code| ==> ForwardedOk(cert, F, b, i + k, code[k])
  }

  lemma EdgesElsewhere(cert: Cert, F: Func, H: Func, b: nat, I: Instr, J: Instr, A: set<nat>)
    requires |cert.avail| == |F| && CE.SameMoves(F, H) && Targets(J) == Targets(I)
    requires forall c :: c in Targets(I) && c < |F| ==> EdgeOk(cert, F, b, c, A)
    ensures forall c :: c in Targets(J) && c < |H| ==> EdgeOk(cert, H, b, c, A)
  {
    hide PhiMoves, Targets, Refresh;
  }

  lemma SameOpWrites(cert: Cert, F: Func, b: nat, i: nat, J: Instr, A: set<nat>)
    requires InFunc(F, b, i) && ForwardedOk(cert, F, b, i, J) && WritesOk(cert, A, F[b][i])
    ensures WritesOk(cert, A, J) && AfterInstr(cert, A, J) == AfterInstr(cert, A, F[b][i])
  {
    hide WholeWord, Relies, Addressed, StoresAddress, Unfused, Defined, Reads, Written, DefinedBy, LastsFrom, Sources;
    SameWrites(cert, A, F[b][i], J);
  }

  /** The next table and what the pass puts in place of the instruction. */
  lemma ForwardHere(p: Pool, cert: Cert, F: Func, b: nat, i: nat, t: seq<Entry>, A: set<nat>)
    returns (J: Instr, t': seq<Entry>)
    requires Optimisable(cert, F) && InFunc(F, b, i) && TableOk(cert, F, b, i, t, A) && ReadsHere(cert, F[b][i]) <= A
    ensures ForwardedOk(cert, F, b, i, J) && ReadsHere(cert, J) <= A && Targets(J) == Targets(F[b][i])
    ensures TableOk(cert, F, b, i + 1, t', AfterInstr(cert, A, F[b][i]))
    ensures ForwardCode(p, F[b][i..], t) == [J] + ForwardCode(p, F[b][i + 1..], t')
  {
    hide Optimisable, ForwardedOk, WholeWord, Relies, Addressed, StoresAddress, Unfused, Settled, Sourced, SourcesLast;
    hide CertShape;
    hide PhisFirst, Written, Targets, ReadsHere, AfterInstr, RewriteAll, Track;
    var I, code := F[b][i], F[b][i..];
    assert code[0] == I && code[1..] == F[b][i + 1..];
    OptimisableAt(cert, F, b, i);
    if I.op.Phi? { TablePhi(cert, F, b, i, t, A); }
    hide TableOk;
    if I.op.Nop? {
      J, t' := I, t;
      UnchangedOk(cert, F, b, i);
      TableSkips(cert, F, b, i, t, A);
    } else {
      J := RewriteAll(p, I, t);
      t' := Track(p, J, t);
      ForwardedFits(p, cert, F, b, i, t, A);
      if I.op.Phi? {
        NoEntriesNoChange(p, I);
        NothingTracked(p, J);
        TableSkips(cert, F, b, i, t, A);
      } else {
        TableNext(p, cert, F, b, i, t, A, J);
      }
    }
  }

  lemma TablePhi(cert: Cert, F: Func, b: nat, i: nat, t: seq<Entry>, A: set<nat>)
    requires InFunc(F, b, i) && TableOk(cert, F, b, i, t, A) && F[b][i].op.Phi?
    ensures t == []
  {
  }

  lemma {:induction false} ForwardSuffix(p: Pool, cert: Cert, F: Func, H: Func, b: nat, i: nat, t: seq<Entry>,
                                         A: set<nat>)
    requires Optimisable(cert, F) && |cert.avail| == |F| && CE.SameMoves(F, H) && b < |F| && i <= |F[b]|
    requires TableOk(cert, F, b, i, t, A) && CodeOk(cert, F, b, F[b][i..], A)
    ensures var out := ForwardCode(p, F[b][i..], t);
            CodeOk(cert, H, b, out, A) && AllForwarded(cert, F, b, i, out)
    decreases |F[b]| - i
  {
    hide Optimisable, TableOk, ForwardedOk, WritesOk, ReadsHere, EdgeOk, Targets, AfterInstr, PhiMoves, ForwardCode;
    var code, out := F[b][i..], ForwardCode(p, F[b][i..], t);
    if i == |F[b]| {
      assert code == [];
    } else {
      var I := F[b][i];
      assert code[0] == I && code[1..] == F[b][i + 1..];
      var J, t' := ForwardHere(p, cert, F, b, i, t, A);
      SameOpWrites(cert, F, b, i, J, A);
      ForwardSuffix(p, cert, F, H, b, i + 1, t', AfterInstr(cert, A, I));
      var rest := ForwardCode(p, F[b][i + 1..], t');
      assert out[0] == J && out[1..] == rest;
      EdgesElsewhere(cert, F, H, b, I, J, A);
      forall k: nat | k < |out| ensures ForwardedOk(cert, F, b, i + k, out[k]) {
        if k > 0 { assert ForwardedOk(cert, F, b, i + 1 + (k - 1), rest[k - 1]); }
      }
    }
  }

  lemma ForwardSameMoves(p: Pool, F: Func)
    requires AllSettled(F)
    ensures FuncHazardFree(p, F) && CE.SameMoves(F, ForwardFunc(p, F))
  {
    hide PhiMoves, HazardFree, Settled, ForwardCode;
    forall b | 0 <= b < |F| ensures HazardFree(p, F[b], []) {
      assert OnePerSlot([]) && Carries(F[b], []);
      SettledIsHazardFree(p, F[b], []);
    }
    forall b, from: nat | 0 <= b < |F| ensures PhiMoves(F[b], from) == PhiMoves(ForwardFunc(p, F)[b], from) {
      ForwardPhis(p, F[b], [], from);
    }
  }

  /** All instructions of H are what a pass may put in place of those of F. */
  ghost predicate ForwardedFunc(cert: Cert, F: Func, H: Func)
  {
    && |H| == |F| && (forall b :: 0 <= b < |F| ==> |H[b]| == |F[b]|)
    && forall b, i :: InFunc(F, b, i) ==> ForwardedOk(cert, F, b, i, H[b][i])
  }

  lemma {:induction false} SameDefined(cert: Cert, F: Func, H: Func, b: nat, i: nat)
    requires ForwardedFunc(cert, F, H) && Position(F, b, i)
    ensures Position(H, b, i) && Defined(H, b, i) == Defined(F, b, i)
    decreases b, i
  {
    hide WholeWord, Relies, Addressed, StoresAddress, Unfused, Reads, Written, DefinedBy, LastsFrom, Sources;
    if i > 0 {
      SameDefined(cert, F, H, b, i - 1);
      assert InFunc(F, b, i - 1);
    } else if b > 0 {
      SameDefined(cert, F, H, b - 1, |F[b - 1]|);
    }
  }

  lemma ForwardOrder(cert: Cert, F: Func, H: Func)
    requires ForwardedFunc(cert, F, H) && ListOrder(F)
    ensures ListOrder(H)
  {
    hide WholeWord, Relies, Addressed, StoresAddress, Unfused, Reads, Written, DefinedBy, LastsFrom, Sources, Defined;
    forall b, i | InFunc(H, b, i)
      ensures Tmps(Reads(H[b][i])) <= Defined(H, b, i) && DefinedBy(H[b][i]) !! Defined(H, b, i)
    {
      assert InFunc(F, b, i);
      SameDefined(cert, F, H, b, i);
      assert ForwardedOk(cert, F, b, i, H[b][i]);
    }
  }

  lemma ForwardLasting(cert: Cert, F: Func, H: Func, b: nat)
    requires ForwardedFunc(cert, F, H) && b < |F|
    ensures SourcesLast(cert, H[b])
  {
    hide WholeWord, Relies, Addressed, StoresAddress, Unfused, Reads, Written, DefinedBy, Sources, Defined;
    forall i, j | 0 <= i <= j < |H[b]| && H[b][i].op.Store? ensures LeavesAlone(cert, H[b][j], H[b][i].r1) {
      assert InFunc(F, b, i) && InFunc(F, b, j);
      assert ForwardedOk(cert, F, b, i, H[b][i]) && ForwardedOk(cert, F, b, j, H[b][j]);
      assert LeavesAlone(cert, F[b][j], H[b][i].r1);
    }
  }

  lemma ForwardSources(cert: Cert, F: Func, H: Func, b: nat, i: nat)
    requires ForwardedFunc(cert, F, H) && b < |F| && i <= |F[b]|
    ensures Sources(H[b], i) <= Sources(F[b], i)
  {
    hide WholeWord, Relies, Addressed, StoresAddress, Unfused, Reads, Written, DefinedBy, Defined, LastsFrom;
    forall v | v in Sources(H[b], i) ensures v in Sources(F[b], i) {
      var k :| 0 <= k < i && H[b][k].op.Store? && H[b][k].r1.Ref? && H[b][k].r1.v == v;
      assert InFunc(F, b, k) && ForwardedOk(cert, F, b, k, H[b][k]);
      MoreSources(F[b], k + 1, i);
      assert v in Vars(H[b][k].r1);
    }
  }

  lemma ForwardSourced(cert: Cert, F: Func, H: Func, b: nat, i: nat)
    requires ForwardedFunc(cert, F, H) && InFunc(F, b, i) && Sourced(cert, F[b], i)
    ensures Sourced(cert, H[b], i)
  {
    hide WholeWord, Relies, Addressed, StoresAddress, Unfused, Reads, Written, DefinedBy, Defined, LastsFrom, Sources;
    assert ForwardedOk(cert, F, b, i, H[b][i]);
    ForwardSources(cert, F, H, b, i);
  }

  lemma SameOpsPhisFirst(cert: Cert, F: Func, H: Func, b: nat)
    requires ForwardedFunc(cert, F, H) && b < |F| && PhisFirst(F[b])
    ensures PhisFirst(H[b])
  {
    hide WholeWord, Relies, Addressed, StoresAddress, Unfused, Reads, Written, DefinedBy, Defined, LastsFrom, Sources;
    forall i | 0 <= i < |F[b]| ensures H[b][i].op == F[b][i].op {
      assert InFunc(F, b, i) && ForwardedOk(cert, F, b, i, H[b][i]);
    }
  }

  lemma ForwardTogether(cert: Cert, F: Func, H: Func)
    requires Optimisable(cert, F) && Certified(cert, H) && ForwardedFunc(cert, F, H)
    ensures Optimisable(cert, H)
  {
    assert ListOrder(F);
    ForwardOrder(cert, F, H);
    hide Optimisable, Certified, ListOrder, WholeWord, Relies, Addressed, StoresAddress, Unfused, Reads, Written;
    hide DefinedBy;
    hide Defined, LastsFrom, Sources, Sourced, SourcesLast, Settled, PhisFirst, CertShape;
    forall b, i | InFunc(H, b, i)
      ensures WholeWord(cert, H[b][i]) && Relies(cert, H[b][i]) && Addressed(cert, H[b][i]) && Unfused(H[b][i])
      ensures StoresAddress(cert, H[b][i]) && Sourced(cert, H[b], i)
    {
      assert InFunc(F, b, i) && ForwardedOk(cert, F, b, i, H[b][i]);
      OptimisableAt(cert, F, b, i);
      ForwardSourced(cert, F, H, b, i);
    }
    forall b | 0 <= b < |H| ensures Settled(H[b]) && SourcesLast(cert, H[b]) {
      ForwardLasting(cert, F, H, b);
      assert PhisFirst(F[b]) by { BlockPhisFirst(cert, F, b); }
      SameOpsPhisFirst(cert, F, H, b);
      forall i | 0 <= i < |H[b]| ensures WholeWord(cert, H[b][i]) { assert InFunc(H, b, i); }
      LastingIsSettled(cert, H[b]);
    }
    PutTogether(cert, H);
  }

  lemma BlockPhisFirst(cert: Cert, F: Func, b: nat)
    requires Optimisable(cert, F) && b < |F|
    ensures PhisFirst(F[b])
  {
    hide Certified, ListOrder, AllUnfused, WholeWords, AllAddressed, AllFlow, PhisFirst;
    SettledPhisFirst(F[b]);
  }

  /** Forwarding keeps the condition, certificate and all. */
  lemma ForwardKeepsOptimisable(p: Pool, cert: Cert, F: Func)
    requires Optimisable(cert, F)
    ensures Optimisable(cert, ForwardFunc(p, F)) && CE.SameMoves(F, ForwardFunc(p, F))
  {
    var H := ForwardFunc(p, F);
    assert AllSettled(F) && Certified(cert, F);
    hide Optimisable, ListOrder, CodeOk, Closed, ForwardedOk, ForwardCode, Settled, CertShape, PhiMoves, TableOk;
    ForwardSameMoves(p, F);
    forall b | 0 <= b < |F| ensures CodeOk(cert, H, b, H[b], cert.avail[b]) && AllForwarded(cert, F, b, 0, H[b]) {
      assert F[b][0..] == F[b];
      TableEmpty(cert, F, b, 0, cert.avail[b]);
      ForwardSuffix(p, cert, F, H, b, 0, [], cert.avail[b]);
    }
    forall b, i | InFunc(F, b, i) ensures ForwardedOk(cert, F, b, i, H[b][i]) {
      assert AllForwarded(cert, F, b, 0, H[b]);
      assert ForwardedOk(cert, F, b, 0 + i, H[b][i]);
    }
    ForwardTogether(cert, F, H);
  }

  // ----- rounds -----

  /** n rounds of folding and then forwarding. */
  function Rounds(p: Pool, F: Func, n: nat): Func
  {
    if n == 0 then F else ForwardFunc(p, Fold(Rounds(p, F, n - 1)))
  }

  lemma RoundsNone(p: Pool, F: Func)
    ensures Rounds(p, F, 0) == F
  {
  }

  lemma RoundNext(p: Pool, F: Func, n: nat)
    ensures Rounds(p, F, n + 1) == ForwardFunc(p, Fold(Rounds(p, F, n)))
  {
  }

  /** The temporaries the rounds have folded away. */
  function FoldedIn(p: Pool, F: Func, n: nat): Dead
  {
    if n == 0 then Dead({}, {}) else Both(FoldedIn(p, F, n - 1), Folded(Rounds(p, F, n - 1)))
  }

  /** Buffers are not computed, and the run begins at the entry. */
  ghost predicate Begins(M: Machine, cert: Cert, F: Func, c: Config)
  {
    Plain(M, cert) && Initial(cert, F, c)
  }

  lemma FoldBegins(M: Machine, cert: Cert, F: Func, c: Config)
    requires Foldable(cert, F) && Begins(M, cert, F, c)
    ensures Begins(M, FoldedCert(cert, F), Fold(F), c)
  {
    assert CertShape(cert) && FoldSafe(cert, F);
    hide Foldable, CertShape, FoldSafe, PhiMoves, HalfStep, Rho, Final;
    FoldKeepsCert(cert, F);
    assert F[0][0..] == F[0] && Half(F)[0][0..] == Half(F)[0];
    assert Closed(cert, {}) by { NothingClosed(cert); }
    HalfMovesAlike(cert, F, 0, 0, c.from, {});
    assert PhiMoves(Half(F)[0], c.from) == [];
  }

  lemma NothingClosed(cert: Cert)
    ensures Closed(cert, {})
  {
  }

  lemma ForwardBegins(M: Machine, p: Pool, cert: Cert, F: Func, c: Config)
    requires Begins(M, cert, F, c) && CE.SameMoves(F, ForwardFunc(p, F))
    ensures Begins(M, cert, ForwardFunc(p, F), c)
  {
    hide PhiMoves, ForwardCode, Plain;
  }

  /** One round keeps the condition and changes no run but for what it folds away. */
  lemma RoundPreserves(M: Machine, p: Pool, cert: Cert, F: Func, c: Config)
    requires Optimisable(cert, F) && Begins(M, cert, F, c)
    ensures var H, less := ForwardFunc(p, Fold(F)), FoldedCert(cert, F);
            && Optimisable(less, H) && Begins(M, less, H, c)
            && forall n: nat :: SameConfig(Folded(F), Run(M, F, c, n), Run(M, H, c, n))
  {
    OptimisableIsFoldable(cert, F);
    FoldKeepsOptimisable(cert, F);
    FoldBegins(M, cert, F, c);
    var G, less := Fold(F), FoldedCert(cert, F);
    assert AllSettled(G);
    ForwardSameMoves(p, G);
    hide Optimisable, Foldable, Run, Folded, SameConfig, ForwardFunc, Fold, FoldedCert, FuncHazardFree;
    ForwardKeepsOptimisable(p, less, G);
    ForwardBegins(M, p, less, G, c);
    forall n: nat ensures SameConfig(Folded(F), Run(M, F, c, n), Run(M, ForwardFunc(p, G), c, n)) {
      assert Plain(M, cert) && Initial(cert, F, c);
      FoldPreservesRuns(M, cert, F, c, n);
      ForwardPreservesRuns(M, p, G, c, n);
    }
  }

  /** Any number of rounds: the condition on the first function keeps every run, with every slot and every
      temporary that was not folded away. */
  lemma {:induction false} RoundsPreserve(M: Machine, p: Pool, cert: Cert, F: Func, k: nat, c: Config)
    returns (last: Cert)
    requires Optimisable(cert, F) && Begins(M, cert, F, c)
    ensures Optimisable(last, Rounds(p, F, k)) && Begins(M, last, Rounds(p, F, k), c)
    ensures forall n: nat :: SameConfig(FoldedIn(p, F, k), Run(M, F, c, n), Run(M, Rounds(p, F, k), c, n))
    decreases k
  {
    hide Optimisable, Begins, Run, SameConfig, ForwardFunc, Fold, Folded, FoldedCert;
    if k == 0 {
      last := cert;
      forall n: nat ensures SameConfig(FoldedIn(p, F, 0), Run(M, F, c, n), Run(M, F, c, n)) {
        SameConfigReflexive(FoldedIn(p, F, 0), Run(M, F, c, n));
      }
    } else {
      var G := Rounds(p, F, k - 1);
      var before := RoundsPreserve(M, p, cert, F, k - 1, c);
      RoundPreserves(M, p, before, G, c);
      last := FoldedCert(before, G);
      var H, d, e := ForwardFunc(p, Fold(G)), FoldedIn(p, F, k - 1), Folded(G);
      forall n: nat ensures SameConfig(Both(d, e), Run(M, F, c, n), Run(M, H, c, n)) {
        SameConfigTransitive(d, e, Run(M, F, c, n), Run(M, G, c, n), Run(M, H, c, n));
      }
    }
  }

  /** The rounds mean what the function they started from meant. */
  ghost predicate RoundsKept(p: Pool, F: Func, k: nat)
  {
    forall M: Machine, cert: Cert, c: Config, n: nat :: Optimisable(cert, F) && Begins(M, cert, F, c) ==>
      SameConfig(FoldedIn(p, F, k), Run(M, F, c, n), Run(M, Rounds(p, F, k), c, n))
  }

  lemma RoundsAreKept(p: Pool, F: Func, k: nat)
    ensures RoundsKept(p, F, k)
  {
    hide Optimisable, Begins, Run, SameConfig, FoldedIn, Rounds;
    forall M: Machine, cert: Cert, c: Config, n: nat | Optimisable(cert, F) && Begins(M, cert, F, c)
      ensures SameConfig(FoldedIn(p, F, k), Run(M, F, c, n), Run(M, Rounds(p, F, k), c, n))
    {
      var last := RoundsPreserve(M, p, cert, F, k, c);
    }
  }
}
