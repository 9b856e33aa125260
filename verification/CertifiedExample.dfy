/**
 The condition of the optimiser met by code the front end emits: two whole functions as they are dumped before
 optimisation, a field access through a pointer in a frame slot, and code where a round of forwarding gives the next
 round of folding something to do.
 */
module CertifiedExample {
  import opened Options
  import opened Words
  import opened Ir
  import opened Equivalence
  import opened Evaluate
  import opened Ssa
  import opened ConstFold
  import opened Forward
  import opened Fuse
  import opened FuseLimits
  import opened FusionSafe
  import opened RoundsKeep
  import opened LocalCode
  import opened Pipeline
  import opened Samples

  function LoadOf(dst: Operand, src: Operand): Instr
  {
    NopInstr().(op := Load, dst := dst, r1 := src)
  }

  function AllocaOf(dst: Operand): Instr
  {
    NopInstr().(op := Alloca, dst := dst, r1 := Const(8, 8))
  }

  function LessOf(dst: Operand, a: Operand, b: Operand): Instr
  {
    NopInstr().(op := ICmp(Lt), dst := dst, r1 := a, r2 := b)
  }

  function BrOf(c: Operand, t: nat, f: nat): Instr
  {
    NopInstr().(op := Br(t, f), dst := c)
  }

  function T(n: nat): Operand { Word8(Var(Tmp, n)) }

  /** The parameter, in the register it arrives in. */
  function P(n: nat): Operand { Ref(Var(Param, n), 8, Some(X(0)), false) }

  /** Returns its parameter plus one, by way of a frame slot and a return slot. */
  function Inc(): Func
  {
    [[StoreOf(WordSlot(2), P(1)), AllocaOf(T(3)), Add(T(4), WordSlot(2), Const(1, 8)), StoreOf(T(3), T(4)), JmpTo(1)],
     [LoadOf(T(5), T(3)), RetOf(T(5))]]
  }

  function IncCert(): Cert { LocalCert(2, map[], {3}, {}, {}) }

  function IncHomes(): Homes { map[3 := (0, 1), 4 := (0, 2), 5 := (1, 0)] }

  lemma IncEntryAtHome()
    ensures BlockAtHome(IncCert(), Inc(), IncHomes(), 0)
  {
  }

  lemma IncEntryFine()
    ensures forall i :: 0 <= i < |Inc()[0]| ==> Undemanding(IncCert(), Inc()[0], i)
  {
  }

  lemma IncExit()
    ensures BlockAtHome(IncCert(), Inc(), IncHomes(), 1)
    ensures forall i :: 0 <= i < |Inc()[1]| ==> Undemanding(IncCert(), Inc()[1], i)
  {
  }

  lemma IncFits()
    ensures LocallyFit(IncCert(), Inc(), IncHomes())
  {
    hide BlockAtHome, BlockSuits, Undemanding;
    IncEntryAtHome();
    IncEntryFine();
    UndemandingSuits(IncCert(), Inc(), 0);
    IncExit();
    UndemandingSuits(IncCert(), Inc(), 1);
  }

  /** A slot plus a constant, stored to the return slot, is no obstacle. */
  lemma IncOptimisable()
    ensures Optimisable(IncCert(), Inc()) && Fusible(IncCert(), Inc())
  {
    hide Optimisable, Fusible, LocallyFit;
    IncFits();
    LocalIsOptimisable(IncCert(), Inc(), IncHomes());
    OptimisableIsFusible(IncCert(), Inc());
  }

  /** Sums what is below its parameter, in a loop over two frame slots. */
  function Sum(): Func
  {
    [[StoreOf(WordSlot(2), P(1)), AllocaOf(T(3)), StoreOf(WordSlot(4), Const(0, 8)), StoreOf(WordSlot(5), Const(0, 8)),
      JmpTo(1)],
     [LessOf(T(6), WordSlot(5), WordSlot(2)), BrOf(T(6), 2, 4)],
     [Add(WordSlot(4), WordSlot(4), WordSlot(5)), JmpTo(3)],
     [LoadOf(T(8), WordSlot(5)), Add(T(9), T(8), Const(1, 8)), StoreOf(WordSlot(5), T(9)), JmpTo(1)],
     [StoreOf(T(3), WordSlot(4)), JmpTo(5)],
     [LoadOf(T(10), T(3)), RetOf(T(10))]]
  }

  function SumCert(): Cert { LocalCert(6, map[], {3}, {}, {}) }

  function SumHomes(): Homes { map[3 := (0, 1), 6 := (1, 0), 8 := (3, 0), 9 := (3, 1), 10 := (5, 0)] }

  lemma SumEntryAtHome()
    ensures BlockAtHome(SumCert(), Sum(), SumHomes(), 0)
  {
  }

  lemma SumEntryFine()
    ensures forall i :: 0 <= i < |Sum()[0]| ==> Undemanding(SumCert(), Sum()[0], i)
  {
  }

  lemma SumTest()
    ensures BlockAtHome(SumCert(), Sum(), SumHomes(), 1)
    ensures forall i :: 0 <= i < |Sum()[1]| ==> Undemanding(SumCert(), Sum()[1], i)
  {
  }

  lemma SumBody()
    ensures BlockAtHome(SumCert(), Sum(), SumHomes(), 2)
    ensures forall i :: 0 <= i < |Sum()[2]| ==> Undemanding(SumCert(), Sum()[2], i)
  {
  }

  lemma SumNextAtHome()
    ensures BlockAtHome(SumCert(), Sum(), SumHomes(), 3)
  {
  }

  lemma SumNextFine()
    ensures forall i :: 0 <= i < |Sum()[3]| ==> Undemanding(SumCert(), Sum()[3], i)
  {
  }

  lemma SumResult()
    ensures BlockAtHome(SumCert(), Sum(), SumHomes(), 4)
    ensures forall i :: 0 <= i < |Sum()[4]| ==> Undemanding(SumCert(), Sum()[4], i)
  {
  }

  lemma SumExit()
    ensures BlockAtHome(SumCert(), Sum(), SumHomes(), 5)
    ensures forall i :: 0 <= i < |Sum()[5]| ==> Undemanding(SumCert(), Sum()[5], i)
  {
  }

  lemma SumSuits()
    ensures forall b :: 0 <= b < |Sum()| ==> BlockSuits(SumCert(), Sum(), b)
  {
    hide BlockSuits, Undemanding;
    SumEntryFine();
    SumTest();
    SumBody();
    SumNextFine();
    SumResult();
    SumExit();
    forall b | 0 <= b < |Sum()| ensures BlockSuits(SumCert(), Sum(), b) {
      UndemandingSuits(SumCert(), Sum(), b);
    }
  }

  lemma SumAtHome()
    ensures forall b :: 0 <= b < |Sum()| ==> BlockAtHome(SumCert(), Sum(), SumHomes(), b)
  {
    hide BlockAtHome, Undemanding;
    SumEntryAtHome();
    SumTest();
    SumBody();
    SumNextAtHome();
    SumResult();
    SumExit();
  }

  lemma SumFits()
    ensures LocallyFit(SumCert(), Sum(), SumHomes())
  {
    hide BlockAtHome, BlockSuits;
    SumAtHome();
    SumSuits();
  }

  /** Nor is a loop that compares two slots. */
  lemma SumOptimisable()
    ensures Optimisable(SumCert(), Sum()) && Fusible(SumCert(), Sum())
  {
    hide Optimisable, Fusible, LocallyFit;
    SumFits();
    LocalIsOptimisable(SumCert(), Sum(), SumHomes());
    OptimisableIsFusible(SumCert(), Sum());
  }

  // ----- what one round forwards the next one folds -----

  /** Two constants stored to slots, then `rest`. */
  function AfterStores(a: Signed, b: Signed, rest: Code): Code
  {
    [StoreOf(WordSlot(1), Const(a, 8))] + ([StoreOf(WordSlot(2), Const(b, 8))] + rest)
  }

  /** x + y is computed into a temporary, which is returned. */
  function SumOf(x: Operand, y: Operand): Code
  {
    [Add(T(3), x, y), RetOf(T(3))]
  }

  /** The addition is gone, and the constant is returned. */
  function Returning(v: Signed): Code
  {
    [NopInstr().(dst := T(3)), RetOf(Const(v, 8))]
  }

  function SlotSum(a: Signed, b: Signed): Func
  {
    [AfterStores(a, b, SumOf(WordSlot(1), WordSlot(2)))]
  }

  function SlotSumCert(): Cert
  {
    LocalCert(1, map[3 := {Var(Local, 1), Var(Local, 2)}], {}, {3}, {})
  }

  function SlotSumHomes(): Homes { map[3 := (0, 2)] }

  lemma SlotSumAtHome(a: Signed, b: Signed)
    ensures BlockAtHome(SlotSumCert(), SlotSum(a, b), SlotSumHomes(), 0)
  {
  }

  lemma SlotSumSuits(a: Signed, b: Signed)
    ensures BlockSuits(SlotSumCert(), SlotSum(a, b), 0)
  {
  }

  lemma SlotSumFits(a: Signed, b: Signed)
    ensures LocallyFit(SlotSumCert(), SlotSum(a, b), SlotSumHomes())
  {
    hide BlockAtHome, BlockSuits;
    SlotSumAtHome(a, b);
    SlotSumSuits(a, b);
  }

  function Known(a: Signed, b: Signed): seq<Entry>
  {
    [Entry(WordSlot(1), Const(a, 8)), Entry(WordSlot(2), Const(b, 8))]
  }

  lemma ForwardFirst(p: Pool, I: Instr, rest: Code, t: seq<Entry>)
    ensures ForwardCode(p, [I] + rest, t) ==
            if I.op.Nop? then [I] + ForwardCode(p, rest, t)
            else [RewriteAll(p, I, t)] + ForwardCode(p, rest, Track(p, RewriteAll(p, I, t), t))
  {
    assert ([I] + rest)[1..] == rest;
  }

  lemma RewriteBoth(p: Pool, I: Instr, e: Entry, f: Entry)
    ensures RewriteAll(p, I, [e]) == RewriteOperands(p, I, e)
    ensures RewriteAll(p, I, [e, f]) == RewriteOperands(p, RewriteOperands(p, I, e), f)
  {
    hide RewriteOperands;
    assert RewriteAll(p, RewriteOperands(p, I, e), [f]) == RewriteOperands(p, RewriteOperands(p, I, e), f);
    assert [e, f][1..] == [f];
  }

  lemma {:induction false} ConstantsStay(p: Pool, I: Instr, t: seq<Entry>, j: nat)
    requires j <= |t| && forall e :: e in t ==> e.source.Const?
    ensures DropClobbered(p, I, t, j) == t
    decreases |t| - j
  {
    if j < |t| { ConstantsStay(p, I, t, j + 1); }
  }

  lemma {:induction false} NotFound(t: seq<Entry>, o: Operand)
    requires forall e :: e in t ==> !Matches(o, e.slot)
    ensures Find(t, o) == |t|
    decreases |t|
  {
    if t != [] { NotFound(t[1..], o); }
  }

  lemma {:induction false} StoreKept(p: Pool, n: nat, k: Signed, t: seq<Entry>)
    ensures RewriteAll(p, StoreOf(WordSlot(n), Const(k, 8)), t) == StoreOf(WordSlot(n), Const(k, 8))
    decreases |t|
  {
    if t != [] { StoreKept(p, n, k, t[1..]); }
  }

  lemma StoreTracked(p: Pool, n: nat, k: Signed, t: seq<Entry>)
    requires forall e :: e in t ==> e.source.Const? && !Matches(WordSlot(n), e.slot)
    ensures Track(p, StoreOf(WordSlot(n), Const(k, 8)), t) == t + [Entry(WordSlot(n), Const(k, 8))]
  {
    ConstantsStay(p, StoreOf(WordSlot(n), Const(k, 8)), t, 0);
    NotFound(t, WordSlot(n));
  }

  lemma StoreForwarded(p: Pool, n: nat, k: Signed, t: seq<Entry>, rest: Code)
    requires forall e :: e in t ==> e.source.Const? && !Matches(WordSlot(n), e.slot)
    ensures ForwardCode(p, [StoreOf(WordSlot(n), Const(k, 8))] + rest, t) ==
            [StoreOf(WordSlot(n), Const(k, 8))] + ForwardCode(p, rest, t + [Entry(WordSlot(n), Const(k, 8))])
  {
    hide RewriteAll, ForwardCode, Track, Matches;
    StoreKept(p, n, k, t);
    StoreTracked(p, n, k, t);
    ForwardFirst(p, StoreOf(WordSlot(n), Const(k, 8)), rest, t);
  }

  lemma StoresTracked(p: Pool, a: Signed, b: Signed, rest: Code)
    ensures ForwardCode(p, AfterStores(a, b, rest), []) == AfterStores(a, b, ForwardCode(p, rest, Known(a, b)))
  {
    hide ForwardCode;
    StoreForwarded(p, 1, a, [], [StoreOf(WordSlot(2), Const(b, 8))] + rest);
    StoreForwarded(p, 2, b, [Known(a, b)[0]], rest);
    assert [] + [Known(a, b)[0]] == [Known(a, b)[0]] && [Known(a, b)[0]] + [Known(a, b)[1]] == Known(a, b);
  }

  lemma SumRewritten(p: Pool, a: Signed, b: Signed)
    ensures RewriteAll(p, Add(T(3), WordSlot(1), WordSlot(2)), Known(a, b)) == Add(T(3), Const(a, 8), Const(b, 8))
    ensures Track(p, Add(T(3), Const(a, 8), Const(b, 8)), Known(a, b)) == Known(a, b)
  {
    RewriteBoth(p, Add(T(3), WordSlot(1), WordSlot(2)), Known(a, b)[0], Known(a, b)[1]);
    ConstantsStay(p, Add(T(3), Const(a, 8), Const(b, 8)), Known(a, b), 0);
    NotFound(Known(a, b), T(3));
  }

  lemma ReturnKept(p: Pool, a: Signed, b: Signed, o: Operand)
    requires o.Ref? ==> !o.v.kind.Local?
    ensures ForwardCode(p, [RetOf(o)], Known(a, b)) == [RetOf(o)]
  {
    RewriteBoth(p, RetOf(o), Known(a, b)[0], Known(a, b)[1]);
    ForwardFirst(p, RetOf(o), [], Known(a, b));
  }

  lemma SumForwarded(p: Pool, a: Signed, b: Signed, v: Signed)
    ensures ForwardCode(p, SumOf(WordSlot(1), WordSlot(2)), Known(a, b)) == SumOf(Const(a, 8), Const(b, 8))
    ensures ForwardCode(p, Returning(v), Known(a, b)) == Returning(v)
  {
    SumRewritten(p, a, b);
    ReturnKept(p, a, b, T(3));
    ReturnKept(p, a, b, Const(v, 8));
    hide RewriteAll, ForwardCode, Track, Known;
    ForwardFirst(p, Add(T(3), WordSlot(1), WordSlot(2)), [RetOf(T(3))], Known(a, b));
    ForwardFirst(p, Returning(v)[0], [RetOf(Const(v, 8))], Known(a, b));
  }

  /** Nothing is known of the temporaries before the addition, and nothing to be found out from slots. */
  lemma SlotSumUnfolded(a: Signed, b: Signed)
    ensures Fold(SlotSum(a, b)) == SlotSum(a, b)
  {
    var F := SlotSum(a, b);
    SlotsUnfolded(a, b);
    hide FoldStep;
    assert Rho(F, 0, 0) == map[] && Rho(F, 0, 1) == map[] && Rho(F, 0, 2) == map[] && Rho(F, 0, 3) == map[];
    assert Fold(F)[0] == F[0];
  }

  lemma SlotsUnfolded(a: Signed, b: Signed)
    ensures forall i :: 0 <= i < 4 ==> FoldStep(map[], SlotSum(a, b)[0][i]) == (SlotSum(a, b)[0][i], map[])
  {
  }

  lemma StoresUnfolded(a: Signed, b: Signed, rest: Code)
    ensures var code := AfterStores(a, b, rest);
            FoldStep(map[], code[0]) == (code[0], map[]) && FoldStep(map[], code[1]) == (code[1], map[])
  {
  }

  lemma ConstSumStep(a: Signed, b: Signed, v: Signed)
    requires EvalBinop(IAdd, a, b) == Some(v)
    ensures FoldStep(map[], Add(T(3), Const(a, 8), Const(b, 8))) == (NopInstr().(dst := T(3)), map[3 := Const(v, 8)])
    ensures FoldStep(map[3 := Const(v, 8)], RetOf(T(3))).0 == RetOf(Const(v, 8))
  {
    hide EvalBinop;
  }

  lemma ConstSumRho(a: Signed, b: Signed, v: Signed)
    requires EvalBinop(IAdd, a, b) == Some(v)
    ensures var F := [AfterStores(a, b, SumOf(Const(a, 8), Const(b, 8)))];
            Rho(F, 0, 0) == Rho(F, 0, 1) == Rho(F, 0, 2) == map[] && Rho(F, 0, 3) == map[3 := Const(v, 8)]
  {
    StoresUnfolded(a, b, SumOf(Const(a, 8), Const(b, 8)));
    ConstSumStep(a, b, v);
    hide EvalBinop, FoldStep;
  }

  lemma ConstSumFolded(a: Signed, b: Signed, v: Signed)
    requires EvalBinop(IAdd, a, b) == Some(v)
    ensures Fold([AfterStores(a, b, SumOf(Const(a, 8), Const(b, 8)))]) == [AfterStores(a, b, Returning(v))]
  {
    var F := [AfterStores(a, b, SumOf(Const(a, 8), Const(b, 8)))];
    StoresUnfolded(a, b, F[0][2..]);
    ConstSumStep(a, b, v);
    ConstSumRho(a, b, v);
    hide EvalBinop, FoldStep, Rho;
    assert Fold(F)[0] == AfterStores(a, b, Returning(v));
  }

  /** The first round puts the constants in place of the slots, the second one folds their sum and returns it. */
  lemma ForwardingFeedsFolding(p: Pool, a: Signed, b: Signed)
    ensures Optimisable(SlotSumCert(), SlotSum(a, b)) && Fusible(SlotSumCert(), SlotSum(a, b))
    ensures Rounds(p, SlotSum(a, b), 1) == [AfterStores(a, b, SumOf(Const(a, 8), Const(b, 8)))]
    ensures EvalBinop(IAdd, a, b).Some?
    ensures Rounds(p, SlotSum(a, b), 2) == [AfterStores(a, b, Returning(EvalBinop(IAdd, a, b).value))]
  {
    var F, v := SlotSum(a, b), EvalBinop(IAdd, a, b).value;
    SlotSumFits(a, b);
    LocalIsOptimisable(SlotSumCert(), F, SlotSumHomes());
    OptimisableIsFusible(SlotSumCert(), F);
    hide Optimisable, Fusible, LocallyFit, Fold, ForwardCode, AfterStores, SumOf, Returning, EvalBinop;
    SlotSumUnfolded(a, b);
    ConstSumFolded(a, b, v);
    StoresTracked(p, a, b, SumOf(WordSlot(1), WordSlot(2)));
    StoresTracked(p, a, b, Returning(v));
    SumForwarded(p, a, b, v);
    assert Rounds(p, F, 1) == ForwardFunc(p, Fold(Rounds(p, F, 0)));
    assert Rounds(p, F, 2) == ForwardFunc(p, Fold(Rounds(p, F, 1)));
  }

  // ----- a field behind a pointer in a slot -----

  /** The pointer goes to a slot; k is added to what is there and a word loaded from the sum. */
  function FieldLoad(k: Signed): Func
  {
    [[StoreOf(WordSlot(1), P(1)), Add(T(2), WordSlot(1), Const(k, 8)), LoadFrom(T(3), T(2)), RetOf(T(3))]]
  }

  function FieldCert(): Cert
  {
    LocalCert(1, map[2 := {Var(Local, 1)}], {}, {2}, {Var(Tmp, 2), Var(Local, 1)})
  }

  function FieldHomes(): Homes { map[2 := (0, 1), 3 := (0, 2)] }

  lemma FieldAtHome(k: Signed)
    ensures BlockAtHome(FieldCert(), FieldLoad(k), FieldHomes(), 0)
  {
  }

  lemma FieldSuits(k: Signed)
    ensures BlockSuits(FieldCert(), FieldLoad(k), 0)
  {
  }

  lemma FieldFits(k: Signed)
    ensures LocallyFit(FieldCert(), FieldLoad(k), FieldHomes())
  {
    hide BlockAtHome, BlockSuits;
    FieldAtHome(k);
    FieldSuits(k);
  }

  /** The offset of a field is folded into the load although the pointer is held in a slot. */
  lemma FieldFolds(p: Pool, k: Signed)
    ensures Optimisable(FieldCert(), FieldLoad(k)) && Fusible(FieldCert(), FieldLoad(k))
    ensures FitsDisp(k) <==> DispFold(p, FieldLoad(k), 0, 1)
  {
    FieldFits(k);
    LocalIsOptimisable(FieldCert(), FieldLoad(k), FieldHomes());
    OptimisableIsFusible(FieldCert(), FieldLoad(k));
    hide Optimisable, Fusible, LocallyFit, DispFold;
    FieldFoldsIff(p, k);
  }

  lemma FieldFoldsIff(p: Pool, k: Signed)
    ensures FitsDisp(k) <==> DispFold(p, FieldLoad(k), 0, 1)
  {
    FieldUses(k);
    hide UseCount, FitsDisp;
    assert FindMemConsumer(FieldLoad(k)[0], 2, T(2)) == Some(2);
  }

  lemma FieldUses(k: Signed)
    ensures UseCount(FieldLoad(k), 2) == 1
  {
    var code := FieldLoad(k)[0];
    SumOfFour(TmpUses(2), code);
    UsesOfArith(code[1], 2);
    UsesOfMemOp(code[2], 2);
    assert TmpOperands(code[0]) == [P(1), Null, Null, WordSlot(1)] && TmpOperands(code[3]) == [Null, Null, Null, T(3)];
    CountFour(P(1), Null, Null, WordSlot(1), 2);
    CountFour(Null, Null, Null, T(3), 2);
  }
}
