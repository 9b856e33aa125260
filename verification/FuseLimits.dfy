/** Displacement fusion across an assignment to the pointer, and exactly when it is right. */
module FuseLimits {
  import opened Options
  import opened Words
  import opened Ir
  import opened Equivalence
  import opened Forward
  import opened Fuse
  import opened Samples

  /** `t = p + k; y = q; r = *t; return r` with p and y frame slots. */
  function AddressThenStore(p: nat, y: nat, q: Signed, k: Signed, t: nat, r: nat): Code
  {
    var addr, res := Word8(Var(Tmp, t)), Word8(Var(Tmp, r));
    [Add(addr, WordSlot(p), Const(k, 8)), StoreOf(WordSlot(y), Const(q, 8)), LoadFrom(res, addr), RetOf(res)]
  }

  /** The load takes over the addition and reads p where the addition no longer stands. */
  function AddressFused(p: nat, y: nat, q: Signed, k: Signed, r: nat): Code
  {
    var res := Word8(Var(Tmp, r));
    [NopInstr(), StoreOf(WordSlot(y), Const(q, 8)), LoadFrom(res, WordSlot(p)).(disp := k), RetOf(res)]
  }

  /** Every test of the pass is met, whatever the backend. */
  lemma AddressIsFused(pool: Pool, p: nat, y: nat, q: Signed, k: Signed, t: nat, r: nat)
    requires t != r && FitsDisp(k)
    ensures var F := [AddressThenStore(p, y, q, k, t, r)];
            DispFold(pool, F, 0, 0) && FoldDisp(F, 0, 0)[0] == AddressFused(p, y, q, k, r)
  {
    var code := AddressThenStore(p, y, q, k, t, r);
    AddressUses(p, y, q, k, t, r);
    assert FindMemConsumer(code, 2, code[0].dst) == Some(2);
    assert FindMemConsumer(code, 1, code[0].dst) == Some(2);
  }

  lemma AddressUses(p: nat, y: nat, q: Signed, k: Signed, t: nat, r: nat)
    requires t != r
    ensures UseCount([AddressThenStore(p, y, q, k, t, r)], t) == 1
  {
    var code := AddressThenStore(p, y, q, k, t, r);
    UsesOfArith(code[0], t);
    UsesOfMemOp(code[2], t);
    assert TmpOperands(code[1]) == [code[1].r1, code[1].r2, code[1].idx, code[1].dst];
    assert TmpOperands(code[3]) == [code[3].r1, code[3].r2, code[3].idx, code[3].dst];
    CountFour(code[1].r1, code[1].r2, code[1].idx, code[1].dst, t);
    CountFour(code[3].r1, code[3].r2, code[3].idx, code[3].dst, t);
    SumOfFour(TmpUses(t), code);
  }

  lemma SumOfFour(f: Instr -> nat, code: Code)
    requires |code| == 4
    ensures Sum(f, [code]) == f(code[0]) + f(code[1]) + f(code[2]) + f(code[3])
  {
    assert code[1..][0] == code[1] && code[1..][1..] == code[2..];
    assert code[2..][1..] == code[3..] && code[3..][1..] == [];
    assert SumCode(f, code[3..]) == f(code[3]) + SumCode(f, []);
    assert SumCode(f, code[2..]) == f(code[2]) + SumCode(f, code[3..]);
    assert SumCode(f, code[1..]) == f(code[1]) + SumCode(f, code[2..]);
    assert SumCode(f, code) == f(code[0]) + SumCode(f, code[1..]);
    assert [code][1..] == [];
    assert Sum(f, [code]) == SumCode(f, code) + Sum(f, []);
  }

  lemma ExecFour(M: Machine, code: Code, s: State, s0: State, s1: State)
    requires |code| == 4 && Step(M, code[0], s) == Next(s0) && Step(M, code[1], s0) == Next(s1) && code[3].op.Ret?
    ensures var o := Step(M, code[2], s1);
            Exec(M, code, s) == if o.Next? then Return(Eval(M, o.s, code[3].dst), o.s) else o
  {
    hide Step;
    assert code[1..][0] == code[1] && code[1..][1..] == code[2..] && code[2..][0] == code[2];
    assert code[2..][1..] == code[3..] && code[3..][0] == code[3];
    var o := Step(M, code[2], s1);
    if o.Next? {
      assert Exec(M, code[3..], o.s) == Return(Eval(M, o.s, code[3].dst), o.s) by { RetStep(M, code[3], o.s); }
      assert Exec(M, code[2..], s1) == Exec(M, code[3..], o.s);
    }
    assert Exec(M, code[1..], s0) == Exec(M, code[2..], s1);
  }

  lemma RetStep(M: Machine, I: Instr, s: State)
    requires I.op.Ret?
    ensures Step(M, I, s) == Return(Eval(M, s, I.dst), s)
  {
  }

  /** How a block ends that returns what it loaded. */
  predicate EndsLike(o: Outcome, loaded: Option<Word>, log: seq<Event>, heap: map<int, int>)
  {
    match loaded
    case None => o.Trap? && o.s.log == log && o.s.mem.heap == heap
    case Some(w) => o.Return? && o.value == w && o.s.log == log && o.s.mem.heap == heap
  }

  function MemAfter(M: Machine, s: State, y: nat, q: Signed): Mem
  {
    Set(M, s, Var(Local, y), Wrap(q)).mem
  }

  lemma LoadEnds(M: Machine, J: Instr, r: nat, s: State, a: Word)
    requires J.op.LoadDeref? && J.dst == Word8(Var(Tmp, r)) && r !in M.allocas && Address(M, s, J.r1, J) == a
    ensures var o := Step(M, J, s);
            match M.load(a, s.mem)
            case None => o == Trap(s)
            case Some(w) => o.Next? && o.s.log == s.log && o.s.mem == s.mem && Eval(M, o.s, Word8(Var(Tmp, r))) == w
  {
    hide Address;
  }

  lemma OriginalEnds(M: Machine, s: State, p: nat, y: nat, q: Signed, k: Signed, t: nat, r: nat)
    requires t != r && t !in M.allocas && r !in M.allocas
    ensures var mem, a := MemAfter(M, s, y, q), Wrap(Get(M, s, Var(Local, p)) + k);
            EndsLike(Exec(M, AddressThenStore(p, y, q, k, t, r), s), M.load(a, mem), s.log, mem.heap)
  {
    hide Wrap, Exec;
    var code := AddressThenStore(p, y, q, k, t, r);
    var was := Get(M, s, Var(Local, p));
    AddSubValues(was, Wrap(k));
    WrapAdd(was, k);
    var s0 := Step(M, code[0], s).s;
    var s1 := Step(M, code[1], s0).s;
    assert Get(M, s1, Var(Tmp, t)) == Wrap(was + k);
    WrapWord(Wrap(was + k));
    LoadEnds(M, code[2], r, s1, Wrap(was + k));
    ExecFour(M, code, s, s0, s1);
  }

  lemma FusedEnds(M: Machine, s: State, p: nat, y: nat, q: Signed, k: Signed, r: nat)
    requires r !in M.allocas
    ensures var mem := MemAfter(M, s, y, q);
            var a := Wrap((if p == y then Wrap(q) else Get(M, s, Var(Local, p))) + k);
            EndsLike(Exec(M, AddressFused(p, y, q, k, r), s), M.load(a, mem), s.log, mem.heap)
  {
    hide Wrap, Exec;
    var code := AddressFused(p, y, q, k, r);
    var s1 := Step(M, code[1], s).s;
    var a := Wrap((if p == y then Wrap(q) else Get(M, s, Var(Local, p))) + k);
    assert Address(M, s1, code[2].r1, code[2]) == a;
    LoadEnds(M, code[2], r, s1, a);
    ExecFour(M, code, s, s, s1);
  }

  /** A machine whose loads return the address they were given. */
  function Echo(): Machine
  {
    Inert((n, w) => w).(load := (a, m) => Some(a))
  }

  ghost predicate AlwaysSameEnd(t: nat, r: nat, c1: Code, c2: Code)
  {
    forall M: Machine, s: State :: t !in M.allocas && r !in M.allocas ==> SameEnd(Exec(M, c1, s), Exec(M, c2, s))
  }

  lemma EndsDecide(o1: Outcome, o2: Outcome, l1: Option<Word>, l2: Option<Word>, log: seq<Event>, heap: map<int, int>)
    requires EndsLike(o1, l1, log, heap) && EndsLike(o2, l2, log, heap)
    ensures SameEnd(o1, o2) <==> l1 == l2
  {
  }

  lemma SamePointerSameEnd(p: nat, y: nat, q: Signed, k: Signed, t: nat, r: nat)
    requires t != r && y != p
    ensures AlwaysSameEnd(t, r, AddressThenStore(p, y, q, k, t, r), AddressFused(p, y, q, k, r))
  {
    hide Exec, AddressThenStore, AddressFused, Wrap, EndsLike, SameEnd, MemAfter;
    var c1, c2 := AddressThenStore(p, y, q, k, t, r), AddressFused(p, y, q, k, r);
    forall M: Machine, s: State | t !in M.allocas && r !in M.allocas ensures SameEnd(Exec(M, c1, s), Exec(M, c2, s)) {
      OriginalEnds(M, s, p, y, q, k, t, r);
      FusedEnds(M, s, p, y, q, k, r);
      var mem, l := MemAfter(M, s, y, q), M.load(Wrap(Get(M, s, Var(Local, p)) + k), MemAfter(M, s, y, q));
      EndsDecide(Exec(M, c1, s), Exec(M, c2, s), l, l, s.log, mem.heap);
    }
  }

  lemma ReassignedPointerDiffers(p: nat, q: Signed, k: Signed, t: nat, r: nat)
    requires t != r
    ensures !AlwaysSameEnd(t, r, AddressThenStore(p, p, q, k, t, r), AddressFused(p, p, q, k, r))
  {
    hide Exec, AddressThenStore, AddressFused, Wrap, EndsLike, SameEnd, MemAfter;
    var c1, c2 := AddressThenStore(p, p, q, k, t, r), AddressFused(p, p, q, k, r);
    var M := Echo();
    var w: Word := if Wrap(q) == 0 then 1 else 0;
    var s := State(map[], Mem(map[Var(Local, p) := w], map[]), []);
    assert Get(M, s, Var(Local, p)) == w;
    OriginalEnds(M, s, p, p, q, k, t, r);
    FusedEnds(M, s, p, p, q, k, r);
    DifferentSums(w, Wrap(q), k);
    var l1, l2 := Some(Wrap(w + k)), Some(Wrap(Wrap(q) + k));
    EndsDecide(Exec(M, c1, s), Exec(M, c2, s), l1, l2, s.log, MemAfter(M, s, p, q).heap);
    assert t !in M.allocas && r !in M.allocas && !SameEnd(Exec(M, c1, s), Exec(M, c2, s));
  }

  /**
   The fold looks for other mentions of the address temporary, not for assignments to the pointer it was
   computed from, so it is made here whatever the backend. It is right, for every machine and state, exactly
   when the store in between leaves the pointer alone.
   */
  lemma ReassignedPointerRightIff(p: nat, y: nat, q: Signed, k: Signed, t: nat, r: nat)
    requires t != r && FitsDisp(k)
    ensures var F := [AddressThenStore(p, y, q, k, t, r)];
            && (forall pool :: DispFold(pool, F, 0, 0))
            && Candidate(F, 0, 0) && DispOf(F[0][0]).Some?
            && (AlwaysSameEnd(t, r, F[0], FoldDisp(F, 0, 0)[0]) <==> y != p)
  {
    hide AddressThenStore, AddressFused, DispFold, FoldDisp, AlwaysSameEnd, Candidate, DispOf;
    var F := [AddressThenStore(p, y, q, k, t, r)];
    forall pool ensures DispFold(pool, F, 0, 0) {
      AddressIsFused(pool, p, y, q, k, t, r);
    }
    AddressIsFused(Pool({}, None), p, y, q, k, t, r);
    FoldNeeds(F);
    if y != p {
      SamePointerSameEnd(p, y, q, k, t, r);
    } else {
      ReassignedPointerDiffers(p, q, k, t, r);
    }
  }

  lemma FoldNeeds(F: Func)
    requires DispFold(Pool({}, None), F, 0, 0)
    ensures Candidate(F, 0, 0) && DispOf(F[0][0]).Some?
  {
  }

  lemma DifferentSums(a: Word, b: Word, k: Signed)
    requires a != b
    ensures Wrap(a + k) != Wrap(b + k)
  {
  }
}
