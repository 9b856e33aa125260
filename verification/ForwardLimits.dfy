/** Where store-to-read forwarding goes wrong, and exactly when it does not. */
module ForwardLimits {
  import opened Options
  import opened Words
  import opened Ir
  import opened Liveness
  import opened Forward
  import opened Samples
  import opened AluSteady

  // ----- a source that is assigned again -----

  function StaleCode(a: nat, b: nat, k: Signed, returned: Operand): Code
  {
    [StoreOf(WordSlot(a), WordSlot(b)), StoreOf(WordSlot(b), Const(k, 8)), RetOf(returned)]
  }

  lemma StaleForwarded(p: Pool, a: nat, b: nat, k: Signed)
    requires a != b
    ensures ForwardCode(p, StaleCode(a, b, k, WordSlot(a)), []) == StaleCode(a, b, k, Const(k, 8))
  {
    var A, B, K := WordSlot(a), WordSlot(b), Const(k, 8);
    var i1, i2, i3 := StoreOf(A, B), StoreOf(B, K), RetOf(A);
    var code := [i1, i2, i3];
    assert code[1..] == [i2, i3] && code[1..][1..] == [i3];
    assert RewriteAll(p, i1, []) == i1;
    var t1 := [Entry(A, B)];
    assert Track(p, i1, []) == t1;
    assert RewriteOperands(p, i2, t1[0]) == i2;
    assert t1[1..] == [];
    assert RewriteAll(p, i2, t1) == i2;
    var t2 := [Entry(A, B), Entry(B, K)];
    assert DropClobbered(p, i2, t1, 0) == t1;
    assert Find(t1, B) == 1;
    assert Track(p, i2, t1) == t2;
    assert RewriteOperands(p, i3, t2[0]) == RetOf(B);
    assert t2[1..] == [Entry(B, K)] && t2[1..][1..] == [];
    assert RewriteOperands(p, RetOf(B), Entry(B, K)) == RetOf(K);
    assert RewriteAll(p, RetOf(B), [Entry(B, K)]) == RewriteAll(p, RetOf(K), []);
    assert RewriteAll(p, i3, t2) == RetOf(K);
    assert ForwardCode(p, code[1..][1..], t2) == [RetOf(K)];
    assert ForwardCode(p, code[1..], t1) == [i2, RetOf(K)];
  }

  /**
   The pass forgets a slot when the slot is assigned, but not when its source is. For
   `a = b; b = k; return a` the original returns the old b, the forwarded block returns k,
   so they agree exactly when b already held k.
   */
  lemma StaleSourceIsForwarded(M: Machine, p: Pool, s: State, a: nat, b: nat, k: Signed)
    requires a != b
    ensures var code := StaleCode(a, b, k, WordSlot(a));
            && Exec(M, code, s).Return? && Exec(M, code, s).value == Get(M, s, Var(Local, b))
            && Exec(M, ForwardCode(p, code, []), s).Return?
            && Exec(M, ForwardCode(p, code, []), s).value == Wrap(k)
  {
    StaleForwarded(p, a, b, k);
    hide ForwardCode;
    var code, out := StaleCode(a, b, k, WordSlot(a)), StaleCode(a, b, k, Const(k, 8));
    assert code[1..][1..] == [code[2]] && out[1..][1..] == [out[2]];
    var s1 := Step(M, code[0], s).s;
    var s2 := Step(M, code[1], s1).s;
    assert Exec(M, code, s) == Exec(M, code[1..], s1) == Exec(M, [code[2]], s2);
    assert Exec(M, out, s) == Exec(M, out[1..], s1) == Exec(M, [out[2]], s2);
  }

  // ----- a slot narrower than the value -----

  /** A word stored into a narrower slot is forwarded without the truncation the slot applies. */
  lemma NarrowSlotIsForwarded(M: Machine, p: Pool, s: State, a: nat, size: nat, k: Signed)
    requires size < 8
    ensures var slot := Ref(Var(Local, a), size, None, false);
            var code := [StoreOf(slot, Const(k, 8)), RetOf(slot)];
            && Exec(M, code, s).Return? && Exec(M, code, s).value == M.narrow(size, Wrap(k))
            && Exec(M, ForwardCode(p, code, []), s).Return?
            && Exec(M, ForwardCode(p, code, []), s).value == Wrap(k)
  {
    var A, K := Ref(Var(Local, a), size, None, false), Const(k, 8);
    var i1, i2 := StoreOf(A, K), RetOf(A);
    var code := [i1, i2];
    assert code[1..] == [i2];
    var t1 := [Entry(A, K)];
    assert Track(p, i1, []) == t1;
    assert RewriteOperands(p, i2, t1[0]) == RetOf(K) && t1[1..] == [];
    assert RewriteAll(p, i2, t1) == RetOf(K);
    assert ForwardCode(p, code[1..], t1) == [RetOf(K)];
    assert ForwardCode(p, code, []) == [i1, RetOf(K)];
    assert [i1, RetOf(K)][1..] == [RetOf(K)];
  }

  /** `slot = k; return slot` */
  function StoreThenReturn(a: nat, size: nat, k: Signed): Code
  {
    var slot := Ref(Var(Local, a), size, None, false);
    [StoreOf(slot, Const(k, 8)), RetOf(slot)]
  }

  lemma WideSlotIsForwarded(M: Machine, p: Pool, s: State, a: nat, size: nat, k: Signed)
    requires size >= 8
    ensures SameReturn(M, s, StoreThenReturn(a, size, k), ForwardCode(p, StoreThenReturn(a, size, k), []))
  {
    var A, K := Ref(Var(Local, a), size, None, false), Const(k, 8);
    var i1, i2 := StoreOf(A, K), RetOf(A);
    var code := [i1, i2];
    assert code[1..] == [i2];
    var t1 := [Entry(A, K)];
    assert Track(p, i1, []) == t1;
    assert RewriteOperands(p, i2, t1[0]) == RetOf(K) && t1[1..] == [];
    assert RewriteAll(p, i2, t1) == RetOf(K);
    assert ForwardCode(p, code[1..], t1) == [RetOf(K)];
    assert ForwardCode(p, code, []) == [i1, RetOf(K)];
    assert [i1, RetOf(K)][1..] == [RetOf(K)];
  }

  /** Forwarding a word through a slot is right, for every machine and state, exactly when the slot is a word. */
  lemma NarrowSlotRightIff(p: Pool, a: nat, size: nat, k: Signed)
    ensures var code := StoreThenReturn(a, size, k);
            (forall M: Machine, s: State :: SameReturn(M, s, code, ForwardCode(p, code, []))) <==> size >= 8
  {
    hide ForwardCode, Exec;
    var code := StoreThenReturn(a, size, k);
    if size >= 8 {
      forall M: Machine, s: State ensures SameReturn(M, s, code, ForwardCode(p, code, [])) {
        WideSlotIsForwarded(M, p, s, a, size, k);
      }
    } else {
      var M := Inert((n, w) => if w == 0 then 1 else 0);
      var s := State(map[], Mem(map[], map[]), []);
      NarrowSlotIsForwarded(M, p, s, a, size, k);
      assert !SameReturn(M, s, code, ForwardCode(p, code, []));
    }
  }

  // ----- keeping an entry -----

  /** The instruction leaves the tracked fact true whatever the machine and the state. */
  ghost predicate StaysTrue(e: Entry, I: Instr)
  {
    forall M: Machine, s: State :: Valid(M, s, [e]) && Step(M, I, s).Next? ==> Valid(M, Step(M, I, s).s, [e])
  }

  /** The variables an instruction assigns when control passes it; a phi's was assigned on the edge. */
  function AssignedHere(I: Instr): set<Var>
  {
    if I.op.Phi? then {} else Written(I)
  }

  /** An operand seen from a pair of variables that hold the same value. */
  function Seen(o: Operand, a: Var, b: Var): Arg
  {
    match o
    case Null => Fixed(0)
    case Const(k, _) => Fixed(Wrap(k))
    case Ref(v, _, _, _) => if v == a || v == b then Itself else Other
  }

  /** The width the assignment applies. */
  function Width(I: Instr): nat
  {
    if I.op.Store? then Min(ByteSize(I.dst), ByteSize(I.r1)) else ByteSize(I.dst)
  }

  /** The instruction gives b a value b has anyway, or cannot complete: a copy of a or b, an identity, an
      idempotent operation, a certain trap. */
  predicate Reproduces(I: Instr, a: Var, b: Var)
  {
    match I.op
    case Store => Width(I) >= 8 && Seen(I.r1, a, b).Itself?
    case Load => Width(I) >= 8 && Seen(I.r1, a, b).Itself?
    case Arith(op) =>
      || OnlyTraps(op, Seen(I.r1, a, b), Seen(I.r2, a, b))
      || (Width(I) >= 8 && Steady(op, Seen(I.r1, a, b), Seen(I.r2, a, b)))
    case _ => false
  }

  /** a and b hold w, every other variable holds z. */
  function Around(a: Var, b: Var, w: Word, z: Word, I: Instr): State
  {
    var all := map v | v in Vars(I.r1) + Vars(I.r2) + {a, b} :: if v == a || v == b then w else z;
    State(all, Mem(all, map[]), [])
  }

  lemma AroundValues(M: Machine, a: Var, b: Var, w: Word, z: Word, I: Instr)
    ensures var s := Around(a, b, w, z, I);
            && Get(M, s, a) == w && Get(M, s, b) == w
            && Eval(M, s, I.r1) == Value(Seen(I.r1, a, b), w, z) && Eval(M, s, I.r2) == Value(Seen(I.r2, a, b), w, z)
            && Valid(M, s, [Entry(Word8(a), Word8(b))])
  {
  }

  /** Any instruction the pass does not treat as a kill, b being what it assigns. */
  predicate Assigns(I: Instr, b: Var)
  {
    !KillsAll(I.op) && !I.op.Phi? && Written(I) == {b}
  }

  lemma ReproducedStays(a: Var, b: Var, I: Instr, M: Machine, s: State)
    requires Assigns(I, b) && a != b && Reproduces(I, a, b) && Get(M, s, a) == Get(M, s, b) && Step(M, I, s).Next?
    ensures Get(M, Step(M, I, s).s, a) == Get(M, Step(M, I, s).s, b)
  {
    var w := Get(M, s, a);
    StepWritesOnly(M, I, s, Word8(a));
    if I.op.Arith? {
      ArithReproduces(a, b, I, M, s);
    }
  }

  lemma ArithReproduces(a: Var, b: Var, I: Instr, M: Machine, s: State)
    requires I.op.Arith? && Written(I) == {b} && Reproduces(I, a, b) && Get(M, s, a) == Get(M, s, b)
    requires Step(M, I, s).Next?
    ensures Get(M, Step(M, I, s).s, b) == Get(M, s, b)
  {
    hide Alu;
    var op, x, y, w := I.op.bin, Seen(I.r1, a, b), Seen(I.r2, a, b), Get(M, s, b);
    var u, v := Eval(M, s, I.r1), Eval(M, s, I.r2);
    TrapsAnyway(op, x, y, u, v);
    if x.Other? && y.Other? {
    } else {
      var z := if x.Other? then u else v;
      assert u == Value(x, w, z) && v == Value(y, w, z);
      SteadyGivesBack(op, x, y, w, z);
    }
  }

  lemma TrapsAnyway(op: BinOp, x: Arg, y: Arg, u: Word, v: Word)
    requires (x.Fixed? ==> u == x.k) && (y.Fixed? ==> v == y.k)
    ensures OnlyTraps(op, x, y) ==> Alu(op, u, v) == None
  {
  }

  /** Loads, addresses and computations all give 1; a narrowed value is never `w`. */
  function Ones(w: Word): Machine
  {
    Machine((a, m) => Some(1), (a, x, m) => None, (f, t, ws, m) => None, v => 1, (c, a, b) => 1,
            (n, x) => if w == 0 then 1 else 0, {})
  }

  /** What the assignment would store before narrowing, if it completes. */
  function Result(M: Machine, s: State, I: Instr): Option<Word>
  {
    match I.op
    case Store => Some(Eval(M, s, I.r1))
    case Load => Some(Eval(M, s, I.r1))
    case LoadDeref => M.load(Address(M, s, I.r1, I), s.mem)
    case Lea => Some(if I.r1.Ref? then M.address(I.r1.v) else 0)
    case Arith(op) => Alu(op, Eval(M, s, I.r1), Eval(M, s, I.r2))
    case ICmp(c) => Some(if Compare(c, Eval(M, s, I.r1), Eval(M, s, I.r2)) then 1 else 0)
    case Opaque(code) => Some(M.compute(code, Eval(M, s, I.r1), Eval(M, s, I.r2)))
    case _ => None
  }

  lemma StepStoresResult(M: Machine, s: State, I: Instr, b: Var)
    requires Assigns(I, b) && Result(M, s, I).Some?
    ensures Step(M, I, s).Next? && Get(M, Step(M, I, s).s, b) == Narrowed(M, Width(I), Result(M, s, I).value)
  {
    hide Alu, Compare, Address;
  }

  /** Values of the variables for which a result other than `w` comes out. */
  lemma OtherResult(a: Var, b: Var, I: Instr) returns (w: Word, z: Word)
    requires Assigns(I, b) && !Reproduces(I, a, b)
    ensures var M, s := Ones(w), Around(a, b, w, z, I);
            Result(M, s, I).Some? && (Width(I) >= 8 ==> Result(M, s, I).value != w)
  {
    hide Alu, Compare, Address;
    w, z := 0, 1;
    match I.op
    case Arith(op) =>
      var x, y := Seen(I.r1, a, b), Seen(I.r2, a, b);
      if Steady(op, x, y) {
        CompletesAtZero(op, x, y);
        z := 0;
      } else {
        w, z := Unsteady(op, x, y);
      }
    case ICmp(_) => w := 2;
    case Lea => if !I.r1.Ref? { w := 1; }
    case Store => if Seen(I.r1, a, b) == Fixed(0) { w := 1; }
    case Load => if Seen(I.r1, a, b) == Fixed(0) { w := 1; }
    case _ =>
    AroundValues(Ones(w), a, b, w, z, I);
  }

  lemma CompletesAtZero(op: BinOp, x: Arg, y: Arg)
    requires Steady(op, x, y) && !OnlyTraps(op, x, y)
    ensures Alu(op, Value(x, 0, 0), Value(y, 0, 0)).Some?
  {
  }

  /** A machine and a state on which the instruction breaks the entry. */
  lemma EntryBroken(a: Var, b: Var, I: Instr) returns (M: Machine, s: State)
    requires Assigns(I, b) && a != b && !Reproduces(I, a, b)
    ensures Valid(M, s, [Entry(Word8(a), Word8(b))]) && Step(M, I, s).Next?
    ensures !Valid(M, Step(M, I, s).s, [Entry(Word8(a), Word8(b))])
  {
    hide Step, Result;
    var w, z := OtherResult(a, b, I);
    M, s := Ones(w), Around(a, b, w, z, I);
    AroundValues(M, a, b, w, z, I);
    StepStoresResult(M, s, I, b);
    StepWritesOnly(M, I, s, Word8(a));
    var e := Entry(Word8(a), Word8(b));
    assert e in [e];
  }

  /**
   Exactly when it is right to keep the entry `a holds b` across an instruction that is no kill and does not
   assign a: the instruction does not assign b, or reproduces its value.
   */
  lemma KeepingEntryIsRightIff(a: Var, b: Var, I: Instr)
    requires !KillsAll(I.op) && a !in AssignedHere(I)
    ensures StaysTrue(Entry(Word8(a), Word8(b)), I) <==> b !in AssignedHere(I) || Reproduces(I, a, b)
  {
    hide Step, Reproduces;
    var e := Entry(Word8(a), Word8(b));
    assert e in [e];
    if b in AssignedHere(I) && !Reproduces(I, a, b) {
      var M, s := EntryBroken(a, b, I);
    } else {
      forall M: Machine, s: State | Valid(M, s, [e]) && Step(M, I, s).Next? ensures Valid(M, Step(M, I, s).s, [e]) {
        assert Eval(M, s, e.slot) == Eval(M, s, e.source);
        if b in AssignedHere(I) {
          ReproducedStays(a, b, I, M, s);
        } else {
          UnassignedStays(M, I, s, a);
          UnassignedStays(M, I, s, b);
        }
      }
    }
  }

  lemma UnassignedStays(M: Machine, I: Instr, s: State, v: Var)
    requires !KillsAll(I.op) && v !in AssignedHere(I) && Step(M, I, s).Next?
    ensures Get(M, Step(M, I, s).s, v) == Get(M, s, v)
  {
    if !I.op.Phi? { StepWritesOnly(M, I, s, Word8(v)); }
  }

  /** `a = b; b = b + k; return a`: an addition breaks the entry like a store does, unless k is zero. */
  lemma AdditionBreaksEntryIff(a: Var, b: Var, k: Signed)
    requires a != b
    ensures StaysTrue(Entry(Word8(a), Word8(b)), Add(Word8(b), Word8(b), Const(k, 8))) <==> k == 0
  {
    WrapOfSigned(k);
    KeepingEntryIsRightIff(a, b, Add(Word8(b), Word8(b), Const(k, 8)));
  }
}
