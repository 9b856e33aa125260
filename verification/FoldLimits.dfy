/** Where constant folding goes wrong on code outside its assumptions, and that code inside them exists. */
module FoldLimits {
  import opened Words
  import opened Ir
  import opened Equivalence
  import opened Evaluate
  import opened ConstFold
  import opened Samples

  function AddTo(t: nat, a: Operand, b: Operand): Instr
  {
    Add(Word8(Var(Tmp, t)), a, b)
  }

  // ----- a local is not a stable operand -----

  /** `t = x + 0; y = k; return t` */
  function ReadThenStore(t: nat, x: nat, y: nat, k: Signed): Code
  {
    [AddTo(t, Word8(Var(Local, x)), Const(0, 8)), StoreOf(WordSlot(y), Const(k, 8)), RetOf(Word8(Var(Tmp, t)))]
  }

  lemma ReadThenStoreFolds(t: nat, x: nat, y: nat, k: Signed)
    ensures Fold([ReadThenStore(t, x, y, k)]) ==
              [[AddTo(t, Null, Null).(op := Nop), StoreOf(WordSlot(y), Const(k, 8)), RetOf(Word8(Var(Local, x)))]]
  {
    var code := ReadThenStore(t, x, y, k);
    var F := [code];
    var X := Word8(Var(Local, x));
    var rho := map[t := X];
    assert ResolveInstr(map[], code[0]) == code[0] by { EmptyResolver(code[0]); }
    assert Decide(code[0]) == Vanishes(X);
    assert Rho(F, 0, 0) == map[];
    assert Rho(F, 0, 1) == rho;
    assert ResolveInstr(rho, code[1]) == code[1] by { NoTemporaries(rho, code[1]); }
    assert Decide(code[1]) == Same;
    assert Rho(F, 0, 2) == rho;
    assert ResolveInstr(rho, code[2]) == RetOf(X);
    assert Decide(RetOf(X)) == Same;
    assert InFunc(F, 0, 0) && InFunc(F, 0, 1) && InFunc(F, 0, 2);
    var G := Fold(F);
    assert G[0] == [AddTo(t, Null, Null).(op := Nop), StoreOf(WordSlot(y), Const(k, 8)), RetOf(X)];
  }

  lemma EmptyResolver(I: Instr)
    ensures ResolveInstr(map[], I) == I
  {
    assert ResolveArgs(map[], I.args) == I.args;
    assert ResolvePairs(map[], I.pairs) == I.pairs;
  }

  lemma NoTemporaries(rho: Resolver, I: Instr)
    requires !IsTmp(I.r1) && !IsTmp(I.r2) && !IsTmp(I.dst) && I.args == [] && I.pairs == []
    ensures ResolveInstr(rho, I) == I
  {
    assert ResolveArgs(rho, I.args) == I.args;
    assert ResolvePairs(rho, I.pairs) == I.pairs;
  }

  lemma {:induction false} ExecThree(M: Machine, a: Instr, b: Instr, c: Instr, s: State)
    requires Step(M, a, s).Next? && Step(M, b, Step(M, a, s).s).Next?
    requires !Step(M, c, Step(M, b, Step(M, a, s).s).s).Next?
    ensures Exec(M, [a, b, c], s) == Step(M, c, Step(M, b, Step(M, a, s).s).s)
  {
    hide Step;
    assert [a, b, c][1..] == [b, c] && [b, c][1..] == [c];
    var s1 := Step(M, a, s).s;
    var s2 := Step(M, b, s1).s;
    assert Exec(M, [a, b, c], s) == Exec(M, [b, c], s1);
    assert Exec(M, [b, c], s1) == Exec(M, [c], s2);
  }

  /** The original returns the old x, the folded block reads x at the return. */
  lemma LocalReadMoves(M: Machine, s: State, t: nat, x: nat, y: nat, k: Signed)
    requires t !in M.allocas
    ensures var code := ReadThenStore(t, x, y, k);
            var out := Fold([code])[0];
            && Exec(M, code, s).Return? && Exec(M, code, s).value == Get(M, s, Var(Local, x))
            && Exec(M, out, s).Return? && Exec(M, out, s).value == if x == y then Wrap(k) else Get(M, s, Var(Local, x))
  {
    var code := ReadThenStore(t, x, y, k);
    ReadThenStoreFolds(t, x, y, k);
    ExecThree(M, code[0], code[1], code[2], s);
    var out := Fold([code])[0];
    ExecThree(M, out[0], out[1], out[2], s);
  }

  /** So the fold of this block is right, for every machine and state, exactly when x is not reassigned. */
  lemma IdentityFoldRightIff(t: nat, x: nat, y: nat, k: Signed)
    ensures var code := ReadThenStore(t, x, y, k);
            (forall M: Machine, s: State :: t !in M.allocas ==> SameReturn(M, s, code, Fold([code])[0])) <==> x != y
  {
    hide Exec, Fold, ReadThenStore;
    var code := ReadThenStore(t, x, y, k);
    if x == y {
      var M := Inert((n, w) => w);
      var w: Word := if Wrap(k) == 0 then 1 else 0;
      var s := State(map[], Mem(map[Var(Local, x) := w], map[]), []);
      assert Get(M, s, Var(Local, x)) == w != Wrap(k);
      LocalReadMoves(M, s, t, x, y, k);
      assert t !in M.allocas && !SameReturn(M, s, code, Fold([code])[0]);
    } else {
      forall M: Machine, s: State | t !in M.allocas ensures SameReturn(M, s, code, Fold([code])[0]) {
        LocalReadMoves(M, s, t, x, y, k);
      }
    }
  }

  // ----- a definition listed after its use -----

  /** n blocks: the entry jumps to block d, which defines t and jumps to block u, which returns it. */
  function DefAndUse(n: nat, d: nat, u: nat, t: nat, a: Signed, b: Signed): (F: Func)
    ensures |F| == n && forall k :: 0 <= k < n ==>
      F[k] == BlockAt(d, u, k, AddTo(t, Const(a, 8), Const(b, 8)), Word8(Var(Tmp, t)))
  {
    seq(n, k => BlockAt(d, u, k, AddTo(t, Const(a, 8), Const(b, 8)), Word8(Var(Tmp, t))))
  }

  /** The blocks that are neither entry nor d nor u are never reached. */
  function BlockAt(d: nat, u: nat, k: int, I: Instr, returned: Operand): Code
  {
    if k == 0 then [JmpTo(d)]
    else if k == d then [I, JmpTo(u)]
    else if k == u then [RetOf(returned)]
    else [JmpTo(0)]
  }

  predicate Positions(n: nat, d: nat, u: nat)
  {
    0 < d < n && 0 < u < n && d != u
  }

  function Folded8(a: Signed, b: Signed): Operand
  {
    Const(ToSigned(Wrap(a + b)), 8)
  }

  lemma SumVanishes(t: nat, a: Signed, b: Signed)
    ensures Decide(AddTo(t, Const(a, 8), Const(b, 8))) == Vanishes(Folded8(a, b))
  {
    WrapAdd(a, b);
    EvalBinopIsAlu(IAdd, a, b);
    WrapOfSigned(EvalBinop(IAdd, a, b).value);
  }

  /** The resolver is empty up to the definition and knows t from there on. */
  lemma {:induction false} RhoOf(n: nat, d: nat, u: nat, t: nat, a: Signed, b: Signed, k: nat, i: nat)
    requires Positions(n, d, u) && Position(DefAndUse(n, d, u, t, a, b), k, i)
    ensures Rho(DefAndUse(n, d, u, t, a, b), k, i) ==
              if k < d || (k == d && i == 0) then map[] else map[t := Folded8(a, b)]
    decreases k, i
  {
    hide Decide, DefAndUse;
    var F := DefAndUse(n, d, u, t, a, b);
    if i > 0 {
      RhoOf(n, d, u, t, a, b, k, i - 1);
      var rho, I := Rho(F, k, i - 1), F[k][i - 1];
      if k == d && i == 1 {
        SumVanishes(t, a, b);
        EmptyResolver(I);
      } else {
        NothingVanishes(rho, I);
      }
    } else if k > 0 {
      RhoOf(n, d, u, t, a, b, k - 1, |F[k - 1]|);
    }
  }

  lemma NothingVanishes(rho: Resolver, I: Instr)
    requires I.op.Jmp? || I.op.Ret?
    ensures FoldStep(rho, I) == (ResolveInstr(rho, I), rho)
  {
  }

  lemma JumpResolves(rho: Resolver, b: nat)
    ensures ResolveInstr(rho, JmpTo(b)) == JmpTo(b)
  {
    assert ResolveArgs(rho, []) == [] && ResolvePairs(rho, []) == [];
  }

  lemma DefinitionFolds(n: nat, d: nat, u: nat, t: nat, a: Signed, b: Signed)
    requires Positions(n, d, u)
    ensures Fold(DefAndUse(n, d, u, t, a, b))[d] == [AddTo(t, Null, Null).(op := Nop), JmpTo(u)]
  {
    var F := DefAndUse(n, d, u, t, a, b);
    hide Decide, DefAndUse, Rho;
    assert InFunc(F, d, 0) && InFunc(F, d, 1);
    RhoOf(n, d, u, t, a, b, d, 0);
    SumVanishes(t, a, b);
    EmptyResolver(F[d][0]);
    RhoOf(n, d, u, t, a, b, d, 1);
    JumpResolves(Rho(F, d, 1), u);
    NothingVanishes(Rho(F, d, 1), JmpTo(u));
  }

  /** The definition is deleted; the use is redirected only if it is listed after the definition. */
  lemma DefAndUseFolds(n: nat, d: nat, u: nat, t: nat, a: Signed, b: Signed, k: nat)
    requires Positions(n, d, u) && k < n
    ensures var returned := if d < u then Folded8(a, b) else Word8(Var(Tmp, t));
            Fold(DefAndUse(n, d, u, t, a, b))[k] == BlockAt(d, u, k, AddTo(t, Null, Null).(op := Nop), returned)
  {
    var F := DefAndUse(n, d, u, t, a, b);
    hide Decide, DefAndUse, Rho, FoldStep;
    if k == d {
      DefinitionFolds(n, d, u, t, a, b);
    } else {
      assert InFunc(F, k, 0);
      RhoOf(n, d, u, t, a, b, k, 0);
      JumpResolves(Rho(F, k, 0), if k == 0 then d else 0);
      NothingVanishes(Rho(F, k, 0), F[k][0]);
    }
  }

  lemma ExecShort(M: Machine, a: Instr, b: Instr, s: State)
    ensures !Step(M, a, s).Next? ==> Exec(M, [a], s) == Step(M, a, s)
    ensures Step(M, a, s).Next? && !Step(M, b, Step(M, a, s).s).Next? ==>
              Exec(M, [a, b], s) == Step(M, b, Step(M, a, s).s)
  {
    hide Step;
    assert [a, b][1..] == [b];
  }

  lemma BlockSteps(M: Machine, F: Func, from: nat, b: nat, I: Instr, J: Instr, s: State)
    requires b < |F| && !I.op.Phi? && !J.op.Phi?
    ensures F[b] == [I] && !Step(M, I, s).Next? ==>
              StepBlock(M, F, At(from, b, s)) == After(b, Step(M, I, s))
    ensures F[b] == [I, J] && Step(M, I, s).Next? && !Step(M, J, Step(M, I, s).s).Next? ==>
              StepBlock(M, F, At(from, b, s)) == After(b, Step(M, J, Step(M, I, s).s))
  {
    hide Step, Exec;
    var two := [I, J];
    assert [J][1..] == [] && [I][1..] == [] && two[1..] == [J];
    assert PhiMoves([J], from) == [] && PhiMoves([I], from) == [];
    assert PhiMoves(two, from) == if I.op.Nop? then PhiMoves(two[1..], from) else [];
    ExecShort(M, I, J, s);
  }

  function After(b: nat, o: Outcome): Config
  {
    match o
    case Goto(t, s) => At(b, t, s)
    case _ => Finished(o)
  }

  lemma RunThree(M: Machine, F: Func, n: nat, d: nat, u: nat, I: Instr, returned: Operand, s: State, s1: State)
    requires Positions(n, d, u) && |F| == n && !I.op.Phi? && Step(M, I, s) == Next(s1)
    requires forall k :: 0 <= k < n ==> F[k] == BlockAt(d, u, k, I, returned)
    ensures Run(M, F, At(n, 0, s), 3) == Finished(Return(Eval(M, s1, returned), s1))
  {
    var R := RetOf(returned);
    var c := At(n, 0, s);
    assert Step(M, JmpTo(d), s) == Goto(d, s) && Step(M, JmpTo(u), s1) == Goto(u, s1);
    assert Step(M, R, s1) == Return(Eval(M, s1, returned), s1);
    hide Step, StepBlock;
    BlockSteps(M, F, n, 0, JmpTo(d), JmpTo(d), s);
    BlockSteps(M, F, 0, d, I, JmpTo(u), s);
    BlockSteps(M, F, d, u, R, R, s1);
    assert Run(M, F, c, 1) == At(0, d, s);
    assert Run(M, F, c, 2) == At(d, u, s1);
  }

  lemma SumComputed(M: Machine, s: State, t: nat, a: Signed, b: Signed)
    requires t !in M.allocas
    ensures var o := Step(M, AddTo(t, Const(a, 8), Const(b, 8)), s);
            o.Next? && Get(M, o.s, Var(Tmp, t)) == Wrap(a + b)
  {
    WrapAdd(a, b);
  }

  predicate Returns(c: Config, w: Word)
  {
    c.Finished? && c.out.Return? && c.out.value == w
  }

  /** The original returns the sum; the folded function does if the use was redirected, and otherwise returns
      whatever t held before. */
  lemma DefAndUseRuns(M: Machine, s: State, n: nat, d: nat, u: nat, t: nat, a: Signed, b: Signed)
    requires Positions(n, d, u) && t !in M.allocas
    ensures var F, c := DefAndUse(n, d, u, t, a, b), At(n, 0, s);
            && Returns(Run(M, F, c, 3), Wrap(a + b))
            && Returns(Run(M, Fold(F), c, 3), if d < u then Wrap(a + b) else Get(M, s, Var(Tmp, t)))
  {
    var F, I := DefAndUse(n, d, u, t, a, b), AddTo(t, Const(a, 8), Const(b, 8));
    var returned := if d < u then Folded8(a, b) else Word8(Var(Tmp, t));
    SumComputed(M, s, t, a, b);
    forall k | 0 <= k < n ensures Fold(F)[k] == BlockAt(d, u, k, AddTo(t, Null, Null).(op := Nop), returned) {
      DefAndUseFolds(n, d, u, t, a, b, k);
    }
    hide Fold, Run, DefAndUse, BlockAt;
    RunThree(M, F, n, d, u, I, Word8(Var(Tmp, t)), s, Step(M, I, s).s);
    RunThree(M, Fold(F), n, d, u, AddTo(t, Null, Null).(op := Nop), returned, s, s);
  }

  ghost predicate SameEnding(M: Machine, F: Func, G: Func, c: Config, w: Word)
  {
    Returns(Run(M, F, c, 3), w) && Returns(Run(M, G, c, 3), w)
  }

  /** Folding this function is right, for every machine and state, exactly when the definition is listed first. */
  lemma LateDefinitionLostIff(n: nat, d: nat, u: nat, t: nat, a: Signed, b: Signed)
    requires Positions(n, d, u)
    ensures var F := DefAndUse(n, d, u, t, a, b);
            (forall M: Machine, s: State :: t !in M.allocas ==> SameEnding(M, F, Fold(F), At(n, 0, s), Wrap(a + b)))
            <==> d < u
  {
    hide Run, Fold, DefAndUse;
    var F := DefAndUse(n, d, u, t, a, b);
    if d < u {
      forall M: Machine, s: State | t !in M.allocas ensures SameEnding(M, F, Fold(F), At(n, 0, s), Wrap(a + b)) {
        DefAndUseRuns(M, s, n, d, u, t, a, b);
      }
    } else {
      var M := Inert((k, w) => w);
      var w: Word := if Wrap(a + b) == 0 then 1 else 0;
      var s := State(map[Var(Tmp, t) := w], Mem(map[], map[]), []);
      DefAndUseRuns(M, s, n, d, u, t, a, b);
      assert Get(M, s, Var(Tmp, t)) == w;
      assert t !in M.allocas && !SameEnding(M, F, Fold(F), At(n, 0, s), Wrap(a + b));
    }
  }
}
