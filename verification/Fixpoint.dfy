/**
 Why the optimiser's loops end. Constant folding pays with operations; forwarding, for which there is no
 single count that goes down, settles one instruction position after the other: once everything before a
 position is quiet, its tracked slots form no cycle, and each further rewrite moves along a finite chain.
 */
module Fixpoint {
  import opened Options
  import opened Ir
  import opened Liveness
  import opened Equivalence
  import opened Forward

  // ----- rewriting with a fixed set of entries -----

  /** What a plain store has overwritten before it reads its source is still overwritten when it is done. */
  ghost predicate LostStaysLost(p: Pool)
  {
    forall I: Instr, o: Operand :: I.op.Store? && ClobberedBy(p, I, o, BeforeR1) ==> ClobberedBy(p, I, o, After)
  }

  /** Without a backend to ask, every instruction is taken to overwrite every scratch register at every point. */
  lemma HooklessStaysLost(scratch: set<Reg>)
    ensures LostStaysLost(Pool(scratch, None))
  {
  }

  /** No entry changes the instruction: the pass would count no change here. */
  predicate Quiet(p: Pool, I: Instr, t: seq<Entry>)
  {
    forall e :: e in t ==> RewriteOperands(p, I, e) == I
  }

  predicate QuietCode(p: Pool, code: Code, t: seq<Entry>)
  {
    code != [] ==>
      if code[0].op.Nop? then QuietCode(p, code[1..], t)
      else Quiet(p, code[0], t) && QuietCode(p, code[1..], Track(p, code[0], t))
  }

  lemma {:induction false} QuietUnchanged(p: Pool, I: Instr, t: seq<Entry>)
    requires Quiet(p, I, t)
    ensures RewriteAll(p, I, t) == I
    decreases |t|
  {
    hide RewriteOperands;
    if t != [] {
      assert t[0] in t && forall e :: e in t[1..] ==> e in t;
      QuietUnchanged(p, I, t[1..]);
    }
  }

  lemma {:induction false} QuietCodeUnchanged(p: Pool, code: Code, t: seq<Entry>)
    requires QuietCode(p, code, t)
    ensures ForwardCode(p, code, t) == code
    decreases |code|
  {
    hide RewriteAll, Track, Quiet;
    if code != [] {
      if code[0].op.Nop? {
        QuietCodeUnchanged(p, code[1..], t);
      } else {
        QuietUnchanged(p, code[0], t);
        QuietCodeUnchanged(p, code[1..], Track(p, code[0], t));
      }
    }
  }

  // ----- chains of tracked slots -----

  predicate SelfEntry(e: Entry)
  {
    e.slot.Ref? && e.source.Ref? && e.source.v == e.slot.v
  }

  /** Following a source that is itself a tracked slot leads to a later store. */
  ghost predicate Graded(t: seq<Entry>, r: Var -> nat, top: nat)
  {
    && OnePerSlot(t)
    && (forall e :: e in t ==> r(e.slot.v) < top)
    && (forall e, e2 :: e in t && e2 in t && !SelfEntry(e) && !SelfEntry(e2) && Matches(e.source, e2.slot) ==>
          r(e.slot.v) < r(e2.slot.v))
  }

  /** How many more rewrites an operand can see. */
  function Weight(t: seq<Entry>, r: Var -> nat, top: nat, o: Operand): nat
  {
    var j := Find(t, o);
    if j == |t| then 0
    else if SelfEntry(t[j]) then (if o == t[j].source then 0 else 1)
    else 2 + 2 * (if r(t[j].slot.v) < top then top - r(t[j].slot.v) else 0)
  }

  lemma FindThe(t: seq<Entry>, o: Operand, e: Entry)
    requires OnePerSlot(t) && e in t && Matches(o, e.slot)
    ensures Find(t, o) < |t| && t[Find(t, o)] == e
  {
    var i :| 0 <= i < |t| && t[i] == e;
    var j := Find(t, o);
    assert !(i < j);
    assert forall k :: 0 <= k < |t| && k != i ==> t[k].slot.v != t[i].slot.v;
  }

  /** A rewrite that changes an operand makes it lighter. */
  lemma RewriteLighter(t: seq<Entry>, r: Var -> nat, top: nat, o: Operand, e: Entry)
    requires Graded(t, r, top) && e in t
    ensures Weight(t, r, top, RewriteOne(o, e)) <= Weight(t, r, top, o)
    ensures RewriteOne(o, e) != o ==> Weight(t, r, top, RewriteOne(o, e)) < Weight(t, r, top, o)
  {
    if Matches(o, e.slot) {
      FindThe(t, o, e);
      var o' := e.source;
      var j := Find(t, o');
      if j < |t| {
        assert t[j] in t && Matches(o', t[j].slot);
        if SelfEntry(e) { FindThe(t, o', e); }
      }
    }
  }

  // ----- all operands of an instruction -----

  function WeightOf(t: seq<Entry>, r: Var -> nat, top: nat, os: seq<Operand>): nat
  {
    if os == [] then 0 else Weight(t, r, top, os[0]) + WeightOf(t, r, top, os[1..])
  }

  lemma {:induction false} PointwiseLighter(t: seq<Entry>, r: Var -> nat, top: nat, os: seq<Operand>, os': seq<Operand>)
    requires |os| == |os'| && forall i :: 0 <= i < |os| ==> LighterOrSame(t, r, top, os[i], os'[i])
    ensures WeightOf(t, r, top, os') <= WeightOf(t, r, top, os)
    ensures os != os' ==> WeightOf(t, r, top, os') < WeightOf(t, r, top, os)
    decreases |os|
  {
    hide Weight;
    if os != [] {
      assert LighterOrSame(t, r, top, os[0], os'[0]);
      forall i | 0 <= i < |os[1..]| ensures LighterOrSame(t, r, top, os[1..][i], os'[1..][i]) {
        assert LighterOrSame(t, r, top, os[i + 1], os'[i + 1]);
      }
      PointwiseLighter(t, r, top, os[1..], os'[1..]);
      assert os == [os[0]] + os[1..] && os' == [os'[0]] + os'[1..];
    }
  }

  predicate LighterOrSame(t: seq<Entry>, r: Var -> nat, top: nat, o: Operand, o': Operand)
  {
    o' == o || Weight(t, r, top, o') < Weight(t, r, top, o)
  }

  function InstrWeight(t: seq<Entry>, r: Var -> nat, top: nat, I: Instr): nat
  {
    Weight(t, r, top, I.r1) + Weight(t, r, top, I.r2) + Weight(t, r, top, I.dst)
    + WeightOf(t, r, top, I.args) + WeightOf(t, r, top, Values(I.pairs))
  }

  lemma StepLighter(p: Pool, I: Instr, t: seq<Entry>, r: Var -> nat, top: nat, e: Entry)
    requires Graded(t, r, top) && e in t
    ensures InstrWeight(t, r, top, RewriteOperands(p, I, e)) <= InstrWeight(t, r, top, I)
    ensures RewriteOperands(p, I, e) != I ==>
      InstrWeight(t, r, top, RewriteOperands(p, I, e)) < InstrWeight(t, r, top, I)
  {
    hide Weight, Graded, RewriteOperands, WeightOf;
    var J := RewriteOperands(p, I, e);
    RewriteFields(p, I, e);
    RewriteLighter(t, r, top, I.r1, e);
    RewriteLighter(t, r, top, I.r2, e);
    RewriteLighter(t, r, top, I.dst, e);
    ArgsLighter(t, r, top, I, J, e);
    PairsLighter(t, r, top, I, J, e);
  }

  /** Each operand is rewritten or left alone, and nothing else is touched. */
  lemma RewriteFields(p: Pool, I: Instr, e: Entry)
    ensures var J := RewriteOperands(p, I, e);
            && (J.r1 == I.r1 || J.r1 == RewriteOne(I.r1, e))
            && (J.r2 == I.r2 || J.r2 == RewriteOne(I.r2, e))
            && (J.dst == I.dst || J.dst == RewriteOne(I.dst, e))
            && (J.args == I.args || J.args == RewriteArgs(I.args, e))
            && (J.pairs == I.pairs || J.pairs == RewritePairs(I.pairs, e))
            && J == I.(r1 := J.r1, r2 := J.r2, dst := J.dst, args := J.args, pairs := J.pairs)
  {
    hide ClobberedBy, RewriteOne, RewriteArgs, RewritePairs, InScratch;
    if I.op.Lea? || I.op.Load? { return; }
    var J := RewriteOperands(p, I, e);
    assert J.r1 == I.r1 || J.r1 == RewriteOne(I.r1, e);
  }

  lemma ArgsLighter(t: seq<Entry>, r: Var -> nat, top: nat, I: Instr, J: Instr, e: Entry)
    requires Graded(t, r, top) && e in t && (J.args == I.args || J.args == RewriteArgs(I.args, e))
    ensures WeightOf(t, r, top, J.args) <= WeightOf(t, r, top, I.args)
    ensures J.args != I.args ==> WeightOf(t, r, top, J.args) < WeightOf(t, r, top, I.args)
  {
    hide Weight, Graded;
    if J.args != I.args {
      forall i | 0 <= i < |I.args| ensures LighterOrSame(t, r, top, I.args[i], J.args[i]) {
        RewriteLighter(t, r, top, I.args[i], e);
      }
      PointwiseLighter(t, r, top, I.args, J.args);
    }
  }

  lemma SamePairs(ps: seq<PhiPair>, qs: seq<PhiPair>)
    requires |ps| == |qs| && Values(ps) == Values(qs) && forall i :: 0 <= i < |ps| ==> ps[i].block == qs[i].block
    ensures ps == qs
  {
    forall i | 0 <= i < |ps| ensures ps[i] == qs[i] {
      assert Values(ps)[i] == Values(qs)[i];
    }
  }

  lemma PairsLighter(t: seq<Entry>, r: Var -> nat, top: nat, I: Instr, J: Instr, e: Entry)
    requires Graded(t, r, top) && e in t && (J.pairs == I.pairs || J.pairs == RewritePairs(I.pairs, e))
    ensures WeightOf(t, r, top, Values(J.pairs)) <= WeightOf(t, r, top, Values(I.pairs))
    ensures J.pairs != I.pairs ==> WeightOf(t, r, top, Values(J.pairs)) < WeightOf(t, r, top, Values(I.pairs))
  {
    hide Weight, Graded;
    if J.pairs != I.pairs {
      var a, b := Values(I.pairs), Values(J.pairs);
      forall i | 0 <= i < |a| ensures LighterOrSame(t, r, top, a[i], b[i]) {
        RewriteLighter(t, r, top, a[i], e);
      }
      PointwiseLighter(t, r, top, a, b);
      if a == b { SamePairs(I.pairs, J.pairs); }
    }
  }

  /** One pass over a position: unless it was quiet, it gets lighter. */
  lemma {:induction false} PassLighter(p: Pool, I: Instr, t: seq<Entry>, r: Var -> nat, top: nat, s: seq<Entry>)
    requires Graded(t, r, top) && forall e :: e in s ==> e in t
    ensures InstrWeight(t, r, top, RewriteAll(p, I, s)) <= InstrWeight(t, r, top, I)
    ensures !Quiet(p, I, s) ==> InstrWeight(t, r, top, RewriteAll(p, I, s)) < InstrWeight(t, r, top, I)
    decreases |s|
  {
    hide InstrWeight, Graded, RewriteOperands;
    if s != [] {
      assert s[0] in s && forall e :: e in s[1..] ==> e in s;
      StepLighter(p, I, t, r, top, s[0]);
      PassLighter(p, RewriteOperands(p, I, s[0]), t, r, top, s[1..]);
    }
  }

  // ----- the tracked slots of quiet code -----

  lemma SubsetGraded(t: seq<Entry>, r: Var -> nat, top: nat, s: seq<Entry>)
    requires Graded(t, r, top) && OnePerSlot(s) && forall e :: e in s ==> e in t
    ensures Graded(s, r, top)
  {
  }

  /** A quiet store's source is no other tracked slot, so recording it at a new time keeps the chains rising. */
  lemma RememberGraded(t: seq<Entry>, r: Var -> nat, top: nat, slot: Operand, source: Operand)
    requires Graded(t, r, top) && slot.Ref?
    requires forall e :: e in t && Matches(source, e.slot) ==> e.source == source
    ensures Graded(Remember(t, slot, source), v => if v == slot.v then top else r(v), top + 1)
  {
    RememberUnique(t, slot, source);
    var t', r' := Remember(t, slot, source), (v: Var) => if v == slot.v then top else r(v);
    forall e, e2 | e in t' && e2 in t' && !SelfEntry(e) && !SelfEntry(e2) && Matches(e.source, e2.slot)
      ensures r'(e.slot.v) < r'(e2.slot.v)
    {
    }
  }

  lemma QuietStore(p: Pool, I: Instr, t: seq<Entry>, e: Entry)
    requires LostStaysLost(p) && I.op.Store? && Quiet(p, I, t) && e in t && Matches(I.r1, e.slot)
    requires !ClobberedBy(p, I, e.source, After)
    ensures e.source == I.r1
  {
    assert RewriteOperands(p, I, e) == I;
    assert !ClobberedBy(p, I, e.source, BeforeR1);
  }

  /** Grades carry over a quiet instruction. */
  lemma TrackGraded(p: Pool, I: Instr, t: seq<Entry>, r: Var -> nat, top: nat) returns (r': Var -> nat, top': nat)
    requires LostStaysLost(p) && Graded(t, r, top) && Quiet(p, I, t) && NamesItsSlot(I)
    ensures Graded(Track(p, I, t), r', top')
  {
    hide RewriteOperands, ClobberedBy, Graded;
    r', top' := r, top;
    if KillsAll(I.op) {
      SubsetGraded(t, r, top, []);
      return;
    }
    assert OnePerSlot(t) by { GradedUnique(t, r, top); }
    var t1 := if I.op.Jmp? || I.op.Phi? || I.op.Alloca? then t else DropClobbered(p, I, t, 0);
    DropClobberedUnique(p, I, t, 0);
    KeptNotClobbered(p, I, t, 0);
    SubsetGraded(t, r, top, t1);
    if I.op.Store? && !I.dst.Null? && !I.r1.Null? && ByteSize(I.r1) == 8 {
      forall e | e in t1 && Matches(I.r1, e.slot) ensures e.source == I.r1 {
        QuietStore(p, I, t, e);
      }
      RememberGraded(t1, r, top, I.dst, I.r1);
      r', top' := v => if v == I.dst.v then top else r(v), top + 1;
    } else {
      ForgetGraded(t1, r, top, I.dst);
    }
  }

  lemma GradedUnique(t: seq<Entry>, r: Var -> nat, top: nat)
    requires Graded(t, r, top)
    ensures OnePerSlot(t)
  {
  }

  lemma ForgetGraded(t: seq<Entry>, r: Var -> nat, top: nat, o: Operand)
    requires Graded(t, r, top)
    ensures Graded(Forget(t, o), r, top)
  {
    if o.Ref? {
      ForgetRemoves(t, o);
      SubsetGraded(t, r, top, Forget(t, o));
    } else {
      assert Find(t, o) == |t|;
    }
  }

  // ----- a whole block -----

  predicate NamesItsSlot(I: Instr)
  {
    I.op.Store? ==> !I.dst.Const?
  }

  predicate NamedStores(code: Code)
  {
    forall i :: 0 <= i < |code| ==> NamesItsSlot(code[i])
  }

  /** The pass repeated k times on one block that starts with t known. */
  function Again(p: Pool, code: Code, t: seq<Entry>, k: nat): Code
    decreases k
  {
    if k == 0 then code else ForwardCode(p, Again(p, code, t, k - 1), t)
  }

  lemma {:induction false} AgainMore(p: Pool, code: Code, t: seq<Entry>, j: nat, k: nat)
    ensures Again(p, Again(p, code, t, j), t, k) == Again(p, code, t, j + k)
    decreases k
  {
    hide ForwardCode;
    if k > 0 { AgainMore(p, code, t, j, k - 1); }
  }

  lemma {:induction false} AgainQuiet(p: Pool, code: Code, t: seq<Entry>, k: nat)
    requires QuietCode(p, code, t)
    ensures Again(p, code, t, k) == code
    decreases k
  {
    if k > 0 {
      AgainQuiet(p, code, t, k - 1);
      QuietCodeUnchanged(p, code, t);
    }
  }

  /** Passes needed until the first instruction is quiet. */
  lemma {:induction false} HeadSettles(p: Pool, I: Instr, t: seq<Entry>, r: Var -> nat, top: nat)
    returns (k: nat, J: Instr)
    requires Graded(t, r, top)
    ensures Quiet(p, J, t) && J == Repeat(p, I, t, k)
    decreases InstrWeight(t, r, top, I)
  {
    hide InstrWeight, Graded, RewriteOperands, RewriteAll;
    if Quiet(p, I, t) {
      k, J := 0, I;
    } else {
      PassLighter(p, I, t, r, top, t);
      k, J := HeadSettles(p, RewriteAll(p, I, t), t, r, top);
      RepeatShift(p, I, t, k);
      k := k + 1;
    }
  }

  function Repeat(p: Pool, I: Instr, t: seq<Entry>, k: nat): Instr
    decreases k
  {
    if k == 0 then I else RewriteAll(p, Repeat(p, I, t, k - 1), t)
  }

  lemma {:induction false} RepeatShift(p: Pool, I: Instr, t: seq<Entry>, k: nat)
    ensures Repeat(p, RewriteAll(p, I, t), t, k) == Repeat(p, I, t, k + 1)
    decreases k
  {
    if k > 0 { RepeatShift(p, I, t, k - 1); }
  }

  lemma {:induction false} AgainHead(p: Pool, code: Code, t: seq<Entry>, k: nat)
    requires code != [] && !code[0].op.Nop?
    ensures var c := Again(p, code, t, k);
            |c| == |code| && c[0] == Repeat(p, code[0], t, k) && c[0].op == code[0].op
    decreases k
  {
    hide RewriteAll;
    if k > 0 {
      AgainHead(p, code, t, k - 1);
      RewriteAllKeepsOp(p, Repeat(p, code[0], t, k - 1), t);
    }
  }

  lemma {:induction false} AgainNop(p: Pool, code: Code, t: seq<Entry>, k: nat)
    requires code != [] && code[0].op.Nop?
    ensures Again(p, code, t, k) == [code[0]] + Again(p, code[1..], t, k)
    decreases k
  {
    hide RewriteAll, Track;
    if k > 0 {
      AgainNop(p, code, t, k - 1);
    } else {
      assert code == [code[0]] + code[1..];
    }
  }

  lemma {:induction false} AgainTail(p: Pool, code: Code, t: seq<Entry>, k: nat)
    requires code != [] && !code[0].op.Nop? && Quiet(p, code[0], t)
    ensures Again(p, code, t, k) == [code[0]] + Again(p, code[1..], Track(p, code[0], t), k)
    decreases k
  {
    hide RewriteAll, Track, Quiet;
    if k > 0 {
      AgainTail(p, code, t, k - 1);
      QuietUnchanged(p, code[0], t);
    } else {
      assert code == [code[0]] + code[1..];
    }
  }

  lemma {:induction false} RewriteAllNames(p: Pool, I: Instr, t: seq<Entry>)
    requires NamesItsSlot(I)
    ensures NamesItsSlot(RewriteAll(p, I, t))
    decreases |t|
  {
    hide ClobberedBy, RewriteOne, RewriteArgs, RewritePairs, InScratch;
    if t != [] { RewriteAllNames(p, RewriteOperands(p, I, t[0]), t[1..]); }
  }

  lemma {:induction false} ForwardNames(p: Pool, code: Code, t: seq<Entry>)
    requires NamedStores(code)
    ensures NamedStores(ForwardCode(p, code, t))
    decreases |code|
  {
    hide RewriteAll, Track, NamesItsSlot;
    if code != [] {
      var t' := if code[0].op.Nop? then t else Track(p, RewriteAll(p, code[0], t), t);
      RewriteAllNames(p, code[0], t);
      ForwardNames(p, code[1..], t');
    }
  }

  lemma {:induction false} AgainNames(p: Pool, code: Code, t: seq<Entry>, k: nat)
    requires NamedStores(code)
    ensures NamedStores(Again(p, code, t, k)) && |Again(p, code, t, k)| == |code|
    decreases k
  {
    if k > 0 {
      AgainNames(p, code, t, k - 1);
      ForwardNames(p, Again(p, code, t, k - 1), t);
    }
  }

  /** Every block becomes quiet after finitely many passes. */
  lemma {:induction false} BlockSettles(p: Pool, code: Code, t: seq<Entry>, r: Var -> nat, top: nat) returns (k: nat)
    requires LostStaysLost(p) && Graded(t, r, top) && NamedStores(code)
    ensures QuietCode(p, Again(p, code, t, k), t)
    decreases |code|
  {
    hide RewriteAll, Track, Quiet, Graded, LostStaysLost, Again, NamesItsSlot;
    if code == [] {
      k := 0;
      AgainZero(p, code, t);
    } else if code[0].op.Nop? {
      k := BlockSettles(p, code[1..], t, r, top);
      AgainNop(p, code, t, k);
    } else {
      var k1, J := HeadSettles(p, code[0], t, r, top);
      var c1 := Again(p, code, t, k1);
      AgainHead(p, code, t, k1);
      AgainNames(p, code, t, k1);
      var r', top' := TrackGraded(p, J, t, r, top);
      var k2 := BlockSettles(p, c1[1..], Track(p, J, t), r', top');
      AgainTail(p, c1, t, k2);
      AgainMore(p, code, t, k1, k2);
      k := k1 + k2;
    }
  }

  lemma AgainZero(p: Pool, code: Code, t: seq<Entry>)
    ensures Again(p, code, t, 0) == code
  {
  }

  // ----- the whole function -----

  function FuncAgain(p: Pool, F: Func, k: nat): Func
    decreases k
  {
    if k == 0 then F else ForwardFunc(p, FuncAgain(p, F, k - 1))
  }

  predicate QuietFunc(p: Pool, F: Func)
  {
    forall b :: 0 <= b < |F| ==> QuietCode(p, F[b], [])
  }

  predicate FuncNamed(F: Func)
  {
    forall b :: 0 <= b < |F| ==> NamedStores(F[b])
  }

  lemma {:induction false} FuncAgainBlocks(p: Pool, F: Func, k: nat)
    ensures |FuncAgain(p, F, k)| == |F| && forall b :: 0 <= b < |F| ==> FuncAgain(p, F, k)[b] == Again(p, F[b], [], k)
    decreases k
  {
    hide ForwardCode;
    if k > 0 { FuncAgainBlocks(p, F, k - 1); }
  }

  /** Waiting longer does no harm. */
  lemma QuietLater(p: Pool, code: Code, j: nat, k: nat)
    requires j <= k && QuietCode(p, Again(p, code, [], j), [])
    ensures QuietCode(p, Again(p, code, [], k), [])
  {
    hide QuietCode, Again;
    AgainMore(p, code, [], j, k - j);
    AgainQuiet(p, Again(p, code, [], j), [], k - j);
  }

  lemma {:induction false} BlocksSettle(p: Pool, F: Func, n: nat) returns (k: nat)
    requires LostStaysLost(p) && FuncNamed(F) && n <= |F|
    ensures forall b :: 0 <= b < n ==> QuietCode(p, Again(p, F[b], [], k), [])
    decreases n
  {
    hide QuietCode, Again, LostStaysLost, NamedStores;
    if n == 0 {
      k := 0;
    } else {
      var k1 := BlocksSettle(p, F, n - 1);
      NothingGraded();
      var k2 := BlockSettles(p, F[n - 1], [], v => 0, 0);
      k := if k1 < k2 then k2 else k1;
      forall b | 0 <= b < n ensures QuietCode(p, Again(p, F[b], [], k), []) {
        QuietLater(p, F[b], if b < n - 1 then k1 else k2, k);
      }
    }
  }

  lemma NothingGraded()
    ensures Graded([], v => 0, 0)
  {
  }

  /** Forwarding, repeated on its own, reaches a point where it counts no change, from every function. */
  lemma ForwardingSettles(p: Pool, F: Func) returns (k: nat)
    requires LostStaysLost(p) && FuncNamed(F)
    ensures QuietFunc(p, FuncAgain(p, F, k))
  {
    hide QuietCode, Again, LostStaysLost, FuncNamed;
    k := BlocksSettle(p, F, |F|);
    FuncAgainBlocks(p, F, k);
  }

  lemma QuietFuncUnchanged(p: Pool, F: Func)
    requires QuietFunc(p, F)
    ensures ForwardFunc(p, F) == F
  {
    hide QuietCode, ForwardCode;
    forall b | 0 <= b < |F| ensures ForwardFunc(p, F)[b] == F[b] {
      QuietCodeUnchanged(p, F[b], []);
    }
  }

  lemma FuncNamedKept(p: Pool, F: Func)
    requires FuncNamed(F)
    ensures FuncNamed(ForwardFunc(p, F))
  {
    hide ForwardCode, NamedStores;
    forall b | 0 <= b < |F| ensures NamedStores(ForwardFunc(p, F)[b]) {
      ForwardNames(p, F[b], []);
    }
  }

  lemma {:induction false} FuncAgainShift(p: Pool, F: Func, k: nat)
    ensures FuncAgain(p, ForwardFunc(p, F), k) == FuncAgain(p, F, k + 1)
    decreases k
  {
    hide ForwardFunc;
    if k > 0 { FuncAgainShift(p, F, k - 1); }
  }

  ghost predicate FuncSettled(F: Func)
  {
    forall b :: 0 <= b < |F| ==> Settled(F[b])
  }

  /** However often forwarding is repeated, the condition on the first function keeps every run as it was, state
      for state. */
  lemma {:induction false} ForwardingRepeated(M: Machine, p: Pool, F: Func, k: nat, c: Config, n: nat)
    requires FuncSettled(F)
    ensures FuncSettled(FuncAgain(p, F, k)) && Run(M, FuncAgain(p, F, k), c, n) == Run(M, F, c, n)
    decreases k
  {
    hide ForwardCode, Settled, HazardFree, Run;
    if k > 0 {
      var G := FuncAgain(p, F, k - 1);
      ForwardingRepeated(M, p, F, k - 1, c, n);
      forall b | 0 <= b < |G| ensures Settled(ForwardCode(p, G[b], [])) && HazardFree(p, G[b], []) {
        ForwardKeepsSettled(p, G[b]);
        NothingCarried(G[b]);
        SettledIsHazardFree(p, G[b], []);
      }
      ForwardPreservesRuns(M, p, G, c, n);
    }
  }

  lemma NothingCarried(code: Code)
    ensures OnePerSlot([]) && Carries(code, [])
  {
  }
}
