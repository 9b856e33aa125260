/**
 Simplifying the control-flow graph: dropping blocks that only jump on (irFoldPassThroughBlocks) and
 appending a block to its only predecessor (irRemoveRedundantBlocks).

 A dropped block keeps its number here and is simply never entered again. The two runs do not stay
 in step, since the simplified function needs fewer jumps; they meet again and again in the same
 state, and neither can run on without the other, so infinite runs correspond as well.
 */
module Cfg {
  import opened Ir

  function Redirect(t: nat, e: nat, x: nat): nat
  {
    if t == e then x else t
  }

  function RedirectPairs(ps: seq<PhiPair>, e: nat, x: nat): (r: seq<PhiPair>)
    ensures |r| == |ps| && forall i :: 0 <= i < |ps| ==> r[i] == ps[i].(block := Redirect(ps[i].block, e, x))
  {
    seq(|ps|, i requires 0 <= i < |ps| => ps[i].(block := Redirect(ps[i].block, e, x)))
  }

  /** irRemapInstrBlockIds on one instruction */
  function Retarget(I: Instr, e: nat, x: nat): Instr
  {
    match I.op
    case Phi => I.(pairs := RedirectPairs(I.pairs, e, x))
    case Br(t, f) => I.(op := Br(Redirect(t, e, x), Redirect(f, e, x)))
    case CmpBr(c, t, f) => I.(op := CmpBr(c, Redirect(t, e, x), Redirect(f, e, x)))
    case Jmp(t) => I.(op := Jmp(Redirect(t, e, x)))
    case _ => I
  }

  function RetargetCode(code: Code, e: nat, x: nat): (r: Code)
    ensures |r| == |code| && forall i :: 0 <= i < |code| ==> r[i] == Retarget(code[i], e, x)
  {
    seq(|code|, i requires 0 <= i < |code| => Retarget(code[i], e, x))
  }

  predicate IsControl(op: Op)
  {
    op.Br? || op.CmpBr? || op.Jmp? || op.Ret?
  }

  predicate ControlLast(code: Code)
  {
    forall i :: 0 <= i < |code| - 1 ==> !IsControl(code[i].op)
  }

  predicate NoPhis(code: Code)
  {
    forall i :: 0 <= i < |code| ==> !code[i].op.Phi?
  }

  predicate BranchesAt(I: Instr, t: nat)
  {
    match I.op
    case Br(x, y) => x == t || y == t
    case CmpBr(_, x, y) => x == t || y == t
    case Jmp(x) => x == t
    case _ => false
  }

  predicate BranchesTo(code: Code, t: nat)
  {
    exists i :: 0 <= i < |code| && BranchesAt(code[i], t)
  }

  /** A phi names predecessors only. */
  predicate PhisNamePreds(F: Func)
  {
    forall b, i, p :: 0 <= b < |F| && 0 <= i < |F[b]| && F[b][i].op.Phi? && p in F[b][i].pairs ==>
      p.block < |F| && BranchesTo(F[p.block], b)
  }

  predicate NoPairNames(code: Code, e: nat)
  {
    forall i, p :: 0 <= i < |code| && code[i].op.Phi? && p in code[i].pairs ==> p.block != e
  }

  function Redirected(o: Outcome, e: nat, x: nat): Outcome
  {
    match o
    case Goto(t, s) => Goto(Redirect(t, e, x), s)
    case _ => o
  }

  lemma {:induction false} RetargetExec(M: Machine, code: Code, e: nat, x: nat, s: State)
    ensures Exec(M, RetargetCode(code, e, x), s) == Redirected(Exec(M, code, s), e, x)
    decreases |code|
  {
    if code != [] {
      RetargetStep(M, code[0], e, x, s);
      assert RetargetCode(code, e, x)[1..] == RetargetCode(code[1..], e, x);
      if Step(M, code[0], s).Next? { RetargetExec(M, code[1..], e, x, Step(M, code[0], s).s); }
    }
  }

  lemma RetargetStep(M: Machine, I: Instr, e: nat, x: nat, s: State)
    ensures Step(M, Retarget(I, e, x), s) == Redirected(Step(M, I, s), e, x)
  {
    hide Alu, Assign, Compare;
  }

  /** Phis are read the same way if relabelling the incoming edge is undone by relabelling the pairs. */
  lemma {:induction false} RetargetIncoming(ps: seq<PhiPair>, e: nat, x: nat, from: nat)
    requires from != e && (from == x ==> forall p :: p in ps ==> p.block != e)
    ensures Incoming(RedirectPairs(ps, e, x), from) == Incoming(ps, from)
    decreases |ps|
  {
    if ps != [] {
      assert RedirectPairs(ps, e, x)[1..] == RedirectPairs(ps[1..], e, x);
      assert ps[0] in ps;
      RetargetIncoming(ps[1..], e, x, from);
    }
  }

  lemma {:induction false} RelabelledIncoming(ps: seq<PhiPair>, e: nat, x: nat)
    requires forall p :: p in ps ==> p.block != x
    ensures Incoming(RedirectPairs(ps, e, x), x) == Incoming(ps, e)
    decreases |ps|
  {
    if ps != [] {
      assert RedirectPairs(ps, e, x)[1..] == RedirectPairs(ps[1..], e, x);
      assert ps[0] in ps;
      RelabelledIncoming(ps[1..], e, x);
    }
  }

  lemma {:induction false} RetargetMoves(code: Code, e: nat, x: nat, from: nat)
    requires from != e && (from == x ==> NoPairNames(code, e))
    ensures PhiMoves(RetargetCode(code, e, x), from) == PhiMoves(code, from)
    decreases |code|
  {
    if code != [] {
      assert RetargetCode(code, e, x)[1..] == RetargetCode(code[1..], e, x);
      if code[0].op.Phi? || code[0].op.Nop? {
        assert from == x ==> NoPairNames(code[1..], e);
        RetargetMoves(code[1..], e, x, from);
        if code[0].op.Phi? { RetargetIncoming(code[0].pairs, e, x, from); }
      }
    }
  }

  lemma {:induction false} RelabelledMoves(code: Code, e: nat, x: nat)
    requires NoPairNames(code, x)
    ensures PhiMoves(RetargetCode(code, e, x), x) == PhiMoves(code, e)
    decreases |code|
  {
    if code != [] {
      assert RetargetCode(code, e, x)[1..] == RetargetCode(code[1..], e, x);
      if code[0].op.Phi? || code[0].op.Nop? {
        assert NoPairNames(code[1..], x);
        RelabelledMoves(code[1..], e, x);
        if code[0].op.Phi? { RelabelledIncoming(code[0].pairs, e, x); }
      }
    }
  }

  lemma {:induction false} NoPhisNoEffect(code: Code, from: nat)
    requires NoPhis(code)
    ensures PhiMoves(code, from) == []
    decreases |code|
  {
    if code != [] && code[0].op.Nop? { NoPhisNoEffect(code[1..], from); }
  }

  // ----- pass-through blocks -----

  /** Block e does nothing but jump to x, which begins without phis; the entry block is never folded. */
  predicate PassThrough(F: Func, e: nat, x: nat)
  {
    && 0 < e < |F| && x < |F| && x != e && NoPhis(F[x])
    && |F[e]| == 1 && F[e][0].op == Jmp(x)
  }

  /** Every branch to e goes straight to x. */
  function FoldPassThrough(F: Func, e: nat, x: nat): (G: Func)
    ensures |G| == |F| && forall b :: 0 <= b < |F| ==> G[b] == RetargetCode(F[b], e, x)
  {
    seq(|F|, b requires 0 <= b < |F| => RetargetCode(F[b], e, x))
  }

  /** The configurations at which the two runs meet; the original may be waiting in e. */
  predicate MeetPass(F: Func, e: nat, x: nat, c: Config, d: Config)
  {
    match (c, d)
    case (At(f1, b1, s1), At(f2, b2, s2)) =>
      && s1 == s2 && b2 != e
      && (if b1 == e then b2 == x else b1 == b2 && ((f1 == f2 && f1 != e) || (b1 < |F| && NoPhis(F[b1]))))
    case (Finished(o1), Finished(o2)) => o1 == o2
    case _ => false
  }

  lemma NobodyNamesPass(F: Func, e: nat, x: nat, b: nat)
    requires PassThrough(F, e, x) && PhisNamePreds(F) && b < |F|
    ensures NoPairNames(F[b], e)
  {
    forall i, p | 0 <= i < |F[b]| && F[b][i].op.Phi? && p in F[b][i].pairs ensures p.block != e {
      assert BranchesTo(F[p.block], b);
    }
  }

  predicate Waiting(c: Config, e: nat)
  {
    c.At? && c.block == e
  }

  lemma PassStep(M: Machine, F: Func, e: nat, x: nat, c: Config, d: Config)
    requires PassThrough(F, e, x) && PhisNamePreds(F) && MeetPass(F, e, x, c, d)
    ensures var G := FoldPassThrough(F, e, x);
            if Waiting(c, e) then MeetPass(F, e, x, StepBlock(M, F, c), d) && !Waiting(StepBlock(M, F, c), e)
            else MeetPass(F, e, x, StepBlock(M, F, c), StepBlock(M, G, d))
  {
    hide PhisNamePreds, Exec;
    var G := FoldPassThrough(F, e, x);
    if Waiting(c, e) {
      NoPhisNoEffect(F[e], c.from);
      JumpExec(M, F[e], x, c.s);
    } else if c.At? && c.block < |F| {
      var b := c.block;
      if NoPhis(F[b]) {
        NoPhisNoEffect(F[b], c.from);
        assert NoPhis(G[b]);
        NoPhisNoEffect(G[b], d.from);
      } else {
        NobodyNamesPass(F, e, x, b);
        RetargetMoves(F[b], e, x, c.from);
      }
      RetargetExec(M, F[b], e, x, Enter(M, F[b], c.from, c.s));
    }
  }

  lemma JumpExec(M: Machine, code: Code, x: nat, s: State)
    requires |code| == 1 && code[0].op == Jmp(x)
    ensures Exec(M, code, s) == Goto(x, s)
  {
  }

  /** For every prefix of the original run there is a prefix of the folded one that meets it, and at
      most half of the original's steps are saved. */
  lemma {:induction false} PassForward(M: Machine, F: Func, e: nat, x: nat, c: Config, n: nat) returns (m: nat)
    requires PassThrough(F, e, x) && PhisNamePreds(F) && c.At? && c.block == 0 && c.from != e
    ensures MeetPass(F, e, x, Run(M, F, c, n), Run(M, FoldPassThrough(F, e, x), c, m))
    ensures m <= n <= 2 * m && (Waiting(Run(M, F, c, n), e) ==> n < 2 * m)
  {
    hide MeetPass, PassThrough, PhisNamePreds, StepBlock, FoldPassThrough;
    if n == 0 {
      m := 0;
      PassStart(F, e, x, c);
    } else {
      m := PassForward(M, F, e, x, c, n - 1);
      var G := FoldPassThrough(F, e, x);
      PassStep(M, F, e, x, Run(M, F, c, n - 1), Run(M, G, c, m));
      if !Waiting(Run(M, F, c, n - 1), e) { m := m + 1; }
    }
  }

  lemma PassStart(F: Func, e: nat, x: nat, c: Config)
    requires PassThrough(F, e, x) && c.At? && c.block == 0 && c.from != e
    ensures MeetPass(F, e, x, c, c) && !Waiting(c, e)
  {
  }

  /** And conversely: the folded run never gets ahead of the original by more than the saved jumps. */
  lemma {:induction false} PassBackward(M: Machine, F: Func, e: nat, x: nat, c: Config, m: nat) returns (n: nat)
    requires PassThrough(F, e, x) && PhisNamePreds(F) && c.At? && c.block == 0 && c.from != e
    ensures MeetPass(F, e, x, Run(M, F, c, n), Run(M, FoldPassThrough(F, e, x), c, m))
    ensures m <= n <= 2 * m && !Waiting(Run(M, F, c, n), e)
  {
    hide MeetPass, PassThrough, PhisNamePreds, StepBlock, FoldPassThrough;
    if m == 0 {
      n := 0;
      PassStart(F, e, x, c);
    } else {
      n := PassBackward(M, F, e, x, c, m - 1);
      var G := FoldPassThrough(F, e, x);
      PassStep(M, F, e, x, Run(M, F, c, n), Run(M, G, c, m - 1));
      n := n + 1;
      if Waiting(Run(M, F, c, n), e) {
        PassStep(M, F, e, x, Run(M, F, c, n), Run(M, G, c, m));
        n := n + 1;
      }
    }
  }

  // ----- merging a block into its only predecessor -----

  /** Block a ends by jumping to r; nothing else branches to r, and r begins without phis. */
  predicate Mergeable(F: Func, a: nat, r: nat)
  {
    && a < |F| && 0 < r < |F| && a != r && NoPhis(F[r]) && F[r] != []
    && F[a] != [] && F[a][|F[a]| - 1].op == Jmp(r)
    && (forall b :: 0 <= b < |F| ==> ControlLast(F[b]))
    && (forall b :: 0 <= b < |F| && b != a ==> !BranchesTo(F[b], r))
  }

  function Joined(F: Func, a: nat, r: nat): Code
    requires a < |F| && r < |F| && F[a] != []
  {
    F[a][..|F[a]| - 1] + F[r]
  }

  /** a takes over r's instructions, r is emptied, and phis that named r as a predecessor name a. */
  function Merge(F: Func, a: nat, r: nat): (G: Func)
    requires a < |F| && r < |F| && F[a] != []
    ensures |G| == |F|
    ensures forall b :: 0 <= b < |F| ==>
              G[b] == if b == r then [] else RetargetCode(if b == a then Joined(F, a, r) else F[b], r, a)
  {
    seq(|F|, b requires 0 <= b < |F| =>
      if b == r then [] else RetargetCode(if b == a then Joined(F, a, r) else F[b], r, a))
  }

  predicate SameMeet(a: nat, r: nat, c: Config, d: Config)
  {
    match (c, d)
    case (At(f1, b1, s1), At(f2, b2, s2)) => s1 == s2 && b1 == b2 && b1 != r && f2 == Redirect(f1, r, a) && f1 != a
    case (Finished(o1), Finished(o2)) => o1 == o2
    case _ => false
  }

  /** The original stands between a and r, which the merged run has still to do in one go. */
  ghost predicate Between(M: Machine, F: Func, a: nat, r: nat, c: Config, d: Config)
  {
    && c.At? && c.block == r && c.from == a && d.At? && d.block == a
    && exists f: nat :: f != a && Redirect(f, r, a) == d.from && StepBlock(M, F, At(f, a, d.s)) == c
  }

  lemma {:induction false} ExecPrefix(M: Machine, pre: Code, post: Code, s: State)
    requires forall i :: 0 <= i < |pre| ==> !IsControl(pre[i].op)
    ensures match RunPrefix(M, pre, s)
            case Next(s1) => Exec(M, pre + post, s) == Exec(M, post, s1)
            case o => Exec(M, pre + post, s) == o
    decreases |pre|
  {
    hide Step;
    if pre == [] {
      assert pre + post == post;
    } else {
      assert (pre + post)[1..] == pre[1..] + post;
      match Step(M, pre[0], s)
      case Next(s1) => ExecPrefix(M, pre[1..], post, s1);
      case _ =>
    }
  }

  function RunPrefix(M: Machine, pre: Code, s: State): Outcome
  {
    if pre == [] then Next(s)
    else
      match Step(M, pre[0], s)
      case Next(s1) => RunPrefix(M, pre[1..], s1)
      case o => o
  }

  lemma {:induction false} PrefixNeverJumps(M: Machine, pre: Code, s: State)
    requires forall i :: 0 <= i < |pre| ==> !IsControl(pre[i].op)
    ensures RunPrefix(M, pre, s).Next? || RunPrefix(M, pre, s).Trap?
    decreases |pre|
  {
    hide Alu, Assign, Compare;
    if pre != [] && Step(M, pre[0], s).Next? { PrefixNeverJumps(M, pre[1..], Step(M, pre[0], s).s); }
  }

  /** Leaving a for r and then running r is running the joined code. */
  lemma JoinedExec(M: Machine, F: Func, a: nat, r: nat, s: State)
    requires Mergeable(F, a, r)
    ensures match Exec(M, F[a], s)
            case Goto(t, s1) => t == r && Exec(M, Joined(F, a, r), s) == Exec(M, F[r], s1)
            case o => o.Trap? && Exec(M, Joined(F, a, r), s) == o
  {
    hide Step, BranchesTo;
    var k := |F[a]| - 1;
    var pre, last := F[a][..k], F[a][k..];
    assert F[a] == pre + last;
    forall i | 0 <= i < |pre| ensures !IsControl(pre[i].op) {
      assert ControlLast(F[a]);
    }
    PrefixNeverJumps(M, pre, s);
    ExecPrefix(M, pre, last, s);
    ExecPrefix(M, pre, F[r], s);
    if RunPrefix(M, pre, s).Next? { JumpExec(M, last, r, RunPrefix(M, pre, s).s); }
  }

  lemma {:induction false} GotoIsBranch(M: Machine, code: Code, s: State)
    ensures Exec(M, code, s).Goto? ==> BranchesTo(code, Exec(M, code, s).block)
    decreases |code|
  {
    hide Alu, Assign, Compare;
    if code != [] {
      var o := Step(M, code[0], s);
      if o.Next? {
        GotoIsBranch(M, code[1..], o.s);
        if Exec(M, code[1..], o.s).Goto? {
          var t := Exec(M, code[1..], o.s).block;
          var i :| 0 <= i < |code[1..]| && BranchesAt(code[1..][i], t);
          assert code[i + 1] == code[1..][i];
        }
      }
    }
  }

  /** Only the jump to r leaves a, so no phi outside r names a. */
  lemma NobodyNames(F: Func, a: nat, r: nat, b: nat)
    requires Mergeable(F, a, r) && PhisNamePreds(F) && b < |F| && b != r
    ensures NoPairNames(F[b], a)
  {
    forall i, p | 0 <= i < |F[b]| && F[b][i].op.Phi? && p in F[b][i].pairs ensures p.block != a {
      assert ControlLast(F[a]);
      assert p.block == a ==> BranchesTo(F[a], b);
    }
  }

  lemma {:induction false} PrefixMoves(pre: Code, post1: Code, post2: Code, from: nat)
    requires NoPhis(post1) && NoPhis(post2)
    ensures PhiMoves(pre + post1, from) == PhiMoves(pre + post2, from)
    decreases |pre|
  {
    if pre == [] {
      assert pre + post1 == post1 && pre + post2 == post2;
      NoPhisNoEffect(post1, from);
      NoPhisNoEffect(post2, from);
    } else {
      assert (pre + post1)[1..] == pre[1..] + post1 && (pre + post2)[1..] == pre[1..] + post2;
      PrefixMoves(pre[1..], post1, post2, from);
    }
  }

  lemma {:induction false} NoPairsInPrefix(pre: Code, post1: Code, post2: Code, x: nat)
    requires NoPairNames(pre + post1, x) && NoPhis(post2)
    ensures NoPairNames(pre + post2, x)
  {
    forall i | |pre| <= i < |pre + post2| ensures !(pre + post2)[i].op.Phi? {
      assert (pre + post2)[i] == post2[i - |pre|];
    }
    forall i, p | 0 <= i < |pre + post2| && (pre + post2)[i].op.Phi? && p in (pre + post2)[i].pairs
      ensures p.block != x
    {
      assert (pre + post2)[i] == pre[i] == (pre + post1)[i];
    }
  }

  /** Entering a block finds the same phi values in both functions, whatever edge was relabelled. */
  lemma MergedEnter(M: Machine, F: Func, a: nat, r: nat, b: nat, from: nat, s: State)
    requires Mergeable(F, a, r) && PhisNamePreds(F) && b < |F| && b != r && from != a
    ensures Enter(M, Merge(F, a, r)[b], Redirect(from, r, a), s) == Enter(M, F[b], from, s)
  {
    hide PhisNamePreds, AssignAll, PhiMoves, BranchesTo, NoPairNames, ControlLast;
    var code := if b == a then Joined(F, a, r) else F[b];
    NobodyNames(F, a, r, b);
    if b == a {
      var k := |F[a]| - 1;
      assert F[a] == F[a][..k] + F[a][k..];
      assert NoPhis(F[a][k..]);
      PrefixMoves(F[a][..k], F[a][k..], F[r], from);
      NoPairsInPrefix(F[a][..k], F[a][k..], F[r], a);
    }
    assert PhiMoves(code, from) == PhiMoves(F[b], from) && NoPairNames(code, a);
    if from == r {
      RelabelledMoves(code, r, a);
    } else {
      RetargetMoves(code, r, a, from);
    }
  }

  /** A block other than a does not notice the merge. */
  lemma MergeOther(M: Machine, F: Func, a: nat, r: nat, c: Config, d: Config)
    requires Mergeable(F, a, r) && PhisNamePreds(F) && SameMeet(a, r, c, d) && !Waiting(c, a)
    ensures SameMeet(a, r, StepBlock(M, F, c), StepBlock(M, Merge(F, a, r), d))
  {
    hide PhisNamePreds, Exec, BranchesTo, ControlLast;
    if c.At? && c.block < |F| {
      var b := c.block;
      MergedEnter(M, F, a, r, b, c.from, c.s);
      var s := Enter(M, F[b], c.from, c.s);
      RetargetExec(M, F[b], r, a, s);
      GotoIsBranch(M, F[b], s);
    }
  }

  /** In a, the original steps to r and waits there, or both trap. */
  lemma MergeFirst(M: Machine, F: Func, a: nat, r: nat, c: Config, d: Config)
    requires Mergeable(F, a, r) && PhisNamePreds(F) && SameMeet(a, r, c, d) && Waiting(c, a)
    ensures Between(M, F, a, r, StepBlock(M, F, c), d)
            || SameMeet(a, r, StepBlock(M, F, c), StepBlock(M, Merge(F, a, r), d))
  {
    hide PhisNamePreds, Exec, Mergeable;
    MergeBounds(F, a, r);
    var s := Enter(M, F[a], c.from, c.s);
    MergedEnter(M, F, a, r, a, c.from, c.s);
    JoinedExec(M, F, a, r, s);
    RetargetExec(M, Joined(F, a, r), r, a, s);
    assert c == At(c.from, a, d.s);
  }

  lemma MergeBounds(F: Func, a: nat, r: nat)
    requires Mergeable(F, a, r)
    ensures a < |F| && r < |F| && a != r && F[a] != []
    ensures !BranchesTo(F[r], r) && NoPhis(F[r])
  {
  }

  lemma MergeSecond(M: Machine, F: Func, a: nat, r: nat, c: Config, d: Config)
    requires Mergeable(F, a, r) && PhisNamePreds(F) && Between(M, F, a, r, c, d)
    ensures SameMeet(a, r, StepBlock(M, F, c), StepBlock(M, Merge(F, a, r), d))
  {
    hide PhisNamePreds, Exec, Mergeable, NoPhis, BranchesTo;
    MergeBounds(F, a, r);
    var f: nat :| f != a && Redirect(f, r, a) == d.from && StepBlock(M, F, At(f, a, d.s)) == c;
    var s := Enter(M, F[a], f, d.s);
    MergedEnter(M, F, a, r, a, f, d.s);
    JoinedExec(M, F, a, r, s);
    RetargetExec(M, Joined(F, a, r), r, a, s);
    NoPhisNoEffect(F[r], a);
    GotoIsBranch(M, F[r], c.s);
  }

  ghost predicate MeetMerge(M: Machine, F: Func, a: nat, r: nat, c: Config, d: Config)
  {
    SameMeet(a, r, c, d) || Between(M, F, a, r, c, d)
  }

  /** A run starts at the entry, coming from no block of the function. */
  predicate FromOutside(F: Func, c: Config)
  {
    c.At? && c.block == 0 && c.from >= |F|
  }

  lemma MergeStart(M: Machine, F: Func, a: nat, r: nat, c: Config)
    requires Mergeable(F, a, r) && FromOutside(F, c)
    ensures SameMeet(a, r, c, c)
  {
  }

  /** Every prefix of the original run is met by a prefix of the merged one. */
  lemma {:induction false} MergeForward(M: Machine, F: Func, a: nat, r: nat, c: Config, n: nat) returns (m: nat)
    requires Mergeable(F, a, r) && PhisNamePreds(F) && FromOutside(F, c)
    ensures MeetMerge(M, F, a, r, Run(M, F, c, n), Run(M, Merge(F, a, r), c, m))
    ensures m <= n <= 2 * m + 1 && (SameMeet(a, r, Run(M, F, c, n), Run(M, Merge(F, a, r), c, m)) ==> n <= 2 * m)
  {
    hide SameMeet, Between, Mergeable, PhisNamePreds, StepBlock, Merge, FromOutside, Waiting;
    MergeBounds(F, a, r);
    var G := Merge(F, a, r);
    if n == 0 {
      m := 0;
      MergeStart(M, F, a, r, c);
    } else {
      m := MergeForward(M, F, a, r, c, n - 1);
      var x, y := Run(M, F, c, n - 1), Run(M, G, c, m);
      if Between(M, F, a, r, x, y) {
        MergeSecond(M, F, a, r, x, y);
        m := m + 1;
      } else if Waiting(x, a) {
        MergeFirst(M, F, a, r, x, y);
        if !Between(M, F, a, r, Run(M, F, c, n), y) { m := m + 1; }
        else { BetweenIsNotSame(M, F, a, r, Run(M, F, c, n), y); }
      } else {
        MergeOther(M, F, a, r, x, y);
        m := m + 1;
      }
    }
  }

  lemma BetweenIsNotSame(M: Machine, F: Func, a: nat, r: nat, c: Config, d: Config)
    requires Between(M, F, a, r, c, d) && a != r
    ensures !SameMeet(a, r, c, d)
  {
  }

  /** And every prefix of the merged run is met by a prefix of the original, in the same state. */
  lemma {:induction false} MergeBackward(M: Machine, F: Func, a: nat, r: nat, c: Config, m: nat) returns (n: nat)
    requires Mergeable(F, a, r) && PhisNamePreds(F) && FromOutside(F, c)
    ensures SameMeet(a, r, Run(M, F, c, n), Run(M, Merge(F, a, r), c, m)) && m <= n <= 2 * m
  {
    hide SameMeet, Between, Mergeable, PhisNamePreds, StepBlock, Merge, FromOutside, Waiting;
    MergeBounds(F, a, r);
    var G := Merge(F, a, r);
    if m == 0 {
      n := 0;
      MergeStart(M, F, a, r, c);
    } else {
      n := MergeBackward(M, F, a, r, c, m - 1);
      var x, y := Run(M, F, c, n), Run(M, G, c, m - 1);
      if Waiting(x, a) {
        MergeFirst(M, F, a, r, x, y);
        n := n + 1;
        if Between(M, F, a, r, Run(M, F, c, n), y) {
          MergeSecond(M, F, a, r, Run(M, F, c, n), y);
          n := n + 1;
        }
      } else {
        MergeOther(M, F, a, r, x, y);
        n := n + 1;
      }
    }
  }
}
