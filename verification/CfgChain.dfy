/**
 Any number of block folds and merges, one after the other: the same events in the same order, and the
 same endings. A run that never ends keeps showing the same events.
 */
module CfgChain {
  import opened Ir
  import opened Cfg

  function EndState(o: Outcome): State
  {
    match o
    case Next(s) => s
    case Goto(_, s) => s
    case Return(_, s) => s
    case Trap(s) => s
  }

  function LogOf(c: Config): seq<Event>
  {
    match c
    case At(_, _, s) => s.log
    case Finished(o) => EndState(o).log
  }

  /** The run makes at least these calls and stores, in this order. */
  ghost predicate Shows(M: Machine, F: Func, c: Config, log: seq<Event>)
  {
    exists n :: log <= LogOf(Run(M, F, c, n))
  }

  ghost predicate Ends(M: Machine, F: Func, c: Config, o: Outcome)
  {
    exists n :: Run(M, F, c, n) == Finished(o)
  }

  // ----- events are only ever added -----

  lemma StepLog(M: Machine, I: Instr, s: State)
    ensures s.log <= EndState(Step(M, I, s)).log
  {
    hide Alu, Compare, Eval, Address, EvalAll, Narrowed;
  }

  lemma {:induction false} ExecLog(M: Machine, code: Code, s: State)
    ensures s.log <= EndState(Exec(M, code, s)).log
    decreases |code|
  {
    hide Step;
    if code != [] {
      StepLog(M, code[0], s);
      if Step(M, code[0], s).Next? { ExecLog(M, code[1..], Step(M, code[0], s).s); }
    }
  }

  lemma {:induction false} AssignAllLog(M: Machine, before: State, s: State, moves: seq<Move>)
    ensures AssignAll(M, before, s, moves).log == s.log
    decreases |moves|
  {
    if moves != [] {
      AssignAllLog(M, before, Assign(M, s, moves[0].dst, Eval(M, before, moves[0].src)), moves[1..]);
    }
  }

  lemma StepBlockLog(M: Machine, F: Func, c: Config)
    ensures LogOf(c) <= LogOf(StepBlock(M, F, c))
  {
    hide Exec, AssignAll;
    if c.At? && c.block < |F| {
      AssignAllLog(M, c.s, c.s, PhiMoves(F[c.block], c.from));
      ExecLog(M, F[c.block], Enter(M, F[c.block], c.from, c.s));
    }
  }

  // ----- one rewrite -----

  datatype Rewrite = Pass(e: nat, x: nat) | Join(a: nat, r: nat)

  predicate Applies(F: Func, w: Rewrite)
  {
    match w
    case Pass(e, x) => PassThrough(F, e, x)
    case Join(a, r) => Mergeable(F, a, r)
  }

  function Rewritten(F: Func, w: Rewrite): (G: Func)
    requires Applies(F, w)
    ensures |G| == |F|
  {
    match w
    case Pass(e, x) => FoldPassThrough(F, e, x)
    case Join(a, r) => Merge(F, a, r)
  }

  lemma PassLogs(F: Func, e: nat, x: nat, c: Config, d: Config)
    requires MeetPass(F, e, x, c, d)
    ensures LogOf(c) == LogOf(d) && (c.Finished? || d.Finished? ==> c == d)
  {
  }

  lemma JoinLogs(a: nat, r: nat, c: Config, d: Config)
    requires SameMeet(a, r, c, d)
    ensures LogOf(c) == LogOf(d) && (c.Finished? || d.Finished? ==> c == d)
  {
  }

  /** After n blocks of the original, the rewritten run reaches a point that shows as much. */
  lemma Ahead(M: Machine, F: Func, w: Rewrite, c: Config, n: nat) returns (m: nat)
    requires Applies(F, w) && PhisNamePreds(F) && FromOutside(F, c)
    ensures var x, y := Run(M, F, c, n), Run(M, Rewritten(F, w), c, m);
            LogOf(x) <= LogOf(y) && (x.Finished? ==> x == y)
  {
    hide PhisNamePreds, PassThrough, Mergeable, StepBlock, MeetPass, SameMeet, FoldPassThrough, Merge, Between, LogOf;
    match w
    case Pass(e, x) =>
      PassIsInner(F, e, x);
      m := PassForward(M, F, e, x, c, n);
      PassLogs(F, e, x, Run(M, F, c, n), Run(M, FoldPassThrough(F, e, x), c, m));
    case Join(a, r) =>
      MergeBounds(F, a, r);
      m := MergeForward(M, F, a, r, c, n);
      var x, y := Run(M, F, c, n), Run(M, Merge(F, a, r), c, m);
      if SameMeet(a, r, x, y) {
        JoinLogs(a, r, x, y);
      } else {
        MergeSecond(M, F, a, r, x, y);
        BetweenIsAt(M, F, a, r, x, y);
        StepBlockLog(M, F, x);
        m := m + 1;
        JoinLogs(a, r, StepBlock(M, F, x), Run(M, Merge(F, a, r), c, m));
      }
  }

  lemma PassIsInner(F: Func, e: nat, x: nat)
    requires PassThrough(F, e, x)
    ensures e < |F|
  {
  }

  lemma BetweenIsAt(M: Machine, F: Func, a: nat, r: nat, c: Config, d: Config)
    requires Between(M, F, a, r, c, d)
    ensures c.At?
  {
  }

  /** And the other way round. */
  lemma Behind(M: Machine, F: Func, w: Rewrite, c: Config, m: nat) returns (n: nat)
    requires Applies(F, w) && PhisNamePreds(F) && FromOutside(F, c)
    ensures var x, y := Run(M, F, c, n), Run(M, Rewritten(F, w), c, m);
            LogOf(x) == LogOf(y) && (y.Finished? ==> x == y)
  {
    hide PhisNamePreds, PassThrough, Mergeable, StepBlock, MeetPass, SameMeet, FoldPassThrough, Merge, LogOf;
    match w
    case Pass(e, x) =>
      PassIsInner(F, e, x);
      n := PassBackward(M, F, e, x, c, m);
      PassLogs(F, e, x, Run(M, F, c, n), Run(M, FoldPassThrough(F, e, x), c, m));
    case Join(a, r) =>
      MergeBounds(F, a, r);
      n := MergeBackward(M, F, a, r, c, m);
      JoinLogs(a, r, Run(M, F, c, n), Run(M, Merge(F, a, r), c, m));
  }

  /** The two functions show the same events and end the same way, or both never end. */
  ghost predicate SameBehaviour(M: Machine, c: Config, F: Func, G: Func)
  {
    && (forall log :: Shows(M, F, c, log) <==> Shows(M, G, c, log))
    && (forall o :: Ends(M, F, c, o) <==> Ends(M, G, c, o))
  }

  lemma RewriteSameBehaviour(M: Machine, F: Func, w: Rewrite, c: Config)
    requires Applies(F, w) && PhisNamePreds(F) && FromOutside(F, c)
    ensures SameBehaviour(M, c, F, Rewritten(F, w))
  {
    hide Applies, PhisNamePreds, Run, LogOf, Rewritten;
    var G := Rewritten(F, w);
    forall log ensures Shows(M, F, c, log) <==> Shows(M, G, c, log) {
      if n :| log <= LogOf(Run(M, F, c, n)) {
        var m := Ahead(M, F, w, c, n);
        assert log <= LogOf(Run(M, G, c, m));
      }
      if m :| log <= LogOf(Run(M, G, c, m)) {
        var n := Behind(M, F, w, c, m);
        assert log <= LogOf(Run(M, F, c, n));
      }
    }
    forall o ensures Ends(M, F, c, o) <==> Ends(M, G, c, o) {
      if n :| Run(M, F, c, n) == Finished(o) {
        var m := Ahead(M, F, w, c, n);
        assert Run(M, G, c, m) == Finished(o);
      }
      if m :| Run(M, G, c, m) == Finished(o) {
        var n := Behind(M, F, w, c, m);
        assert Run(M, F, c, n) == Finished(o);
      }
    }
  }

  // ----- many rewrites -----

  lemma RetargetedBranch(code: Code, t: nat, e: nat, x: nat)
    requires BranchesTo(code, t)
    ensures BranchesTo(RetargetCode(code, e, x), Redirect(t, e, x))
  {
    var i :| 0 <= i < |code| && BranchesAt(code[i], t);
    assert BranchesAt(RetargetCode(code, e, x)[i], Redirect(t, e, x));
  }

  /** Every retargeted phi pair comes from a pair of the original. */
  lemma RetargetedPair(code: Code, i: nat, e: nat, x: nat, q: PhiPair) returns (p: PhiPair)
    requires i < |code| && Retarget(code[i], e, x).op.Phi? && q in Retarget(code[i], e, x).pairs
    ensures code[i].op.Phi? && p in code[i].pairs && q.block == Redirect(p.block, e, x)
  {
    var k :| 0 <= k < |code[i].pairs| && RedirectPairs(code[i].pairs, e, x)[k] == q;
    p := code[i].pairs[k];
  }

  lemma PassKeepsPhis(F: Func, e: nat, x: nat)
    requires PassThrough(F, e, x) && PhisNamePreds(F)
    ensures PhisNamePreds(FoldPassThrough(F, e, x))
  {
    var G: Func := FoldPassThrough(F, e, x);
    forall b: nat, i: nat, q: PhiPair | b < |G| && i < |G[b]| && G[b][i].op.Phi? && q in G[b][i].pairs
      ensures q.block < |G| && BranchesTo(G[q.block], b)
    {
      var p := RetargetedPair(F[b], i, e, x, q);
      NobodyNamesPass(F, e, x, b);
      RetargetedBranch(F[p.block], b, e, x);
      assert b != e;
    }
  }

  lemma JoinKeepsPhis(F: Func, a: nat, r: nat)
    requires Mergeable(F, a, r) && PhisNamePreds(F)
    ensures PhisNamePreds(Merge(F, a, r))
  {
    var G: Func := Merge(F, a, r);
    forall b: nat, i: nat, q: PhiPair | b < |G| && i < |G[b]| && G[b][i].op.Phi? && q in G[b][i].pairs
      ensures q.block < |G| && BranchesTo(G[q.block], b)
    {
      var code := if b == a then Joined(F, a, r) else F[b];
      var p := RetargetedPair(code, i, r, a, q);
      assert b == a ==> i < |F[a]| - 1 by { assert b == a && i >= |F[a]| - 1 ==> code[i] == F[r][i - (|F[a]| - 1)]; }
      assert code[i] == F[b][i];
      NobodyNames(F, a, r, b);
      if p.block == r {
        JoinedBranch(F, a, r, b);
        RetargetedBranch(Joined(F, a, r), b, r, a);
      } else {
        RetargetedBranch(F[p.block], b, r, a);
      }
    }
  }

  lemma JoinedBranch(F: Func, a: nat, r: nat, t: nat)
    requires a < |F| && r < |F| && F[a] != [] && BranchesTo(F[r], t)
    ensures BranchesTo(Joined(F, a, r), t)
  {
    var i :| 0 <= i < |F[r]| && BranchesAt(F[r][i], t);
    assert Joined(F, a, r)[|F[a]| - 1 + i] == F[r][i];
  }

  /** Folding or merging leaves phis that name predecessors only. */
  lemma RewriteKeepsPhis(F: Func, w: Rewrite)
    requires Applies(F, w) && PhisNamePreds(F)
    ensures PhisNamePreds(Rewritten(F, w))
  {
    hide PhisNamePreds, PassThrough, Mergeable, FoldPassThrough, Merge;
    match w
    case Pass(e, x) => PassKeepsPhis(F, e, x);
    case Join(a, r) => JoinKeepsPhis(F, a, r);
  }

  /** Functions reached one after the other, each by a rewrite that applied. */
  ghost predicate Chain(Fs: seq<Func>, ws: seq<Rewrite>)
  {
    && |Fs| == |ws| + 1
    && forall k :: 0 <= k < |ws| ==> Applies(Fs[k], ws[k]) && Fs[k + 1] == Rewritten(Fs[k], ws[k])
  }

  lemma {:induction false} ChainSameBehaviour(M: Machine, Fs: seq<Func>, ws: seq<Rewrite>, c: Config)
    requires Chain(Fs, ws) && PhisNamePreds(Fs[0]) && FromOutside(Fs[0], c)
    ensures SameBehaviour(M, c, Fs[0], Fs[|ws|])
    decreases |ws|
  {
    hide Applies, PhisNamePreds, Rewritten, Shows, Ends;
    if |ws| > 0 {
      RewriteSameBehaviour(M, Fs[0], ws[0], c);
      RewriteKeepsPhis(Fs[0], ws[0]);
      ChainSameBehaviour(M, Fs[1..], ws[1..], c);
    }
  }
}
