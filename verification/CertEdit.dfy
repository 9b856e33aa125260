/**
 Editing a certified function.

 Two edits keep a function certified: replacing an instruction by one that reads nothing its predecessor's
 certificate does not vouch for, and deleting the definition of a temporary nobody reads. The first leaves
 the certificate as it is and, where the facts make the two instructions act alike, leaves every run from the
 entry as it was; the second strikes the temporary from the certificate.
 */
module CertEdit {
  import opened Ir
  import opened Liveness
  import opened Equivalence
  import opened Ssa

  // ----- phis -----

  lemma {:induction false} PhiMovesReplaced(code: Code, j: nat, K: Instr, from: nat)
    requires j < |code| && !K.op.Phi? && !K.op.Nop? && !code[j].op.Phi? && !code[j].op.Nop?
    ensures PhiMoves(code, from) == PhiMoves(code[j := K], from)
    decreases |code|
  {
    if j > 0 {
      assert code[j := K][1..] == code[1..][j - 1 := K];
      PhiMovesReplaced(code[1..], j - 1, K, from);
    }
  }

  lemma {:induction false} PhiMovesDropped(code: Code, i: nat, K: Instr, from: nat)
    requires i < |code| && PhisFirst(code) && !code[i].op.Phi? && K.op.Nop?
    ensures PhiMoves(code, from) == PhiMoves(code[i := K], from)
    decreases |code|
  {
    var c2 := code[i := K];
    if i > 0 {
      assert c2[1..] == code[1..][i - 1 := K];
      assert PhisFirst(code[1..]) by {
        forall p, q | 0 <= p < q < |code[1..]| && code[1..][q].op.Phi?
          ensures code[1..][p].op.Phi? || code[1..][p].op.Nop?
        {
          assert code[p + 1].op.Phi? || code[p + 1].op.Nop?;
        }
      }
      PhiMovesDropped(code[1..], i - 1, K, from);
    } else if !code[0].op.Nop? {
      forall q | 0 <= q < |c2[1..]| ensures !c2[1..][q].op.Phi? {
        assert code[q + 1] == c2[1..][q];
      }
      NoPhisNoMoves(c2[1..], from);
    } else {
      assert c2[1..] == code[1..];
    }
  }

  predicate Unread(code: Code, v: Var)
  {
    forall i :: 0 <= i < |code| ==> v !in Reads(code[i])
  }

  lemma {:induction false} MovesUnread(code: Code, v: Var, from: nat, m: Move)
    requires Unread(code, v) && m in PhiMoves(code, from)
    ensures v !in Vars(m.src)
    decreases |code|
  {
    if code != [] {
      assert v !in Reads(code[0]);
      assert Unread(code[1..], v);
      if code[0].op.Phi? { IncomingVars(code[0].pairs, from); }
      if m in PhiMoves(code[1..], from) { MovesUnread(code[1..], v, from, m); }
    }
  }

  ghost predicate SameMoves(F: Func, G: Func)
  {
    |F| == |G| && forall b, from: nat :: 0 <= b < |F| ==> PhiMoves(F[b], from) == PhiMoves(G[b], from)
  }

  lemma ReplaceSameMoves(F: Func, b: nat, j: nat, K: Instr)
    requires InFunc(F, b, j) && !F[b][j].op.Phi? && !K.op.Phi?
    requires if K.op.Nop? then WellShaped(F) else !F[b][j].op.Nop?
    ensures SameMoves(F, Replace(F, b, j, K))
  {
    forall from: nat ensures PhiMoves(F[b], from) == PhiMoves(F[b][j := K], from) {
      if K.op.Nop? {
        PhiMovesDropped(F[b], j, K, from);
      } else {
        PhiMovesReplaced(F[b], j, K, from);
      }
    }
  }

  // ----- replacing an instruction -----

  /** Outside what they read, the two are the same to the certificate. */
  predicate SameEffect(J: Instr, K: Instr)
  {
    && !J.op.Phi? && !K.op.Phi? && !J.op.Nop? && !K.op.Nop? && Targets(J) == {} && Targets(K) == {}
    && Written(K) == Written(J) && KillsAll(K.op) == KillsAll(J.op)
  }

  /** Wherever J may stand, K may. */
  ghost predicate Admits(cert: Cert, J: Instr, K: Instr)
  {
    && SameEffect(J, K)
    && forall A: set<nat> :: Closed(cert, A) && ReadsHere(cert, J) <= A ==> ReadsHere(cert, K) <= A
  }

  lemma {:induction false} CodeOkElsewhere(cert: Cert, F: Func, G: Func, b: nat, code: Code, A: set<nat>)
    requires |cert.avail| == |F| && SameMoves(F, G) && CodeOk(cert, F, b, code, A)
    ensures CodeOk(cert, G, b, code, A)
    decreases |code|
  {
    hide WritesOk, PhiMoves, AfterInstr;
    if code != [] {
      CodeOkElsewhere(cert, F, G, b, code[1..], AfterInstr(cert, A, code[0]));
    }
  }

  lemma SameWrites(cert: Cert, A: set<nat>, J: Instr, K: Instr)
    requires SameEffect(J, K) && WritesOk(cert, A, J)
    ensures WritesOk(cert, A, K) && AfterInstr(cert, A, K) == AfterInstr(cert, A, J)
  {
  }

  lemma {:induction false} CodeOkReplaced(cert: Cert, F: Func, G: Func, b: nat, code: Code, j: nat, K: Instr,
                                          A: set<nat>)
    requires |cert.avail| == |F| && SameMoves(F, G) && CertShape(cert) && Closed(cert, A)
    requires CodeOk(cert, F, b, code, A) && j < |code| && Admits(cert, code[j], K)
    ensures CodeOk(cert, G, b, code[j := K], A)
    decreases |code|
  {
    hide WritesOk, PhiMoves, CertShape, Reads, Written, Closed, AfterInstr, ReadsHere;
    var rest := AfterInstr(cert, A, code[0]);
    if j == 0 {
      assert code[j := K][1..] == code[1..];
      SameWrites(cert, A, code[0], K);
      CodeOkElsewhere(cert, F, G, b, code[1..], rest);
    } else {
      assert code[j := K][1..] == code[1..][j - 1 := K];
      StepClosed(cert, code[0], A);
      CodeOkReplaced(cert, F, G, b, code[1..], j - 1, K, rest);
    }
  }

  lemma ReplaceKeepsCert(cert: Cert, F: Func, b: nat, j: nat, K: Instr)
    requires Certified(cert, F) && InFunc(F, b, j) && Admits(cert, F[b][j], K)
    ensures Certified(cert, Replace(F, b, j, K)) && SameMoves(F, Replace(F, b, j, K))
  {
    hide CodeOk, Closed, CertShape;
    var G := Replace(F, b, j, K);
    ReplaceSameMoves(F, b, j, K);
    forall x | 0 <= x < |G| ensures Closed(cert, cert.avail[x]) && CodeOk(cert, G, x, G[x], cert.avail[x]) {
      if x == b {
        CodeOkReplaced(cert, F, G, b, F[b], j, K, cert.avail[b]);
      } else {
        CodeOkElsewhere(cert, F, G, x, F[x], cert.avail[x]);
      }
    }
  }

  /** The facts make the two instructions act alike. */
  ghost predicate Agree(M: Machine, cert: Cert, facts: Facts, J: Instr, K: Instr)
  {
    forall s: State, A: set<nat> :: ReadsHere(cert, J) <= A && Closed(cert, A) && FactInv(M, s, facts, A) ==>
      Step(M, J, s) == Step(M, K, s)
  }

  lemma {:induction false} AgreeExec(M: Machine, cert: Cert, F: Func, facts: Facts, b: nat, i: nat, j: nat, K: Instr,
                                     A: set<nat>, s: State)
    requires Sustained(M, cert, F, facts) && b < |F| && i <= j < |F[b]| && Agree(M, cert, facts, F[b][j], K)
    requires CodeOk(cert, F, b, F[b][i..], A) && Closed(cert, A) && FactInv(M, s, facts, A)
    ensures Exec(M, F[b][i..], s) == Exec(M, F[b][j := K][i..], s)
    decreases j - i
  {
    hide Step, CertShape, FactsFit, Established, Closed, EdgeOk, FactInv, WritesOk, ReadsHere, Plain, AfterInstr;
    var code, out, I := F[b][i..], F[b][j := K][i..], F[b][i];
    assert code[0] == I && code[1..] == F[b][i + 1..] && out[1..] == F[b][j := K][i + 1..] && InFunc(F, b, i);
    if i == j {
      assert out[0] == K && out[1..] == code[1..];
    } else {
      assert out[0] == I;
      if Step(M, I, s).Next? {
        assert Established(M, cert, F, facts, b, i, A, s);
        StepKeepsFacts(M, cert, F, facts, b, i, s, A);
        AgreeExec(M, cert, F, facts, b, i + 1, j, K, AfterInstr(cert, A, I), Step(M, I, s).s);
      }
    }
  }

  lemma AgreeBlock(M: Machine, cert: Cert, F: Func, facts: Facts, b: nat, j: nat, K: Instr, c: Config)
    requires InFunc(F, b, j) && Sustained(M, cert, F, facts) && ConfigOk(M, cert, F, facts, c)
    requires Agree(M, cert, facts, F[b][j], K) && SameMoves(F, Replace(F, b, j, K))
    ensures StepBlock(M, F, c) == StepBlock(M, Replace(F, b, j, K), c)
  {
    hide Closed, FactInv, PhiMoves, Exec, Plain, EdgeOk, CodeOk, CertShape, Agree, FactsFit, Establishes;
    if c.At? && c.block == b {
      var A :| Closed(cert, A) && EdgeOk(cert, F, c.from, b, A) && FactInv(M, c.s, facts, A);
      EnterKeepsFacts(M, cert, F, facts, c.from, b, A, c.s);
      assert F[b][0..] == F[b] && F[b][j := K][0..] == F[b][j := K];
      AgreeExec(M, cert, F, facts, b, 0, j, K, cert.avail[b], Enter(M, F[b], c.from, c.s));
    }
  }

  /** Exchanging the two leaves every run from the entry as it was, state by state. */
  lemma {:induction false} AgreeRun(M: Machine, cert: Cert, F: Func, facts: Facts, b: nat, j: nat, K: Instr,
                                    c: Config, n: nat)
    requires InFunc(F, b, j) && Sustained(M, cert, F, facts) && Initial(cert, F, c)
    requires Agree(M, cert, facts, F[b][j], K) && SameMoves(F, Replace(F, b, j, K))
    ensures Run(M, F, c, n) == Run(M, Replace(F, b, j, K), c, n)
  {
    hide Sustained, Initial, StepBlock, ConfigOk, Agree, SameMoves;
    if n > 0 {
      AgreeRun(M, cert, F, facts, b, j, K, c, n - 1);
      RunKeepsFacts(M, cert, F, facts, c, n - 1);
      AgreeBlock(M, cert, F, facts, b, j, K, Run(M, F, c, n - 1));
    }
  }

  // ----- reading an operand of an earlier instruction -----

  lemma NopChangesNothing(cert: Cert, A: set<nat>, J: Instr)
    requires J.op.Nop?
    ensures ReadsHere(cert, J) == {} && AfterInstr(cert, A, J) == A && WritesOk(cert, A, J) && Targets(J) == {}
  {
  }

  /** Across NOPs nothing becomes unavailable. */
  lemma {:induction false} CodeOkAfterNops(cert: Cert, F: Func, G: Func, b: nat, code: Code, n: nat, K: Instr,
                                           A: set<nat>)
    requires |cert.avail| == |F| && SameMoves(F, G) && CodeOk(cert, F, b, code, A)
    requires n < |code| && (forall k :: 0 <= k < n ==> code[k].op.Nop?) && SameEffect(code[n], K)
    requires ReadsHere(cert, code[n]) <= A ==> ReadsHere(cert, K) <= A
    ensures CodeOk(cert, G, b, code[n := K], A)
    decreases |code|
  {
    hide WritesOk, PhiMoves, Reads, Written, AfterInstr, ReadsHere;
    if n == 0 {
      assert code[n := K][1..] == code[1..];
      SameWrites(cert, A, code[0], K);
      CodeOkElsewhere(cert, F, G, b, code[1..], AfterInstr(cert, A, code[0]));
    } else {
      assert code[n := K][1..] == code[1..][n - 1 := K];
      NopChangesNothing(cert, A, code[0]);
      CodeOkAfterNops(cert, F, G, b, code[1..], n - 1, K, A);
    }
  }

  /** t is tied to nothing's availability. */
  predicate Loose(cert: Cert, t: nat)
  {
    forall x :: x in cert.sup ==> Var(Tmp, t) !in cert.sup[x]
  }

  lemma ReadStays(cert: Cert, A: set<nat>, I: Instr, t: nat)
    requires Loose(cert, t) && I.op.Arith? && Written(I) == {Var(Tmp, t)} && ReadsHere(cert, I) <= A
    ensures ReadsHere(cert, I) - {t} <= AfterInstr(cert, A, I)
  {
  }

  /** The instruction at n may read what the one at m read, if what m assigns went into nothing else. */
  lemma {:induction false} CodeOkBorrowed(cert: Cert, F: Func, G: Func, b: nat, code: Code, m: nat, n: nat, K: Instr,
                                          t: nat, A: set<nat>)
    requires |cert.avail| == |F| && SameMoves(F, G) && CodeOk(cert, F, b, code, A)
    requires m < n < |code| && (forall k :: m < k < n ==> code[k].op.Nop?) && SameEffect(code[n], K)
    requires code[m].op.Arith? && Written(code[m]) == {Var(Tmp, t)} && Loose(cert, t)
    requires ReadsHere(cert, K) <= ReadsHere(cert, code[n]) + (ReadsHere(cert, code[m]) - {t})
    ensures CodeOk(cert, G, b, code[n := K], A)
    decreases |code|
  {
    hide WritesOk, PhiMoves, Reads, Written, AfterInstr, ReadsHere, Loose;
    var rest := AfterInstr(cert, A, code[0]);
    assert code[n := K][1..] == code[1..][n - 1 := K];
    if m == 0 {
      ReadStays(cert, A, code[0], t);
      CodeOkAfterNops(cert, F, G, b, code[1..], n - 1, K, rest);
    } else {
      CodeOkBorrowed(cert, F, G, b, code[1..], m - 1, n - 1, K, t, rest);
    }
  }

  lemma BorrowKeepsCert(cert: Cert, F: Func, b: nat, m: nat, n: nat, K: Instr, t: nat)
    requires Certified(cert, F) && InFunc(F, b, n) && m < n && (forall k :: m < k < n ==> F[b][k].op.Nop?)
    requires SameEffect(F[b][n], K) && F[b][m].op.Arith? && Written(F[b][m]) == {Var(Tmp, t)} && Loose(cert, t)
    requires ReadsHere(cert, K) <= ReadsHere(cert, F[b][n]) + (ReadsHere(cert, F[b][m]) - {t})
    ensures Certified(cert, Replace(F, b, n, K))
  {
    hide CodeOk, Closed, CertShape, Reads, Written, Loose;
    var G := Replace(F, b, n, K);
    ReplaceSameMoves(F, b, n, K);
    forall x | 0 <= x < |G| ensures Closed(cert, cert.avail[x]) && CodeOk(cert, G, x, G[x], cert.avail[x]) {
      if x == b {
        CodeOkBorrowed(cert, F, G, b, F[b], m, n, K, t, cert.avail[b]);
      } else {
        CodeOkElsewhere(cert, F, G, x, F[x], cert.avail[x]);
      }
    }
  }

  // ----- forgetting temporaries -----

  function TmpVars(gone: set<nat>): set<Var>
  {
    set t | t in gone :: Var(Tmp, t)
  }

  /** Nothing is tied to `gone` any more. */
  function Unlinked(cert: Cert, gone: set<nat>): Cert
  {
    cert.(sup := map u | u in cert.sup :: cert.sup[u] - TmpVars(gone))
  }

  /** Nothing relies on `gone` either. */
  function Without(cert: Cert, gone: set<nat>): Cert
  {
    Unlinked(cert, gone).(
      avail := seq(|cert.avail|, b requires 0 <= b < |cert.avail| => cert.avail[b] - gone))
  }

  /** `less` promises no more than `cert`, and relies on all but `gone`. */
  ghost predicate Promises(cert: Cert, less: Cert, gone: set<nat>)
  {
    && |less.avail| == |cert.avail| && less.buffers == cert.buffers
    && (forall b :: 0 <= b < |cert.avail| ==> less.avail[b] == cert.avail[b] - gone)
    && (forall u :: Sup(less, u) <= Sup(cert, u) && Tracked(less, Sup(less, u)) !! gone)
  }

  predicate DropsOnly(cert: Cert, gone: set<nat>, I: Instr, J: Instr)
  {
    J == I || (J.op.Nop? && !I.op.Phi? && Targets(I) == {} && Tracked(cert, Written(I)) <= gone)
  }

  predicate Thinned(cert: Cert, gone: set<nat>, c1: Code, c2: Code)
  {
    |c1| == |c2| && forall i :: 0 <= i < |c1| ==> DropsOnly(cert, gone, c1[i], c2[i])
  }

  predicate NoneRead(code: Code, gone: set<nat>)
  {
    forall t :: t in gone ==> Unread(code, Var(Tmp, t))
  }

  ghost predicate Unmentioned(F: Func, gone: set<nat>)
  {
    forall b :: 0 <= b < |F| ==> NoneRead(F[b], gone)
  }

  lemma RefreshLess(cert: Cert, less: Cert, gone: set<nat>, A: set<nat>, B: set<nat>, X: set<Var>, spill: bool)
    requires Promises(cert, less, gone) && A - gone <= B
    ensures Refresh(cert, A, X, spill) - gone <= Refresh(less, B, X, spill)
  {
    forall t | t in Refresh(cert, A, X, spill) - gone ensures t in Refresh(less, B, X, spill) {
      if t !in Tracked(cert, X) {
        assert Survives(cert, t, X, spill);
        assert Sup(less, t) <= Sup(cert, t);
        assert Survives(less, t, X, spill);
      }
    }
  }

  lemma EdgeOkLess(cert: Cert, less: Cert, gone: set<nat>, F: Func, G: Func, from: nat, c: nat, A: set<nat>,
                   B: set<nat>)
    requires Promises(cert, less, gone) && |cert.avail| == |F| == |G| && c < |F| && SameMoves(F, G)
    requires Unmentioned(F, gone) && EdgeOk(cert, F, from, c, A) && A - gone <= B
    ensures EdgeOk(less, G, from, c, B)
  {
    hide PhiMoves, Unread, Refresh;
    var moves := PhiMoves(F[c], from);
    assert NoneRead(F[c], gone);
    forall m, t | m in moves && t in gone ensures t !in Tmps(Vars(m.src)) {
      MovesUnread(F[c], Var(Tmp, t), from, m);
    }
    RefreshLess(cert, less, gone, A, B, MoveVars(moves), false);
  }

  lemma KeptLess(cert: Cert, less: Cert, gone: set<nat>, I: Instr, A: set<nat>, B: set<nat>)
    requires Promises(cert, less, gone) && A - gone <= B && WritesOk(cert, A, I) && ReadsHere(cert, I) <= A
    requires !I.op.Phi? ==> Tmps(Reads(I)) !! gone
    ensures WritesOk(less, B, I) && ReadsHere(less, I) <= B && AfterInstr(cert, A, I) - gone <= AfterInstr(less, B, I)
  {
    hide Refresh, Reads, Written;
    if !I.op.Phi? {
      RefreshLess(cert, less, gone, A, B, Written(I), KillsAll(I.op));
      forall t | t in Tracked(less, Written(I)) ensures Tracked(less, Sup(less, t)) <= AfterInstr(less, B, I) {
        assert Tracked(cert, Sup(cert, t)) <= AfterInstr(cert, A, I);
      }
    }
  }

  lemma DroppedLess(cert: Cert, less: Cert, gone: set<nat>, I: Instr, J: Instr, A: set<nat>, B: set<nat>)
    requires Promises(cert, less, gone) && A - gone <= B && DropsOnly(cert, gone, I, J) && J != I
    ensures AfterInstr(cert, A, I) - gone <= AfterInstr(less, B, J) && WritesOk(less, B, J) && ReadsHere(less, J) == {}
    ensures Targets(J) == {}
  {
    NopChangesNothing(less, B, J);
  }

  lemma {:induction false} CodeOkLess(cert: Cert, less: Cert, gone: set<nat>, F: Func, G: Func, b: nat, c1: Code,
                                      c2: Code, A: set<nat>, B: set<nat>)
    requires Promises(cert, less, gone) && |cert.avail| == |F| == |G| && SameMoves(F, G) && Unmentioned(F, gone)
    requires Thinned(cert, gone, c1, c2) && NoneRead(c1, gone)
    requires CodeOk(cert, F, b, c1, A) && A - gone <= B
    ensures CodeOk(less, G, b, c2, B)
    decreases |c1|
  {
    hide EdgeOk, SameMoves, Unmentioned, Reads, Written, AfterInstr, WritesOk, ReadsHere, Promises;
    if c1 != [] {
      var I, J := c1[0], c2[0];
      assert DropsOnly(cert, gone, I, J);
      assert Thinned(cert, gone, c1[1..], c2[1..]);
      assert NoneRead(c1[1..], gone) by {
        forall t | t in gone ensures Unread(c1[1..], Var(Tmp, t)) { assert Unread(c1, Var(Tmp, t)); }
      }
      assert Tmps(Reads(I)) !! gone by {
        forall t | t in gone ensures t !in Tmps(Reads(I)) { assert Unread(c1, Var(Tmp, t)); }
      }
      assert |less.avail| == |G| by { SameLength(cert, less, gone); }
      if J == I {
        KeptLess(cert, less, gone, I, A, B);
        forall c | c in Targets(I) && c < |F| ensures EdgeOk(less, G, b, c, B) {
          EdgeOkLess(cert, less, gone, F, G, b, c, A, B);
        }
      } else {
        DroppedLess(cert, less, gone, I, J, A, B);
      }
      CodeOkLess(cert, less, gone, F, G, b, c1[1..], c2[1..], AfterInstr(cert, A, I), AfterInstr(less, B, J));
    }
  }

  lemma SameLength(cert: Cert, less: Cert, gone: set<nat>)
    requires Promises(cert, less, gone)
    ensures |less.avail| == |cert.avail|
  {
  }

  lemma SameThinned(cert: Cert, gone: set<nat>, code: Code)
    ensures Thinned(cert, gone, code, code)
  {
  }

  lemma UnlinkedSup(cert: Cert, gone: set<nat>, u: nat)
    ensures Sup(Unlinked(cert, gone), u) == Sup(cert, u) - TmpVars(gone) == Sup(Without(cert, gone), u)
  {
  }

  lemma UnlinkedShape(cert: Cert, gone: set<nat>)
    requires CertShape(cert)
    ensures CertShape(Unlinked(cert, gone)) && CertShape(Without(cert, gone))
  {
    hide Sup;
    forall u ensures Sup(Unlinked(cert, gone), u) == Sup(cert, u) - TmpVars(gone) == Sup(Without(cert, gone), u) {
      UnlinkedSup(cert, gone, u);
    }
    forall less | less == Unlinked(cert, gone) || less == Without(cert, gone) ensures CertShape(less) {
      forall t | t in less.sup
        ensures Var(Tmp, t) !in less.sup[t]
        ensures forall u :: u in Tracked(less, less.sup[t]) ==> Sup(less, u) <= less.sup[t]
      {
        forall u | u in Tracked(less, less.sup[t]) ensures Sup(less, u) <= less.sup[t] {
          assert u in Tracked(cert, cert.sup[t]);
        }
      }
    }
  }

  lemma UnlinkedPromises(cert: Cert, gone: set<nat>)
    ensures Promises(cert, Without(cert, gone), gone)
    ensures forall t :: t in gone ==> Loose(Unlinked(cert, gone), t)
  {
    forall u ensures Sup(Without(cert, gone), u) == Sup(cert, u) - TmpVars(gone) {
      UnlinkedSup(cert, gone, u);
    }
  }

  lemma UnlinkedKeeps(cert: Cert, gone: set<nat>)
    ensures Promises(cert, Unlinked(cert, gone), {})
  {
    forall u ensures Sup(Unlinked(cert, gone), u) == Sup(cert, u) - TmpVars(gone) {
      UnlinkedSup(cert, gone, u);
    }
  }

  lemma ClosedLess(cert: Cert, less: Cert, gone: set<nat>, A: set<nat>)
    requires Closed(cert, A) && Promises(cert, less, gone)
    ensures Closed(less, A - gone)
  {
    forall t | t in A - gone ensures Tracked(less, Sup(less, t)) <= A - gone {
      assert Sup(less, t) <= Sup(cert, t);
      assert Tracked(less, Sup(less, t)) <= Tracked(cert, Sup(cert, t));
    }
  }

  lemma UnlinkKeepsCert(cert: Cert, F: Func, gone: set<nat>)
    requires Certified(cert, F)
    ensures Certified(Unlinked(cert, gone), F)
  {
    hide CodeOk, Promises, CertShape, Closed, PhiMoves, Thinned;
    var less := Unlinked(cert, gone);
    UnlinkedShape(cert, gone);
    UnlinkedKeeps(cert, gone);
    forall x | 0 <= x < |F| ensures Closed(less, less.avail[x]) && CodeOk(less, F, x, F[x], less.avail[x]) {
      ClosedLess(cert, less, {}, cert.avail[x]);
      assert cert.avail[x] - {} == less.avail[x];
      SameThinned(cert, {}, F[x]);
      CodeOkLess(cert, less, {}, F, F, x, F[x], F[x], cert.avail[x], less.avail[x]);
    }
  }

  /** Deleting definitions of temporaries nobody reads. */
  lemma ThinKeepsCert(cert: Cert, gone: set<nat>, F: Func, G: Func)
    requires Certified(cert, F) && SameMoves(F, G) && Unmentioned(F, gone)
    requires forall x :: 0 <= x < |F| ==> Thinned(cert, gone, F[x], G[x])
    ensures Certified(Without(cert, gone), G)
  {
    hide CodeOk, CertShape, Closed, Promises, NoneRead, PhiMoves, Thinned;
    var less := Without(cert, gone);
    UnlinkedShape(cert, gone);
    UnlinkedPromises(cert, gone);
    forall x | 0 <= x < |G| ensures Closed(less, less.avail[x]) && CodeOk(less, G, x, G[x], less.avail[x]) {
      ClosedLess(cert, less, gone, cert.avail[x]);
      CodeOkLess(cert, less, gone, F, G, x, F[x], G[x], cert.avail[x], less.avail[x]);
    }
  }

  lemma DropKeepsCert(cert: Cert, t: nat, F: Func, b: nat, i: nat)
    requires Certified(cert, F) && WellShaped(F) && InFunc(F, b, i) && Unmentioned(F, {t})
    requires DropsOnly(cert, {t}, F[b][i], NopInstr()) && !F[b][i].op.Phi?
    ensures Certified(Without(cert, {t}), Replace(F, b, i, NopInstr()))
    ensures SameMoves(F, Replace(F, b, i, NopInstr()))
  {
    hide Certified, PhisFirst, DropsOnly, Unmentioned, PhiMoves;
    var G := Replace(F, b, i, NopInstr());
    ReplaceSameMoves(F, b, i, NopInstr());
    forall x | 0 <= x < |F| ensures Thinned(cert, {t}, F[x], G[x]) {
      SameThinned(cert, {t}, F[x]);
      forall y | 0 <= y < |F[x]| ensures DropsOnly(cert, {t}, F[x][y], G[x][y]) {
        assert DropsOnly(cert, {t}, F[x][y], F[x][y]);
      }
    }
    ThinKeepsCert(cert, {t}, F, G);
  }
}
