/**
 Folding leaves a certified function certified.

 Resolving an operand replaces a temporary by a constant or by a variable it is tied to, which is available wherever
 the temporary is. So the resolved function keeps the certificate; after that the folded temporaries are read by
 nobody and can be struck from it.
 */
module FoldKeeps {
  import opened Ir
  import opened Liveness
  import opened Equivalence
  import opened Ssa
  import opened ConstFold
  import CE = CertEdit
  import Samples

  // ----- what a resolved instruction reads -----

  lemma ResolvedAvailable(cert: Cert, rho: Resolver, A: set<nat>, o: Operand)
    requires Grounded(cert, rho) && Closed(cert, A) && Tracked(cert, Vars(o)) <= A
    ensures Tracked(cert, Vars(Resolve(rho, o))) <= A
  {
    if IsTmp(o) && o.v.id in rho {
      var u := o.v.id;
      assert u in Tracked(cert, Vars(o)) by { assert o.v in Vars(o); }
      forall x | x in Tracked(cert, Vars(rho[u])) ensures x in A {
        assert Var(Tmp, x) in NonParams(rho[u]);
        assert x in Tracked(cert, Sup(cert, u));
      }
    }
  }

  lemma TrackedVars(cert: Cert, o: Operand, A: set<nat>)
    requires Tracked(cert, Vars(o)) <= A
    ensures forall v :: v in Vars(o) && v.kind.Tmp? && v.id !in cert.buffers ==> v.id in A
  {
    forall v | v in Vars(o) && v.kind.Tmp? && v.id !in cert.buffers ensures v.id in A {
      assert v.id in Tracked(cert, Vars(o));
    }
  }

  lemma ReadAvailable(cert: Cert, rho: Resolver, A: set<nat>, I: Instr, o: Operand)
    requires Grounded(cert, rho) && Closed(cert, A) && Tracked(cert, Reads(I)) <= A && Vars(o) <= Reads(I)
    ensures forall v :: v in Vars(Resolve(rho, o)) && v.kind.Tmp? && v.id !in cert.buffers ==> v.id in A
  {
    hide Grounded, Closed, Reads;
    assert Tracked(cert, Vars(o)) <= Tracked(cert, Reads(I));
    ResolvedAvailable(cert, rho, A, o);
    TrackedVars(cert, Resolve(rho, o), A);
  }

  lemma ResolvedReadsAvailable(cert: Cert, rho: Resolver, A: set<nat>, I: Instr)
    requires Grounded(cert, rho) && Closed(cert, A) && Unfused(I) && !I.op.Phi? && Tracked(cert, Reads(I)) <= A
    ensures forall v :: v in Reads(ResolveInstr(rho, I)) && v.kind.Tmp? && v.id !in cert.buffers ==> v.id in A
  {
    hide Grounded, Closed, Resolve;
    var J, op := ResolveInstr(rho, I), I.op;
    if op.Call? {
      ReadAvailable(cert, rho, A, I, I.r2);
      forall v | v in VarsOf(J.args) && v.kind.Tmp? && v.id !in cert.buffers ensures v.id in A {
        var o :| o in J.args && o.Ref? && o.v == v;
        var k :| 0 <= k < |J.args| && J.args[k] == o;
        assert I.args[k] in I.args;
        assert Vars(I.args[k]) <= Reads(I);
        ReadAvailable(cert, rho, A, I, I.args[k]);
        assert v in Vars(o);
      }
    } else if op.Br? || op.Ret? {
      ReadAvailable(cert, rho, A, I, I.dst);
    } else if op.Nop? || op.Alloca? || op.Lea? || op.Jmp? {
    } else {
      ReadAvailable(cert, rho, A, I, I.r1);
      if op.StoreDeref? { ReadAvailable(cert, rho, A, I, I.dst); }
      if op.Arith? || op.ICmp? || op.Opaque? || op.CmpBr? { ReadAvailable(cert, rho, A, I, I.r2); }
    }
  }

  lemma HalfReadsAvailable(cert: Cert, rho: Resolver, A: set<nat>, I: Instr)
    requires Grounded(cert, rho) && Closed(cert, A) && Unfused(I) && ReadsHere(cert, I) <= A
    ensures ReadsHere(cert, HalfStep(rho, I)) <= A
  {
    hide Grounded, Closed, Reads, ResolveInstr, Decide, Unfused;
    HalfShape(rho, I);
    if !I.op.Phi? {
      ResolvedReadsAvailable(cert, rho, A, I);
      RewrittenShape(ResolveInstr(rho, I));
    }
  }

  lemma HalfWritten(rho: Resolver, I: Instr)
    ensures var J := HalfStep(rho, I);
            Written(J) == Written(I) && Targets(J) == Targets(I) && KillsAll(J.op) == KillsAll(I.op)
  {
    HalfShape(rho, I);
    RewrittenShape(ResolveInstr(rho, I));
  }

  lemma SameWrites(cert: Cert, A: set<nat>, I: Instr, J: Instr)
    requires WritesOk(cert, A, I) && Written(J) == Written(I) && KillsAll(J.op) == KillsAll(I.op)
    requires J.op.Phi? <==> I.op.Phi?
    ensures WritesOk(cert, A, J) && AfterInstr(cert, A, J) == AfterInstr(cert, A, I)
  {
  }

  // ----- the resolved function is certified -----

  /** Same destinations, and sources that are available if those of the second are. */
  predicate MovesAlike(cert: Cert, m1: seq<Move>, m2: seq<Move>, A: set<nat>)
  {
    && |m1| == |m2|
    && forall i :: 0 <= i < |m1| ==> m1[i].dst == m2[i].dst && Tracked(cert, Vars(m1[i].src)) <= A
  }

  lemma DstsWithin(m1: seq<Move>, m2: seq<Move>)
    requires |m1| == |m2| && forall i :: 0 <= i < |m1| ==> m1[i].dst == m2[i].dst
    ensures MoveVars(m1) <= MoveVars(m2)
  {
    forall v | v in MoveVars(m1) ensures v in MoveVars(m2) {
      var m :| m in m1 && m.dst.Ref? && m.dst.v == v;
      var k :| 0 <= k < |m1| && m1[k] == m;
      assert m2[k] in m2 && m2[k].dst == m.dst;
    }
  }

  lemma MovesAlikeVars(cert: Cert, m1: seq<Move>, m2: seq<Move>, A: set<nat>)
    requires MovesAlike(cert, m1, m2, A)
    ensures MoveVars(m1) == MoveVars(m2)
    ensures forall m :: m in m1 ==> Tracked(cert, Vars(m.src)) <= A && exists n :: n in m2 && n.dst == m.dst
  {
    hide Tracked, Vars, MoveVars;
    DstsWithin(m1, m2);
    DstsWithin(m2, m1);
    forall m | m in m1 ensures Tracked(cert, Vars(m.src)) <= A && exists n :: n in m2 && n.dst == m.dst {
      var k :| 0 <= k < |m1| && m1[k] == m;
      assert m2[k] in m2;
    }
  }

  lemma HalfMoveAlike(cert: Cert, A: set<nat>, rho: Resolver, I: Instr, from: nat)
    requires Grounded(cert, rho) && Closed(cert, A) && (I.op.Phi? || I.op.Nop?)
    requires forall m :: m in MoveOf(I, from) ==> Tracked(cert, Vars(m.src)) <= A
    ensures MovesAlike(cert, MoveOf(HalfStep(rho, I), from), MoveOf(I, from), A)
  {
    HalfShape(rho, I);
    hide Grounded, HalfStep, Tracked, Vars, Closed;
    if I.op.Phi? {
      IncomingResolved(rho, I.pairs, from);
      match Incoming(I.pairs, from)
      case None =>
      case Some(v) =>
        if !v.Null? {
          assert Move(I.dst, v) in MoveOf(I, from);
          ResolvedAvailable(cert, rho, A, v);
          StillThere(cert, rho, v);
        }
    }
  }

  lemma {:induction false} HalfMovesAlike(cert: Cert, F: Func, b: nat, i: nat, from: nat, A: set<nat>)
    requires CertShape(cert) && FoldSafe(cert, F) && Closed(cert, A) && b < |F| && i <= |F[b]|
    requires forall m :: m in PhiMoves(F[b][i..], from) ==> Tracked(cert, Vars(m.src)) <= A
    ensures MovesAlike(cert, PhiMoves(Half(F)[b][i..], from), PhiMoves(F[b][i..], from), A)
    decreases |F[b]| - i
  {
    hide Closed, CertShape, FoldSafe, HalfStep, Tracked, Vars, Rho, MoveOf, Grounded;
    if i < |F[b]| {
      var code, half, rho := F[b][i..], Half(F)[b][i..], Rho(F, b, i);
      assert InFunc(F, b, i);
      assert code[1..] == F[b][i + 1..] && half[1..] == Half(F)[b][i + 1..];
      HalfShape(rho, F[b][i]);
      if F[b][i].op.Nop? || F[b][i].op.Phi? {
        HeadMove(code, from);
        HeadMove(half, from);
        hide PhiMoves;
        HalfMovesAlike(cert, F, b, i + 1, from, A);
        RhoGrounded(cert, F, b, i);
        HalfMoveAlike(cert, A, rho, F[b][i], from);
      }
    }
  }

  lemma HalfEdge(cert: Cert, F: Func, from: nat, c: nat, A: set<nat>)
    requires CertShape(cert) && FoldSafe(cert, F) && Closed(cert, A) && |cert.avail| == |F| && c < |F|
    requires EdgeOk(cert, F, from, c, A)
    ensures EdgeOk(cert, Half(F), from, c, A)
  {
    hide CertShape, FoldSafe, Closed, PhiMoves, Tracked, Vars, HalfStep, Rho, MovesAlike, Refresh;
    var m1, m2 := PhiMoves(Half(F)[c], from), PhiMoves(F[c], from);
    assert F[c][0..] == F[c] && Half(F)[c][0..] == Half(F)[c];
    HalfMovesAlike(cert, F, c, 0, from, A);
    MovesAlikeVars(cert, m1, m2, A);
    forall m | m in m1 ensures m.dst.Ref? ==> !m.dst.v.kind.Param? {
      var n :| n in m2 && n.dst == m.dst;
    }
  }

  lemma {:induction false} HalfCodeOk(cert: Cert, F: Func, b: nat, i: nat, A: set<nat>)
    requires CertShape(cert) && FoldSafe(cert, F) && |cert.avail| == |F| && b < |F| && i <= |F[b]|
    requires Closed(cert, A) && CodeOk(cert, F, b, F[b][i..], A)
    requires forall x, y :: InFunc(F, x, y) ==> Unfused(F[x][y])
    ensures CodeOk(cert, Half(F), b, Half(F)[b][i..], A)
    decreases |F[b]| - i
  {
    hide CertShape, FoldSafe, Closed, Unfused, EdgeOk, WritesOk, ReadsHere, HalfStep, Rho, Grounded, Targets;
    hide AfterInstr;
    if i < |F[b]| {
      var I, J := F[b][i], Half(F)[b][i];
      assert InFunc(F, b, i);
      assert F[b][i..][0] == I && F[b][i..][1..] == F[b][i + 1..];
      assert Half(F)[b][i..][0] == J && Half(F)[b][i..][1..] == Half(F)[b][i + 1..];
      RhoGrounded(cert, F, b, i);
      HalfReadsAvailable(cert, Rho(F, b, i), A, I);
      HalfWritten(Rho(F, b, i), I);
      HalfShape(Rho(F, b, i), I);
      SameWrites(cert, A, I, J);
      forall c | c in Targets(J) && c < |F| ensures EdgeOk(cert, Half(F), b, c, A) {
        HalfEdge(cert, F, b, c, A);
      }
      StepClosed(cert, I, A);
      HalfCodeOk(cert, F, b, i + 1, AfterInstr(cert, A, I));
    }
  }

  lemma HalfCertified(cert: Cert, F: Func)
    requires Foldable(cert, F)
    ensures Certified(cert, Half(F))
  {
    hide CodeOk, CertShape, Closed, FoldSafe, ListOrder, Unfused, HalfStep, WellShaped;
    forall b | 0 <= b < |F| ensures Closed(cert, cert.avail[b]) && CodeOk(cert, Half(F), b, Half(F)[b], cert.avail[b]) {
      assert F[b][0..] == F[b] && Half(F)[b][0..] == Half(F)[b];
      HalfCodeOk(cert, F, b, 0, cert.avail[b]);
    }
  }

  // ----- and without the folded temporaries, the folded function -----

  function FoldedCert(cert: Cert, F: Func): Cert
  {
    CE.Without(cert, Final(F).Keys)
  }

  lemma NobodyReadsFolded(cert: Cert, F: Func)
    requires Foldable(cert, F)
    ensures CE.Unmentioned(Half(F), Final(F).Keys)
  {
    hide Foldable, HalfStep, Rho, Reads;
    forall b | 0 <= b < |F| ensures CE.NoneRead(Half(F)[b], Final(F).Keys) {
      forall t | t in Final(F).Keys ensures CE.Unread(Half(F)[b], Var(Tmp, t)) {
        forall i | 0 <= i < |F[b]| ensures Var(Tmp, t) !in Reads(Half(F)[b][i]) {
          assert InFunc(F, b, i);
          KeptReads(cert, F, b, i);
          assert Var(Tmp, t) in Folded(F).All();
        }
      }
    }
  }

  lemma FoldDropsOnly(cert: Cert, F: Func, b: nat, i: nat)
    requires Foldable(cert, F) && InFunc(F, b, i)
    ensures CE.DropsOnly(cert, Final(F).Keys, Half(F)[b][i], Fold(F)[b][i])
  {
    hide Foldable, Decide, Rho, Reads, Final;
    var rho, I := Rho(F, b, i), F[b][i];
    var I1 := ResolveInstr(rho, I);
    if Decide(I1).Vanishes? {
      VanishedShape(I1);
      FoldedIsFinal(cert, F, b, i);
      assert Written(I1) == {Var(Tmp, I.dst.v.id)};
    }
  }

  lemma FoldSameMoves(cert: Cert, F: Func)
    requires Foldable(cert, F)
    ensures CE.SameMoves(Half(F), Fold(F))
  {
    var M := Samples.Inert((n, w) => w);
    assert Plain(M, cert);
    hide Foldable, Plain, PhiMoves, HalfStep, Rho, Reads;
    FoldIsPruned(M, cert, F);
    forall b, from: nat | 0 <= b < |F| ensures PhiMoves(Half(F)[b], from) == PhiMoves(Fold(F)[b], from) {
      PhiMovesPruned(M, Folded(F), Half(F)[b], Fold(F)[b], from);
    }
  }

  /** Folding leaves a certified function certified. */
  lemma FoldKeepsCert(cert: Cert, F: Func)
    requires Foldable(cert, F)
    ensures Certified(FoldedCert(cert, F), Fold(F)) && CE.SameMoves(Half(F), Fold(F))
  {
    hide Foldable, Certified, Rho, HalfStep, Final, Reads;
    HalfCertified(cert, F);
    FoldSameMoves(cert, F);
    NobodyReadsFolded(cert, F);
    forall b | 0 <= b < |F| ensures CE.Thinned(cert, Final(F).Keys, Half(F)[b], Fold(F)[b]) {
      forall i | 0 <= i < |F[b]| ensures CE.DropsOnly(cert, Final(F).Keys, Half(F)[b][i], Fold(F)[b][i]) {
        FoldDropsOnly(cert, F, b, i);
      }
    }
    CE.ThinKeepsCert(cert, Final(F).Keys, Half(F), Fold(F));
  }
}
