/**
 From the folding rounds through dead store elimination to fusion: what the later passes need of the function still
 holds when their turn comes, so the whole sequence is invisible.
 */
module Pipeline {
  import opened Ir
  import opened Liveness
  import opened Equivalence
  import opened DeadCode
  import opened Ssa
  import opened ConstFold
  import opened FoldKeeps
  import opened Forward
  import opened RoundsKeep
  import opened FusionSafe
  import opened FusionLoop
  import opened Fixpoint
  import CE = CertEdit
  import Samples

  // ----- what folding and forwarding leave can be fused -----

  lemma DefIsDefined(cert: Cert, F: Func, t: nat, b: nat, i: nat)
    requires AllAddressed(cert, F) && DefAt(cert, F, t, b, i)
    ensures t in DefinedBy(F[b][i])
  {
    var I := F[b][i];
    assert Relies(cert, I) && I.op.Arith?;
    assert I.dst.v in Vars(I.dst);
  }

  lemma OrderedOnce(cert: Cert, F: Func)
    requires AllAddressed(cert, F) && ListOrder(F)
    ensures OneDef(cert, F)
  {
    hide AllAddressed, ListOrder, DefinedBy;
    forall t: nat, b: nat, i: nat, x: nat, y: nat | DefAt(cert, F, t, b, i) && DefAt(cert, F, t, x, y)
      ensures F[b][i] == F[x][y]
    {
      DefIsDefined(cert, F, t, b, i);
      DefIsDefined(cert, F, t, x, y);
      NotAgain(F, t, b, i, x, y);
      NotAgain(F, t, x, y, b, i);
    }
  }

  lemma OptimisableIsFusible(cert: Cert, F: Func)
    requires Optimisable(cert, F)
    ensures Fusible(cert, F)
  {
    hide Certified, ListOrder, AllFlow, AllUnfused, Settled, AllAddressed;
    forall b | 0 <= b < |F| ensures PhisFirst(F[b]) {
      SettledPhisFirst(F[b]);
    }
    OrderedOnce(cert, F);
    forall b, m, n | InFunc(F, b, m) && InFunc(F, b, n) && StoresResult(F[b][m], F[b][n])
      ensures F[b][m].dst.size >= 8 && WordOperand(F[b][m].r1) && WordOperand(F[b][m].r2)
    {
      assert WholeWord(cert, F[b][m]);
    }
  }

  // ----- what the passes leave alone -----

  /** J produces no temporary I did not, and takes the addresses I took. */
  predicate AddsNothing(I: Instr, J: Instr)
  {
    && (Produces(J.op) && IsTmp(J.dst) ==> Produces(I.op) && J.dst == I.dst)
    && (J.op.Lea? <==> I.op.Lea?) && (I.op.Lea? ==> J.r1 == I.r1)
  }

  ghost predicate AddsNothingAt(F: Func, G: Func)
  {
    && |G| == |F| && (forall b :: 0 <= b < |F| ==> |G[b]| == |F[b]|)
    && forall b, i :: InFunc(F, b, i) ==> AddsNothing(F[b][i], G[b][i])
  }

  lemma {:induction false} SameSumCode(f: Instr -> nat, c: Code, d: Code)
    requires |c| == |d| && forall i :: 0 <= i < |c| ==> f(c[i]) == f(d[i])
    ensures SumCode(f, c) == SumCode(f, d)
    decreases |c|
  {
    if c != [] { SameSumCode(f, c[1..], d[1..]); }
  }

  lemma {:induction false} SameSum(f: Instr -> nat, F: Func, G: Func)
    requires |F| == |G| && forall b :: 0 <= b < |F| ==> |F[b]| == |G[b]|
    requires forall b, i :: InFunc(F, b, i) ==> f(F[b][i]) == f(G[b][i])
    ensures Sum(f, F) == Sum(f, G)
    decreases |F|
  {
    if F != [] {
      forall i | 0 <= i < |F[0]| ensures f(F[0][i]) == f(G[0][i]) {
        assert InFunc(F, 0, i);
      }
      SameSumCode(f, F[0], G[0]);
      forall b, i | InFunc(F[1..], b, i) ensures f(F[1..][b][i]) == f(G[1..][b][i]) {
        assert InFunc(F, b + 1, i);
      }
      SameSum(f, F[1..], G[1..]);
    }
  }

  lemma AddsNothingKeeps(M: Machine, F: Func, G: Func, exposed: set<nat>)
    requires AddsNothingAt(F, G)
    ensures NoAllocaComputed(M, F) ==> NoAllocaComputed(M, G)
    ensures Exposes(F, exposed) ==> Exposes(G, exposed)
  {
    if NoAllocaComputed(M, F) {
      forall b, i | InFunc(G, b, i) && IsTmp(G[b][i].dst) && Produces(G[b][i].op)
        ensures G[b][i].dst.v.id !in M.allocas
      {
        assert InFunc(F, b, i);
      }
    }
    forall id ensures Sum(TakesAddress(id), F) == Sum(TakesAddress(id), G) {
      forall b, i | InFunc(F, b, i) ensures TakesAddress(id)(F[b][i]) == TakesAddress(id)(G[b][i]) {
        assert AddsNothing(F[b][i], G[b][i]);
      }
      SameSum(TakesAddress(id), F, G);
    }
  }

  lemma FoldStepAddsNothing(cert: Cert, rho: Resolver, I: Instr)
    requires SafeAt(cert, rho, I)
    ensures AddsNothing(I, FoldStep(rho, I).0)
  {
    FoldedForm(rho, I);
    var I1 := ResolveInstr(rho, I);
    if Decide(I1).Vanishes? { VanishedShape(I1); }
  }

  lemma FoldAddsNothing(cert: Cert, F: Func)
    requires Foldable(cert, F)
    ensures AddsNothingAt(F, Fold(F))
  {
    hide Certified, WellShaped, Unfused, ListOrder, FoldStep, AddsNothing, SafeAt;
    forall b, i | InFunc(F, b, i) ensures AddsNothing(F[b][i], Fold(F)[b][i]) {
      FoldStepAddsNothing(cert, Rho(F, b, i), F[b][i]);
    }
  }

  lemma {:induction false} RewriteAllAddsNothing(p: Pool, I: Instr, t: seq<Entry>)
    ensures AddsNothing(I, RewriteAll(p, I, t)) && RewriteAll(p, I, t).op == I.op
    decreases |t|
  {
    if t != [] { RewriteAllAddsNothing(p, RewriteOperands(p, I, t[0]), t[1..]); }
  }

  lemma {:induction false} ForwardCodeAddsNothing(p: Pool, code: Code, t: seq<Entry>, i: nat)
    requires i < |code|
    ensures AddsNothing(code[i], ForwardCode(p, code, t)[i])
    decreases |code|
  {
    hide RewriteAll, Track;
    RewriteAllAddsNothing(p, code[0], t);
    if i > 0 {
      var t' := if code[0].op.Nop? then t else Track(p, RewriteAll(p, code[0], t), t);
      ForwardCodeAddsNothing(p, code[1..], t', i - 1);
    }
  }

  lemma ForwardAddsNothing(p: Pool, F: Func)
    ensures AddsNothingAt(F, ForwardFunc(p, F))
  {
    hide AddsNothing, ForwardCode;
    forall b, i | InFunc(F, b, i) ensures AddsNothing(F[b][i], ForwardFunc(p, F)[b][i]) {
      ForwardCodeAddsNothing(p, F[b], [], i);
    }
  }

  /** Any number of rounds leaves alone which temporaries are computed and whose address is taken. */
  lemma {:induction false} RoundsAddNothing(M: Machine, p: Pool, cert: Cert, F: Func, k: nat, exposed: set<nat>)
    returns (last: Cert)
    requires Optimisable(cert, F)
    ensures Optimisable(last, Rounds(p, F, k))
    ensures NoAllocaComputed(M, F) ==> NoAllocaComputed(M, Rounds(p, F, k))
    ensures Exposes(F, exposed) ==> Exposes(Rounds(p, F, k), exposed)
    decreases k
  {
    hide Optimisable, NoAllocaComputed, Exposes, ForwardFunc, Fold, AddsNothingAt;
    if k == 0 {
      last := cert;
    } else {
      var G := Rounds(p, F, k - 1);
      var before := RoundsAddNothing(M, p, cert, F, k - 1, exposed);
      OptimisableIsFoldable(before, G);
      FoldAddsNothing(before, G);
      AddsNothingKeeps(M, G, Fold(G), exposed);
      ForwardAddsNothing(p, Fold(G));
      AddsNothingKeeps(M, Fold(G), ForwardFunc(p, Fold(G)), exposed);
      FoldKeepsOptimisable(before, G);
      last := FoldedCert(before, G);
      ForwardKeepsOptimisable(p, last, Fold(G));
    }
  }

  // ----- dropping a dead store keeps what fusion needs -----

  /** Whatever certifies F certifies G. */
  ghost predicate KeepsFusible(F: Func, G: Func)
  {
    forall M: Machine, cert: Cert, c: Config :: Fusible(cert, F) && Starts(M, cert, F, c) ==>
      Fusible(cert, G) && Starts(M, cert, G, c)
  }

  lemma SamePromises(cert: Cert)
    ensures CE.Promises(cert, cert, {})
  {
  }

  lemma NothingUnmentioned(F: Func)
    ensures CE.Unmentioned(F, {})
  {
  }

  lemma StoreDropKeepsCert(cert: Cert, F: Func, b: nat, i: nat)
    requires Certified(cert, F) && WellShaped(F) && DeadStore(F, b, i)
    ensures Certified(cert, Replace(F, b, i, Dropped(F[b][i]))) && CE.SameMoves(F, Replace(F, b, i, Dropped(F[b][i])))
  {
    hide CodeOk, Closed, CertShape, PhiMoves, WellShaped, ReadCount, AddressTaken;
    var I := F[b][i];
    var G := Replace(F, b, i, Dropped(I));
    CE.ReplaceSameMoves(F, b, i, Dropped(I));
    SamePromises(cert);
    NothingUnmentioned(F);
    forall x | 0 <= x < |G| ensures CodeOk(cert, G, x, G[x], cert.avail[x]) {
      assert CE.Thinned(cert, {}, F[x], G[x]);
      assert CE.NoneRead(F[x], {});
      CE.CodeOkLess(cert, cert, {}, F, G, x, F[x], G[x], cert.avail[x], cert.avail[x]);
    }
  }

  lemma StoreDropKeepsFusible(F: Func, b: nat, i: nat)
    requires WellShaped(F) && DeadStore(F, b, i)
    ensures KeepsFusible(F, Replace(F, b, i, Dropped(F[b][i])))
  {
    hide Certified, PhisFirst, Plain, NoAllocaComputed, DeadStore, PhiMoves;
    assert InFunc(F, b, i) && F[b][i].op.Store? by { DeadStoreHere(F, b, i); }
    var I := F[b][i];
    var G := Replace(F, b, i, Dropped(I));
    ShapeKept(F, b, i, Dropped(I));
    forall M: Machine, cert: Cert, c: Config | Fusible(cert, F) && Starts(M, cert, F, c)
      ensures Fusible(cert, G) && Starts(M, cert, G, c)
    {
      StoreDropKeepsCert(cert, F, b, i);
      NoAllocaKept(M, F, b, i, Dropped(I));
      forall x, y | InFunc(G, x, y) ensures Relies(cert, G[x][y]) && Addressed(cert, G[x][y]) {
        assert InFunc(F, x, y);
        DroppedAddressed(cert, I);
      }
      OneDefKept(cert, cert, F, b, i, Dropped(I));
      forall x, m, n | InFunc(G, x, m) && InFunc(G, x, n) && StoresResult(G[x][m], G[x][n])
        ensures G[x][m].dst.size >= 8 && WordOperand(G[x][m].r1) && WordOperand(G[x][m].r2)
      {
        assert InFunc(F, x, m) && InFunc(F, x, n) && StoresResult(F[x][m], F[x][n]);
      }
    }
  }

  lemma DroppedAddressed(cert: Cert, I: Instr)
    ensures Relies(cert, Dropped(I)) && Addressed(cert, Dropped(I))
  {
  }

  lemma DeadStoreHere(F: Func, b: nat, i: nat)
    requires DeadStore(F, b, i)
    ensures InFunc(F, b, i) && F[b][i].op.Store?
  {
  }

  lemma KeepsFusibleTransitive(F: Func, G: Func, H: Func)
    requires KeepsFusible(F, G) && KeepsFusible(G, H)
    ensures KeepsFusible(F, H)
  {
    hide Fusible, Starts;
  }

  lemma KeepsFusibleItself(F: Func)
    ensures KeepsFusible(F, F)
  {
    hide Fusible, Starts;
  }

  // ----- the whole sequence -----

  /** On every machine that keeps to the exposed slots, every run from the entry of F is, to an observer, one of G. */
  ghost predicate Invisible(exposed: set<nat>, cert: Cert, F: Func, G: Func)
  {
    forall M: Machine, c: Config, n: nat :: Respects(M, exposed, F) && Begins(M, cert, F, c) ==>
      SameObs(Run(M, F, c, n), Run(M, G, c, n))
  }

  /** Rounds to G, dead stores dropped in H, fused to K. */
  lemma SequenceInvisible(p: Pool, exposed: set<nat>, cert: Cert, F: Func, k: nat, G: Func, H: Func, K: Func)
    requires Optimisable(cert, F) && G == Rounds(p, F, k)
    requires Equivalent(exposed, G, H) && KeepsFusible(G, H) && Preserved(H, K)
    ensures Invisible(exposed, cert, F, K)
  {
    hide Optimisable, Begins, Run, Fusible, Starts, SameConfig, SameObs, Rounds, FoldedIn, Respects, Vanished, Follows;
    forall M: Machine, c: Config, n: nat | Respects(M, exposed, F) && Begins(M, cert, F, c)
      ensures SameObs(Run(M, F, c, n), Run(M, K, c, n))
    {
      var last := RoundsPreserve(M, p, cert, F, k, c);
      SameConfigIsSameObs(FoldedIn(p, F, k), Run(M, F, c, n), Run(M, G, c, n));
      RespectedLater(M, p, exposed, cert, F, k);
      OptimisableIsFusible(last, G);
      BeginsStarts(M, exposed, last, G, c);
      SameConfigIsSameObs(Dead(Vanished(H, K), {}), Run(M, H, c, n), Run(M, K, c, n));
      SameObsTransitive(Run(M, F, c, n), Run(M, G, c, n), Run(M, H, c, n));
      SameObsTransitive(Run(M, F, c, n), Run(M, H, c, n), Run(M, K, c, n));
    }
  }

  lemma RespectedLater(M: Machine, p: Pool, exposed: set<nat>, cert: Cert, F: Func, k: nat)
    requires Optimisable(cert, F) && Respects(M, exposed, F)
    ensures Respects(M, exposed, Rounds(p, F, k))
  {
    hide Optimisable, Rounds, NoAllocaComputed, Private;
    var last := RoundsAddNothing(M, p, cert, F, k, exposed);
  }

  lemma BeginsStarts(M: Machine, exposed: set<nat>, cert: Cert, G: Func, c: Config)
    requires Begins(M, cert, G, c) && Respects(M, exposed, G)
    ensures Starts(M, cert, G, c)
  {
    hide Plain, Initial, NoAllocaComputed, Private;
  }

  /** What dead store elimination asks for is there after the rounds. */
  lemma RoundsStorable(p: Pool, exposed: set<nat>, cert: Cert, F: Func, k: nat)
    requires Optimisable(cert, F) && Exposes(F, exposed)
    ensures var G := Rounds(p, F, k); WellShaped(G) && FuncUnfused(G) && Exposes(G, exposed)
  {
    hide Exposes, Rounds, Certified, ListOrder, WholeWords, AllFlow, AllAddressed;
    var last := RoundsAddNothing(Samples.Inert((n, w) => w), p, cert, F, k, exposed);
    forall b | 0 <= b < |Rounds(p, F, k)| ensures PhisFirst(Rounds(p, F, k)[b]) {
      SettledPhisFirst(Rounds(p, F, k)[b]);
    }
  }

  lemma OptimisableIsNamed(cert: Cert, F: Func)
    requires Optimisable(cert, F)
    ensures FuncNamed(F)
  {
    hide Certified, ListOrder, AllFlow, AllUnfused, AllSettled, AllAddressed;
    forall b | 0 <= b < |F| ensures NamedStores(F[b]) {
      forall i | 0 <= i < |F[b]| ensures NamesItsSlot(F[b][i]) {
        assert InFunc(F, b, i);
      }
    }
  }
}
