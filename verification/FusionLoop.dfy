/**
 The fusion do-while loop: every rewrite leaves fewer live instructions, so any sequence of sweeps ends;
 and any number of rewrites, of whatever kinds, is invisible if the function they start from is certified.
 */
module FusionLoop {
  import opened Options
  import opened Ir
  import opened Liveness
  import opened Equivalence
  import opened Forward
  import opened Ssa
  import opened CertEdit
  import opened Fuse
  import opened FusionSafe

  /** One rewrite of irFuseIaddIntoMemAddressing or irFuseLoadOpStore, its tests passed. */
  datatype Rewrite =
    | Disp(b: nat, i: nat)
    | Scale(b: nat, i: nat, x: nat, y: nat, right: bool)
    | Rmw(b: nat, l: nat, m: nat, n: nat, left: bool)

  predicate Applies(p: Pool, F: Func, w: Rewrite)
  {
    match w
    case Disp(b, i) => DispFold(p, F, b, i)
    case Scale(b, i, x, y, right) => ScaleFold(p, F, b, i, x, y, right)
    case Rmw(b, l, m, n, left) => RmwFold(F, b, l, m, n, left)
  }

  function Rewritten(p: Pool, F: Func, w: Rewrite): Func
    requires Applies(p, F, w)
  {
    match w
    case Disp(b, i) => FoldDisp(F, b, i)
    case Scale(b, i, x, y, right) => FoldScale(F, b, i, x, y, right)
    case Rmw(b, l, m, n, left) => FoldRmw(F, b, l, m, n, left)
  }

  lemma ReplaceAlive(F: Func, b: nat, i: nat, J: Instr)
    requires InFunc(F, b, i)
    ensures (F[b][i].op.Nop? <==> J.op.Nop?) ==> Sum(Alive(), Replace(F, b, i, J)) == Sum(Alive(), F)
    ensures !F[b][i].op.Nop? && J.op.Nop? ==> Sum(Alive(), Replace(F, b, i, J)) == Sum(Alive(), F) - 1
    ensures J.op.Nop? ==> Sum(Alive(), Replace(F, b, i, J)) <= Sum(Alive(), F)
  {
    SumReplace(Alive(), F, b, i, J);
  }

  /** Every rewrite deletes at least one instruction. */
  lemma RewriteShrinks(p: Pool, F: Func, w: Rewrite)
    requires Applies(p, F, w)
    ensures Sum(Alive(), Rewritten(p, F, w)) < Sum(Alive(), F)
  {
    hide Sum, FindMemConsumer, RegisterAtRisk;
    match w
    case Disp(b, i) =>
      var j, K := Consumer(F, b, i), DispFused(F, b, i);
      ReplaceAlive(F, b, j, K);
      ReplaceAlive(Replace(F, b, j, K), b, i, NopInstr());
    case Scale(b, i, x, y, right) =>
      var j, K := Consumer(F, b, i), ScaleFused(F, b, i, F[x][y], right);
      var H := Replace(F, b, j, K);
      ReplaceAlive(F, b, j, K);
      ReplaceAlive(H, b, i, NopInstr());
      ReplaceAlive(Replace(H, b, i, NopInstr()), x, y, NopInstr());
    case Rmw(b, l, m, n, left) =>
      var K := RmwFused(F[b][n], F[b][m], left);
      var H := Replace(F, b, n, K);
      ReplaceAlive(F, b, n, K);
      ReplaceAlive(H, b, m, NopInstr());
      ReplaceAlive(Replace(H, b, m, NopInstr()), b, l, NopInstr());
  }

  /** A run of the loop: the functions it went through, each by one rewrite that applied. */
  ghost predicate Chain(p: Pool, Fs: seq<Func>, ws: seq<Rewrite>)
  {
    && |Fs| == |ws| + 1
    && forall k :: 0 <= k < |ws| ==> Applies(p, Fs[k], ws[k]) && Fs[k + 1] == Rewritten(p, Fs[k], ws[k])
  }

  /** However the sweeps go, there are at most as many rewrites as live instructions. */
  lemma {:induction false} FusionEnds(p: Pool, Fs: seq<Func>, ws: seq<Rewrite>)
    requires Chain(p, Fs, ws)
    ensures |ws| + Sum(Alive(), Fs[|ws|]) <= Sum(Alive(), Fs[0])
    decreases |ws|
  {
    hide Applies, Rewritten, Sum;
    if |ws| > 0 {
      RewriteShrinks(p, Fs[0], ws[0]);
      FusionEnds(p, Fs[1..], ws[1..]);
    }
  }

  // ----- meaning -----

  /** The certificate for the rewritten function: the temporaries the rewrite removed are struck from it. */
  function NextCert(p: Pool, cert: Cert, F: Func, w: Rewrite): Cert
    requires Applies(p, F, w)
  {
    match w
    case Disp(b, i) => Without(cert, {F[b][i].dst.v.id})
    case Scale(b, i, x, y, right) => Without(Without(cert, {F[b][i].dst.v.id}), {F[x][y].dst.v.id})
    case Rmw(b, l, m, n, left) => RmwCert(cert, F[b][m].dst.v.id, F[b][l].dst.v.id)
  }

  /** The temporaries whose definitions the rewrite deletes. */
  function Deletes(p: Pool, F: Func, w: Rewrite): set<Var>
    requires Applies(p, F, w)
  {
    match w
    case Disp(b, i) => {F[b][i].dst.v}
    case Scale(b, i, x, y, right) => {F[b][i].dst.v, F[x][y].dst.v}
    case Rmw(b, l, m, n, left) => {F[b][l].dst.v, F[b][m].dst.v}
  }

  /** One rewrite keeps the condition and changes no run but for the temporaries it deletes. */
  lemma RewritePreserves(M: Machine, p: Pool, cert: Cert, F: Func, w: Rewrite, c: Config)
    requires Applies(p, F, w) && Fusible(cert, F) && Starts(M, cert, F, c)
    ensures Fusible(NextCert(p, cert, F, w), Rewritten(p, F, w))
    ensures Starts(M, NextCert(p, cert, F, w), Rewritten(p, F, w), c)
    ensures forall n: nat :: SameConfig(Dead(Deletes(p, F, w), {}), Run(M, F, c, n), Run(M, Rewritten(p, F, w), c, n))
  {
    hide Run, DispFold, ScaleFold, FoldDisp, FoldScale, FoldRmw, Fusible, Starts, SameConfig, Without, RmwCert;
    match w
    case Disp(b, i) => FoldDispPreservesRuns(M, p, cert, F, b, i, c);
    case Scale(b, i, x, y, right) => FoldScalePreservesRuns(M, p, cert, F, b, i, x, y, right, c);
    case Rmw(b, l, m, n, left) => FoldRmwInvisible(M, cert, F, b, l, m, n, left, c);
  }

  lemma FoldRmwInvisible(M: Machine, cert: Cert, F: Func, b: nat, l: nat, m: nat, n: nat, left: bool, c: Config)
    requires RmwFold(F, b, l, m, n, left) && Fusible(cert, F) && Starts(M, cert, F, c)
    ensures var G, less := FoldRmw(F, b, l, m, n, left), RmwCert(cert, F[b][m].dst.v.id, F[b][l].dst.v.id);
            Fusible(less, G) && Starts(M, less, G, c)
    ensures forall k: nat :: SameConfig(Dead({F[b][l].dst.v, F[b][m].dst.v}, {}),
                                        Run(M, F, c, k), Run(M, FoldRmw(F, b, l, m, n, left), c, k))
  {
    RmwWords(F, b, l, m, n, left);
    RmwKeeps(M, cert, F, b, l, m, n, left, c);
    hide Run, SameConfig, RmwFold, WordUpdates, Certified, AllAddressed, OneDef, WellShaped;
    forall k: nat ensures SameConfig(Dead({F[b][l].dst.v, F[b][m].dst.v}, {}),
                                     Run(M, F, c, k), Run(M, FoldRmw(F, b, l, m, n, left), c, k))
    {
      FoldRmwPreservesRuns(M, F, b, l, m, n, left, c, k);
    }
  }

  /** Two deletions in a row. */
  lemma TwoDropped(F: Func, b: nat, i: nat, x: nat, y: nat)
    requires InFunc(F, b, i) && InFunc(F, x, y) && (x != b || y != i)
    requires Produces(F[b][i].op) && IsTmp(F[b][i].dst) && Produces(F[x][y].op) && IsTmp(F[x][y].dst)
    ensures var G := Replace(Replace(F, b, i, NopInstr()), x, y, NopInstr());
            Follows(F, G) && F[b][i].dst.v in Vanished(F, G) && F[x][y].dst.v in Vanished(F, G)
  {
    hide Vanished, Follows;
    var H := Replace(F, b, i, NopInstr());
    FollowsReplace(F, b, i, NopInstr());
    FollowsReplace(H, x, y, NopInstr());
    FollowsTransitive(F, H, Replace(H, x, y, NopInstr()));
  }

  lemma DispFollows(p: Pool, F: Func, b: nat, i: nat)
    requires DispFold(p, F, b, i)
    ensures Follows(F, FoldDisp(F, b, i)) && F[b][i].dst.v in Vanished(F, FoldDisp(F, b, i))
  {
    hide FindMemConsumer, RegisterAtRisk, Vanished, Follows, UseCount;
    var j, K := Consumer(F, b, i), DispFused(F, b, i);
    var H := Replace(F, b, j, K);
    FollowsReplace(F, b, j, K);
    FollowsReplace(H, b, i, NopInstr());
    FollowsTransitive(F, H, FoldDisp(F, b, i));
  }

  lemma ScaleFollows(p: Pool, F: Func, b: nat, i: nat, x: nat, y: nat, right: bool)
    requires ScaleFold(p, F, b, i, x, y, right)
    ensures var G := FoldScale(F, b, i, x, y, right);
            Follows(F, G) && {F[b][i].dst.v, F[x][y].dst.v} <= Vanished(F, G)
  {
    hide FindMemConsumer, RegisterAtRisk, Vanished, Follows, UseCount, ScaleOf;
    DifferentPlaces(F, b, i, x, y, right, p);
    ScalerProduces(F[x][y]);
    var j, K := Consumer(F, b, i), ScaleFused(F, b, i, F[x][y], right);
    var H := Replace(F, b, j, K);
    FollowsReplace(F, b, j, K);
    TwoDropped(H, b, i, x, y);
    FollowsTransitive(F, H, FoldScale(F, b, i, x, y, right));
  }

  lemma RmwFollows(F: Func, b: nat, l: nat, m: nat, n: nat, left: bool)
    requires RmwFold(F, b, l, m, n, left)
    ensures var G := FoldRmw(F, b, l, m, n, left);
            Follows(F, G) && {F[b][m].dst.v, F[b][l].dst.v} <= Vanished(F, G)
  {
    hide FindMemConsumer, Vanished, Follows, UseCount;
    var K := RmwFused(F[b][n], F[b][m], left);
    var H := Replace(F, b, n, K);
    FollowsReplace(F, b, n, K);
    TwoDropped(H, b, m, b, l);
    FollowsTransitive(F, H, FoldRmw(F, b, l, m, n, left));
  }

  lemma RewriteFollows(p: Pool, F: Func, w: Rewrite)
    requires Applies(p, F, w)
    ensures Follows(F, Rewritten(p, F, w)) && Deletes(p, F, w) <= Vanished(F, Rewritten(p, F, w))
  {
    hide DispFold, ScaleFold, RmwFold, FoldDisp, FoldScale, FoldRmw, Vanished, Follows;
    match w
    case Disp(b, i) => DispFollows(p, F, b, i);
    case Scale(b, i, x, y, right) => ScaleFollows(p, F, b, i, x, y, right);
    case Rmw(b, l, m, n, left) => RmwFollows(F, b, l, m, n, left);
  }

  lemma ScalerProduces(D: Instr)
    requires ScaleOf(D).Some?
    ensures Produces(D.op)
  {
  }

  /** Every run from the entry of F, under every certificate, is one of G, but for the temporaries that vanished. */
  ghost predicate Preserved(F: Func, G: Func)
  {
    && Follows(F, G)
    && forall M: Machine, cert: Cert, c: Config, n: nat :: Fusible(cert, F) && Starts(M, cert, F, c) ==>
         SameConfig(Dead(Vanished(F, G), {}), Run(M, F, c, n), Run(M, G, c, n))
  }

  lemma FollowsItself(F: Func)
    ensures Follows(F, F)
  {
  }

  /** Any number of rewrites, of whatever kinds and in any order, keeps the condition on the function and leaves
      every run as it was. */
  lemma {:induction false} FusionInvisible(M: Machine, p: Pool, cert: Cert, c: Config, Fs: seq<Func>, ws: seq<Rewrite>)
    returns (last: Cert)
    requires Chain(p, Fs, ws) && Fusible(cert, Fs[0]) && Starts(M, cert, Fs[0], c)
    ensures Fusible(last, Fs[|ws|]) && Starts(M, last, Fs[|ws|], c) && Follows(Fs[0], Fs[|ws|])
    ensures forall n: nat ::
              SameConfig(Dead(Vanished(Fs[0], Fs[|ws|]), {}), Run(M, Fs[0], c, n), Run(M, Fs[|ws|], c, n))
    decreases |ws|
  {
    hide Applies, Rewritten, Run, Fusible, Starts, SameConfig, Vanished, Follows, Deletes, NextCert;
    var F, G := Fs[0], Fs[|ws|];
    if |ws| == 0 {
      last := cert;
      FollowsItself(F);
      forall n: nat ensures SameConfig(Dead(Vanished(F, G), {}), Run(M, F, c, n), Run(M, G, c, n)) {
        SameConfigReflexive(Dead(Vanished(F, G), {}), Run(M, F, c, n));
      }
    } else {
      var w, H := ws[0], Fs[1];
      RewritePreserves(M, p, cert, F, w, c);
      RewriteFollows(p, F, w);
      last := FusionInvisible(M, p, NextCert(p, cert, F, w), c, Fs[1..], ws[1..]);
      FollowsTransitive(F, H, G);
      var one, more := Dead(Deletes(p, F, w), {}), Dead(Vanished(H, G), {});
      forall n: nat ensures SameConfig(Dead(Vanished(F, G), {}), Run(M, F, c, n), Run(M, G, c, n)) {
        SameConfigTransitive(one, more, Run(M, F, c, n), Run(M, H, c, n), Run(M, G, c, n));
        SameConfigWider(Both(one, more), Dead(Vanished(F, G), {}), Run(M, F, c, n), Run(M, G, c, n));
      }
    }
  }

  // ----- counts taken at the start of a sweep -----

  /** Arithmetic carries no index, and an unscaled memory operation neither. */
  predicate PlainIndex(I: Instr)
  {
    (I.op.Arith? ==> I.idx.Null?) && (MemOp(I.op) && I.scale == 0 ==> I.idx.Null?)
  }

  ghost predicate PlainIndexes(F: Func)
  {
    forall b, i :: InFunc(F, b, i) ==> PlainIndex(F[b][i])
  }

  lemma NopUses(id: nat)
    ensures TmpUses(id)(NopInstr()) == 0
  {
  }

  lemma DispUsesShrink(p: Pool, F: Func, b: nat, i: nat, id: nat)
    requires DispFold(p, F, b, i) && PlainIndexes(F)
    ensures UseCount(FoldDisp(F, b, i), id) <= UseCount(F, id)
  {
    hide Sum, FindMemConsumer, RegisterAtRisk, CountTmp, TmpOperands;
    var I, j, K := F[b][i], Consumer(F, b, i), DispFused(F, b, i);
    SumReplace(TmpUses(id), F, b, j, K);
    SumReplace(TmpUses(id), Replace(F, b, j, K), b, i, NopInstr());
    NopUses(id);
    UsesOfMemOp(F[b][j], id);
    UsesOfMemOp(K, id);
    UsesOfArith(I, id);
  }

  lemma ScaleUsesShrink(p: Pool, F: Func, b: nat, i: nat, x: nat, y: nat, right: bool, id: nat)
    requires ScaleFold(p, F, b, i, x, y, right) && PlainIndexes(F)
    ensures UseCount(FoldScale(F, b, i, x, y, right), id) <= UseCount(F, id)
  {
    hide Sum, FindMemConsumer, RegisterAtRisk, CountTmp, TmpOperands;
    DifferentPlaces(F, b, i, x, y, right, p);
    var I, D, j, K := F[b][i], F[x][y], Consumer(F, b, i), ScaleFused(F, b, i, F[x][y], right);
    var H := Replace(F, b, j, K);
    SumReplace(TmpUses(id), F, b, j, K);
    SumReplace(TmpUses(id), H, b, i, NopInstr());
    SumReplace(TmpUses(id), Replace(H, b, i, NopInstr()), x, y, NopInstr());
    NopUses(id);
    UsesOfMemOp(F[b][j], id);
    UsesOfMemOp(K, id);
    UsesOfArith(I, id);
    UsesOfArith(D, id);
  }

  lemma RmwUsesShrink(F: Func, b: nat, l: nat, m: nat, n: nat, left: bool, id: nat)
    requires RmwFold(F, b, l, m, n, left) && PlainIndexes(F)
    ensures UseCount(FoldRmw(F, b, l, m, n, left), id) <= UseCount(F, id)
  {
    hide Sum, CountTmp, TmpOperands;
    var L, B, S := F[b][l], F[b][m], F[b][n];
    var K := RmwFused(S, B, left);
    var H := Replace(F, b, n, K);
    SumReplace(TmpUses(id), F, b, n, K);
    SumReplace(TmpUses(id), H, b, m, NopInstr());
    SumReplace(TmpUses(id), Replace(H, b, m, NopInstr()), b, l, NopInstr());
    NopUses(id);
    UsesOfMemOp(S, id);
    UsesOfMemOp(K, id);
    UsesOfArith(B, id);
  }

  /** No rewrite adds a use of any temporary: a count of one taken earlier in the sweep still means one use at most. */
  lemma UsesNeverGrow(p: Pool, F: Func, w: Rewrite, id: nat)
    requires Applies(p, F, w) && PlainIndexes(F)
    ensures UseCount(Rewritten(p, F, w), id) <= UseCount(F, id)
  {
    hide UseCount, PlainIndexes, DispFold, ScaleFold, RmwFold, FoldDisp, FoldScale, FoldRmw;
    match w
    case Disp(b, i) => DispUsesShrink(p, F, b, i, id);
    case Scale(b, i, x, y, right) => ScaleUsesShrink(p, F, b, i, x, y, right, id);
    case Rmw(b, l, m, n, left) => RmwUsesShrink(F, b, l, m, n, left, id);
  }

  lemma RewriteKeepsPlain(p: Pool, F: Func, w: Rewrite)
    requires Applies(p, F, w) && PlainIndexes(F)
    ensures PlainIndexes(Rewritten(p, F, w))
  {
    hide FindMemConsumer, RegisterAtRisk, UseCount;
    var G := Rewritten(p, F, w);
    forall b, i | InFunc(G, b, i) ensures PlainIndex(G[b][i]) {
      assert InFunc(F, b, i) && PlainIndex(F[b][i]);
    }
  }

  /** The count of one taken at the start of a sweep is right for every temporary still read. */
  lemma {:induction false} OldCountIsExact(p: Pool, Fs: seq<Func>, ws: seq<Rewrite>, t: nat, b: nat, i: nat)
    requires Chain(p, Fs, ws) && PlainIndexes(Fs[0]) && UseCount(Fs[0], t) <= 1
    requires InFunc(Fs[|ws|], b, i) && Var(Tmp, t) in Reads(Fs[|ws|][b][i])
    ensures UseCount(Fs[|ws|], t) == 1
    decreases |ws|
  {
    hide Applies, Rewritten, Sum, PlainIndexes, Reads;
    if |ws| == 0 {
      UsesCoverReads(Fs[0][b][i], Var(Tmp, t));
      SumAtLeast(TmpUses(t), Fs[0], b, i);
    } else {
      UsesNeverGrow(p, Fs[0], ws[0], t);
      RewriteKeepsPlain(p, Fs[0], ws[0]);
      OldCountIsExact(p, Fs[1..], ws[1..], t, b, i);
    }
  }

  // ----- the choices of a sweep -----

  /** irFindScalingProducer answers for this operand. */
  predicate HasScaler(F: Func, o: Operand)
  {
    && IsTmp(o)
    && exists x, y :: 0 <= x < |F| && 0 <= y < |F[x]| && ScaleOf(F[x][y]).Some?
                      && IsTmp(F[x][y].dst) && F[x][y].dst.v.id == o.v.id
  }

  /** The operand was loaded through the address the store uses. */
  predicate HasLoad(F: Func, o: Operand, S: Instr)
  {
    && IsTmp(o)
    && exists x, y :: 0 <= x < |F| && 0 <= y < |F[x]| && F[x][y].op.LoadDeref? && AddressingMatches(F[x][y], S)
                      && IsTmp(F[x][y].dst) && F[x][y].dst.v.id == o.v.id
  }

  /** The operand the pass settles on first, if it is used once: r2 of an addition, r1 of an update. Having settled
      on it the pass does not come back to the other one. */
  function FirstChoice(p: Pool, F: Func, w: Rewrite): Option<Operand>
    requires Applies(p, F, w)
  {
    match w
    case Disp(b, i) => None
    case Scale(b, i, x, y, right) =>
      if !right && HasScaler(F, F[b][i].r2) then Some(F[b][i].r2) else None
    case Rmw(b, l, m, n, left) =>
      if !left && HasLoad(F, F[b][m].r1, F[b][n]) then Some(F[b][m].r1) else None
  }

  /** The other operand comes first. */
  predicate PassedOver(p: Pool, F: Func, w: Rewrite)
    requires Applies(p, F, w)
  {
    var o := FirstChoice(p, F, w);
    o.Some? && IsTmp(o.value) && UseCount(F, o.value.v.id) == 1
  }

  /** What a sweep tests, with use counts taken at its start. */
  predicate Licensed(p: Pool, uses: Counts, F: Func, w: Rewrite)
  {
    && Applies(p, F, w)
    && (forall v :: v in Deletes(p, F, w) ==> CountOf(uses, v.id) == 1)
    && var o := FirstChoice(p, F, w); !(o.Some? && IsTmp(o.value) && CountOf(uses, o.value.v.id) == 1)
  }

  /** With counts that are up to date a sweep passes over nothing else. */
  lemma LicensedIff(p: Pool, uses: Counts, F: Func, w: Rewrite)
    requires Applies(p, F, w) && forall id: nat :: CountOf(uses, id) == UseCount(F, id)
    ensures Licensed(p, uses, F, w) <==> !PassedOver(p, F, w)
  {
    hide FindMemConsumer, RegisterAtRisk, UseCount, CountOf, FirstChoice;
  }

  lemma LicensedApplies(p: Pool, uses: Counts, F: Func, w: Rewrite)
    requires Licensed(p, uses, F, w)
    ensures Applies(p, F, w)
  {
  }

  /** Where a sweep stands when it considers the rewrite. */
  function Place(w: Rewrite): nat
  {
    if w.Rmw? then w.n else w.i
  }

  predicate Earlier(w: Rewrite, b: nat, i: nat)
  {
    w.b < b || (w.b == b && Place(w) < i)
  }

  // ----- the loops -----

  /** A sweep meets every rewrite at some instruction of the function. */
  lemma LicensedInside(p: Pool, uses: Counts, F: Func)
    ensures forall w: Rewrite :: Licensed(p, uses, F, w) ==> InFunc(F, w.b, Place(w))
  {
    hide FindMemConsumer, RegisterAtRisk, UseCount, FirstChoice, Deletes;
  }

  lemma AllElsePassedOver(p: Pool, uses: Counts, F: Func)
    requires forall id: nat :: CountOf(uses, id) == UseCount(F, id)
    ensures forall w: Rewrite :: Applies(p, F, w) && !Licensed(p, uses, F, w) ==> PassedOver(p, F, w)
  {
    hide Applies, Licensed, UseCount, CountOf, PassedOver;
    forall w: Rewrite | Applies(p, F, w) && !Licensed(p, uses, F, w) ensures PassedOver(p, F, w) {
      LicensedIff(p, uses, F, w);
    }
  }

  /** irPrevNonNop: the last position before j that is not a NOP, or j itself if there is none. */
  method PrevNonNop(code: Code, j: nat) returns (k: nat)
    requires j <= |code|
    ensures k <= j && (k < j ==> !code[k].op.Nop? && NopsBetween(code, k, j))
    ensures k == j ==> forall i :: 0 <= i < j ==> code[i].op.Nop?
  {
    k := j;
    while k > 0
      invariant k <= j && forall i :: k <= i < j ==> code[i].op.Nop?
    {
      k := k - 1;
      if !code[k].op.Nop? { return; }
    }
    return j;
  }

  /** The address fold at (b, i): a displacement, else the scaling of r2, else that of r1. */
  method FindAddressFold(p: Pool, uses: Counts, F: Func, b: nat, i: nat) returns (w: Option<Rewrite>)
    ensures w.Some? ==> !w.value.Rmw? && Licensed(p, uses, F, w.value)
    ensures w.None? ==> forall v: Rewrite :: !v.Rmw? && v.b == b && v.i == i ==> !Licensed(p, uses, F, v)
  {
    hide Licensed;
    if Licensed(p, uses, F, Disp(b, i)) { return Some(Disp(b, i)); }
    w := FindScaleOn(p, uses, F, b, i, true);
    if w.None? {
      w := FindScaleOn(p, uses, F, b, i, false);
    }
    if w.None? {
      forall v: Rewrite | !v.Rmw? && v.b == b && v.i == i ensures !Licensed(p, uses, F, v) {
        assert v == Disp(b, i) || v == Scale(b, i, v.x, v.y, true) || v == Scale(b, i, v.x, v.y, false);
      }
    }
  }

  lemma ScaleInside(p: Pool, uses: Counts, F: Func, b: nat, i: nat, right: bool)
    ensures forall x: nat, y: nat :: Licensed(p, uses, F, Scale(b, i, x, y, right)) ==> InFunc(F, x, y)
  {
    hide Candidate, RegisterAtRisk, UseCount, FirstChoice, Deletes;
  }

  method FindScaleOn(p: Pool, uses: Counts, F: Func, b: nat, i: nat, right: bool) returns (w: Option<Rewrite>)
    ensures w.Some? ==> w.value.Scale? && Licensed(p, uses, F, w.value)
    ensures w.None? ==> forall x: nat, y: nat :: !Licensed(p, uses, F, Scale(b, i, x, y, right))
  {
    ScaleInside(p, uses, F, b, i, right);
    hide Licensed;
    for x := 0 to |F|
      invariant forall u: nat, v: nat :: u < x ==> !Licensed(p, uses, F, Scale(b, i, u, v, right))
    {
      for y := 0 to |F[x]|
        invariant forall u: nat, v: nat :: u < x || (u == x && v < y) ==>
                    !Licensed(p, uses, F, Scale(b, i, u, v, right))
      {
        if Licensed(p, uses, F, Scale(b, i, x, y, right)) {
          return Some(Scale(b, i, x, y, right));
        }
      }
    }
    return None;
  }

  /** The load and operation in front of the store at (b, n) that fuse with it. */
  method FindRmw(p: Pool, uses: Counts, F: Func, b: nat, n: nat) returns (w: Option<Rewrite>)
    requires InFunc(F, b, n)
    ensures w.Some? ==> w.value.Rmw? && Licensed(p, uses, F, w.value)
    ensures w.None? ==> forall v: Rewrite :: v.Rmw? && v.b == b && v.n == n ==> !Licensed(p, uses, F, v)
  {
    var m := PrevNonNop(F[b], n);
    var l := PrevNonNop(F[b], m);
    forall v: Rewrite | v.Rmw? && v.b == b && v.n == n && Licensed(p, uses, F, v)
      ensures m < n && l < m && (v == Rmw(b, l, m, n, true) || v == Rmw(b, l, m, n, false))
    {
      RmwPlaces(F, b, v.l, v.m, n, v.left);
    }
    hide Licensed;
    if m < n && l < m {
      if Licensed(p, uses, F, Rmw(b, l, m, n, true)) { return Some(Rmw(b, l, m, n, true)); }
      if Licensed(p, uses, F, Rmw(b, l, m, n, false)) { return Some(Rmw(b, l, m, n, false)); }
    }
    return None;
  }

  lemma RmwPlaces(F: Func, b: nat, l: nat, m: nat, n: nat, left: bool)
    requires RmwFold(F, b, l, m, n, left)
    ensures InFunc(F, b, n) && l < m < n && !F[b][l].op.Nop? && !F[b][m].op.Nop?
    ensures NopsBetween(F[b], l, m) && NopsBetween(F[b], m, n)
  {
  }

  /** A chain that led from F to G. */
  ghost predicate Leads(p: Pool, F: Func, G: Func, Fs: seq<Func>, ws: seq<Rewrite>)
  {
    Chain(p, Fs, ws) && Fs[0] == F && Fs[|ws|] == G && |G| == |F| && forall b :: 0 <= b < |F| ==> |G[b]| == |F[b]|
  }

  lemma LeadsOn(p: Pool, F: Func, G: Func, Fs: seq<Func>, ws: seq<Rewrite>, w: Rewrite)
    requires Leads(p, F, G, Fs, ws) && Applies(p, G, w)
    ensures Leads(p, F, Rewritten(p, G, w), Fs + [Rewritten(p, G, w)], ws + [w])
  {
    hide Applies, Rewritten;
    RewrittenShape(p, G, w);
    var H, Gs, us := Rewritten(p, G, w), Fs + [Rewritten(p, G, w)], ws + [w];
    forall k | 0 <= k < |us| ensures Applies(p, Gs[k], us[k]) && Gs[k + 1] == Rewritten(p, Gs[k], us[k]) {
      if k < |ws| { assert us[k] == ws[k] && Gs[k] == Fs[k] && Gs[k + 1] == Fs[k + 1]; }
    }
  }

  lemma RewrittenShape(p: Pool, G: Func, w: Rewrite)
    requires Applies(p, G, w)
    ensures var H := Rewritten(p, G, w); |H| == |G| && forall b :: 0 <= b < |G| ==> |H[b]| == |G[b]|
  {
    hide FindMemConsumer, RegisterAtRisk;
  }

  lemma LeadsNowhere(p: Pool, F: Func)
    ensures Leads(p, F, F, [F], [])
  {
  }

  lemma LeadsShrink(p: Pool, F: Func, G: Func, Fs: seq<Func>, ws: seq<Rewrite>)
    requires Leads(p, F, G, Fs, ws)
    ensures |ws| + Sum(Alive(), G) <= Sum(Alive(), F)
  {
    FusionEnds(p, Fs, ws);
  }

  lemma LeadsFar(p: Pool, F: Func, G: Func, H: Func, Fs: seq<Func>, ws: seq<Rewrite>, Gs: seq<Func>, vs: seq<Rewrite>)
    requires Leads(p, F, G, Fs, ws) && Leads(p, G, H, Gs, vs)
    ensures |Gs| > 0 && Leads(p, F, H, Fs + Gs[1..], ws + vs)
  {
    hide Applies, Rewritten;
    var all, us := Fs + Gs[1..], ws + vs;
    forall k | 0 <= k < |us| ensures Applies(p, all[k], us[k]) && all[k + 1] == Rewritten(p, all[k], us[k]) {
      if k >= |ws| {
        assert us[k] == vs[k - |ws|] && all[k + 1] == Gs[k - |ws| + 1];
        assert all[k] == Gs[k - |ws|];
      }
    }
  }

  /** Whatever a run of the loop went through, its end means what its start meant. */
  lemma LeadsPreserve(p: Pool, F: Func, G: Func, Fs: seq<Func>, ws: seq<Rewrite>)
    requires Leads(p, F, G, Fs, ws)
    ensures Preserved(F, G)
  {
    hide Run, Fusible, Starts, SameConfig, Vanished, Follows;
    assert Follows(F, G) by { ChainFollows(p, Fs, ws); }
    forall M: Machine, cert: Cert, c: Config, n: nat | Fusible(cert, F) && Starts(M, cert, F, c)
      ensures SameConfig(Dead(Vanished(F, G), {}), Run(M, F, c, n), Run(M, G, c, n))
    {
      var last := FusionInvisible(M, p, cert, c, Fs, ws);
    }
  }

  lemma {:induction false} ChainFollows(p: Pool, Fs: seq<Func>, ws: seq<Rewrite>)
    requires Chain(p, Fs, ws)
    ensures Follows(Fs[0], Fs[|ws|])
    decreases |ws|
  {
    hide Applies, Rewritten, Follows, Vanished, Deletes;
    if |ws| == 0 {
      FollowsItself(Fs[0]);
    } else {
      RewriteFollows(p, Fs[0], ws[0]);
      ChainFollows(p, Fs[1..], ws[1..]);
      FollowsTransitive(Fs[0], Fs[1], Fs[|ws|]);
    }
  }
}
