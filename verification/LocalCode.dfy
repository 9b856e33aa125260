/**
 A condition that can be read off the code position by position and makes it optimisable: every temporary has one
 place where it is defined, its home, and unless it is a buffer it is read further down in the same block, before
 anything it is tied to has changed. This is how the front end leaves expressions.
 */
module LocalCode {
  import opened Ir
  import opened Liveness
  import opened Equivalence
  import opened Ssa
  import opened ConstFold
  import opened Forward
  import opened Fuse
  import opened FusionSafe
  import opened RoundsKeep

  type Homes = map<nat, (nat, nat)>

  /** Nothing is available between blocks. */
  function LocalCert(blocks: nat, sup: map<nat, set<Var>>, buffers: set<nat>, defs: set<nat>, addr: set<Var>): Cert
  {
    Cert(seq(blocks, i => {}), sup, buffers, defs, addr)
  }

  /** t is as its home, instruction k, left it when instruction i comes. */
  predicate Lives(cert: Cert, code: Code, t: nat, k: nat, i: nat)
  {
    forall m :: k < m < i && m < |code| ==> Survives(cert, t, Written(code[m]), KillsAll(code[m].op))
  }

  predicate Readable(cert: Cert, F: Func, home: Homes, b: nat, i: nat, t: nat)
    requires InFunc(F, b, i)
  {
    && t in home && Precedes(home[t].0, home[t].1, b, i)
    && (t !in cert.buffers ==> home[t].0 == b && Lives(cert, F[b], t, home[t].1, i))
  }

  predicate DefinesTmp(I: Instr)
  {
    (Produces(I.op) || I.op.Alloca?) && IsTmp(I.dst)
  }

  predicate DstIsRead(op: Op)
  {
    op.Ret? || op.Br? || op.StoreDeref?
  }

  /** Temporaries are defined at home and read where they are still good. */
  predicate AtHome(cert: Cert, F: Func, home: Homes, b: nat, i: nat)
    requires InFunc(F, b, i)
  {
    var I := F[b][i];
    && !I.op.Phi? && Unfused(I) && I.args == [] && (I.op.Jmp? || I.op.CmpBr? ==> I.dst.Null?)
    && (I.dst.Ref? && I.dst.v.kind.Param? ==> DstIsRead(I.op))
    && (DefinesTmp(I) ==> I.dst.v.id in home && home[I.dst.v.id] == (b, i))
    && (I.op.Alloca? && IsTmp(I.dst) ==> I.dst.v.id in cert.buffers)
    && (IsTmp(I.r1) ==> Readable(cert, F, home, b, i, I.r1.v.id))
    && (IsTmp(I.r2) ==> Readable(cert, F, home, b, i, I.r2.v.id))
    && (IsTmp(I.dst) && DstIsRead(I.op) ==> Readable(cert, F, home, b, i, I.dst.v.id))
  }

  predicate HomeIs(F: Func, home: Homes, t: nat)
    requires t in home
  {
    InFunc(F, home[t].0, home[t].1) && var I := F[home[t].0][home[t].1]; DefinesTmp(I) && I.dst.v.id == t
  }

  /** Values are tied to frame slots only. */
  ghost predicate TiedToSlots(cert: Cert)
  {
    forall t, v :: t in cert.sup && v in cert.sup[t] ==> v.kind.Local?
  }

  ghost predicate AllAtHome(cert: Cert, F: Func, home: Homes)
  {
    && cert.avail == seq(|F|, i => {}) && TiedToSlots(cert) && (forall t :: t in home ==> HomeIs(F, home, t))
    && forall b, i :: InFunc(F, b, i) ==> AtHome(cert, F, home, b, i)
  }

  // ----- single assignment -----

  lemma DefinedHere(I: Instr, t: nat)
    ensures t in DefinedBy(I) <==> DefinesTmp(I) && I.dst.v.id == t
  {
    if DefinesTmp(I) { assert I.dst.v == Var(Tmp, I.dst.v.id); }
  }

  lemma ReadsAtHome(cert: Cert, F: Func, home: Homes, b: nat, i: nat, t: nat)
    requires InFunc(F, b, i) && AtHome(cert, F, home, b, i) && t in Tmps(Reads(F[b][i]))
    ensures Readable(cert, F, home, b, i, t)
  {
    hide Readable;
  }

  lemma {:induction false} DefinedEarlier(F: Func, b: nat, i: nat, t: nat) returns (x: nat, y: nat)
    requires Position(F, b, i) && t in Defined(F, b, i)
    ensures InFunc(F, x, y) && Precedes(x, y, b, i) && t in DefinedBy(F[x][y])
    decreases b, i
  {
    if i > 0 {
      if t in DefinedBy(F[b][i - 1]) {
        x, y := b, i - 1;
      } else {
        x, y := DefinedEarlier(F, b, i - 1, t);
      }
    } else if b > 0 {
      x, y := DefinedEarlier(F, b - 1, |F[b - 1]|, t);
    }
  }

  lemma HomeOf(cert: Cert, F: Func, home: Homes, b: nat, i: nat, t: nat)
    requires AllAtHome(cert, F, home) && InFunc(F, b, i) && t in DefinedBy(F[b][i])
    ensures t in home && home[t] == (b, i)
  {
    hide DefinedBy, DefinesTmp, Readable;
    DefinedHere(F[b][i], t);
    assert AtHome(cert, F, home, b, i);
  }

  /** Temporaries are defined once, before they are read. */
  lemma HomesOrdered(cert: Cert, F: Func, home: Homes)
    requires AllAtHome(cert, F, home)
    ensures ListOrder(F)
  {
    hide Reads, DefinedBy, Defined, Written, DefinesTmp;
    forall b, i | InFunc(F, b, i)
      ensures Tmps(Reads(F[b][i])) <= Defined(F, b, i) && DefinedBy(F[b][i]) !! Defined(F, b, i)
    {
      forall t | t in Tmps(Reads(F[b][i])) ensures t in Defined(F, b, i) {
        ReadsAtHome(cert, F, home, b, i, t);
        assert HomeIs(F, home, t);
        DefinedHere(F[home[t].0][home[t].1], t);
        DefinedLater(F, home[t].0, home[t].1, b, i);
      }
      forall t | t in DefinedBy(F[b][i]) ensures t !in Defined(F, b, i) {
        HomeOf(cert, F, home, b, i, t);
        if t in Defined(F, b, i) {
          var x, y := DefinedEarlier(F, b, i, t);
          HomeOf(cert, F, home, x, y, t);
        }
      }
    }
  }

  // ----- availability -----

  /** What is available in front of instruction i. */
  function AvailAt(cert: Cert, F: Func, home: Homes, b: nat, i: nat): set<nat>
    requires b < |F|
  {
    set t | t in home && t !in cert.buffers && home[t].0 == b && home[t].1 < i && Lives(cert, F[b], t, home[t].1, i)
  }

  lemma TiesUntracked(cert: Cert, t: nat)
    requires TiedToSlots(cert)
    ensures Tracked(cert, Sup(cert, t)) == {}
  {
    forall v | v in Sup(cert, t) ensures v.kind.Local? {
    }
    assert Tmps(Sup(cert, t)) == {};
  }

  lemma AssignedAtHome(cert: Cert, F: Func, home: Homes, t: nat)
    requires AllAtHome(cert, F, home) && t in home && t !in cert.buffers
    ensures HomeIs(F, home, t) && t in Tracked(cert, Written(F[home[t].0][home[t].1]))
  {
    hide Readable;
    assert HomeIs(F, home, t);
    var I := F[home[t].0][home[t].1];
    assert AtHome(cert, F, home, home[t].0, home[t].1);
    assert I.dst.v == Var(Tmp, t) && I.dst.v in Written(I);
  }

  lemma AvailNext(cert: Cert, F: Func, home: Homes, b: nat, i: nat, A: set<nat>)
    requires AllAtHome(cert, F, home) && InFunc(F, b, i) && AvailAt(cert, F, home, b, i) <= A
    ensures AvailAt(cert, F, home, b, i + 1) <= AfterInstr(cert, A, F[b][i])
  {
    hide Written, Survives, HomeIs, Tracked, TiedToSlots;
    assert !F[b][i].op.Phi? by { assert AtHome(cert, F, home, b, i); }
    forall t | t in AvailAt(cert, F, home, b, i + 1) ensures t in AfterInstr(cert, A, F[b][i]) {
      if home[t].1 == i {
        AssignedAtHome(cert, F, home, t);
      } else {
        assert Lives(cert, F[b], t, home[t].1, i);
      }
    }
  }

  lemma {:induction false} NoMoves(code: Code, from: nat)
    requires forall i :: 0 <= i < |code| ==> !code[i].op.Phi?
    ensures PhiMoves(code, from) == []
    decreases |code|
  {
    if code != [] { NoMoves(code[1..], from); }
  }

  lemma EdgesOk(cert: Cert, F: Func, home: Homes, b: nat, c: nat, A: set<nat>)
    requires AllAtHome(cert, F, home) && c < |F|
    ensures |cert.avail| == |F| && EdgeOk(cert, F, b, c, A)
  {
    hide Readable;
    forall i | 0 <= i < |F[c]| ensures !F[c][i].op.Phi? {
      assert AtHome(cert, F, home, c, i);
    }
    NoMoves(F[c], b);
    assert PhiMoves(F[c], b) == [];
  }

  lemma WritesAtHome(cert: Cert, F: Func, home: Homes, b: nat, i: nat, A: set<nat>)
    requires AllAtHome(cert, F, home) && InFunc(F, b, i)
    ensures WritesOk(cert, A, F[b][i])
  {
    hide Readable, AfterInstr;
    assert AtHome(cert, F, home, b, i);
    forall t ensures Tracked(cert, Sup(cert, t)) == {} {
      TiesUntracked(cert, t);
    }
  }

  lemma ReadsAvailable(cert: Cert, F: Func, home: Homes, b: nat, i: nat)
    requires AllAtHome(cert, F, home) && InFunc(F, b, i)
    ensures ReadsHere(cert, F[b][i]) <= AvailAt(cert, F, home, b, i)
  {
    hide Reads, TiedToSlots, Lives;
    forall t | t in ReadsHere(cert, F[b][i]) ensures t in AvailAt(cert, F, home, b, i) {
      ReadsAtHome(cert, F, home, b, i, t);
    }
  }

  lemma {:induction false} CodeAtHome(cert: Cert, F: Func, home: Homes, b: nat, i: nat, A: set<nat>)
    requires AllAtHome(cert, F, home) && b < |F| && i <= |F[b]| && AvailAt(cert, F, home, b, i) <= A
    ensures |cert.avail| == |F| && CodeOk(cert, F, b, F[b][i..], A)
    decreases |F[b]| - i
  {
    if i < |F[b]| {
      AvailNext(cert, F, home, b, i, A);
      ReadsAvailable(cert, F, home, b, i);
      WritesAtHome(cert, F, home, b, i, A);
      forall c | c in Targets(F[b][i]) && c < |F| ensures EdgeOk(cert, F, b, c, A) {
        EdgesOk(cert, F, home, b, c, A);
      }
      CodeAtHome(cert, F, home, b, i + 1, AfterInstr(cert, A, F[b][i]));
      assert F[b][i..][1..] == F[b][i + 1..] && F[b][i..][0] == F[b][i];
    }
  }

  lemma AtHomeIsCertified(cert: Cert, F: Func, home: Homes)
    requires AllAtHome(cert, F, home)
    ensures Certified(cert, F)
  {
    hide CodeOk, AtHome, HomeIs;
    forall t ensures Tracked(cert, Sup(cert, t)) == {} {
      TiesUntracked(cert, t);
    }
    forall b | 0 <= b < |F| ensures CodeOk(cert, F, b, F[b], cert.avail[b]) {
      CodeAtHome(cert, F, home, b, 0, {});
      assert F[b][0..] == F[b];
    }
  }

  // ----- the rest of the condition -----

  /** A stored temporary is tied to nothing, and what is stored is not assigned from there on. */
  predicate StoresLast(cert: Cert, code: Code, i: nat)
    requires i < |code|
  {
    code[i].op.Store? && code[i].r1.Ref? ==>
      && (IsTmp(code[i].r1) ==> code[i].r1.v.id !in cert.sup)
      && forall j :: i <= j < |code| && code[j].dst.Ref? ==> code[j].dst.v != code[i].r1.v
  }

  ghost predicate Suitable(cert: Cert, F: Func, b: nat, i: nat)
    requires InFunc(F, b, i)
  {
    && WholeWord(cert, F[b][i]) && Relies(cert, F[b][i]) && Addressed(cert, F[b][i]) && StoresAddress(cert, F[b][i])
    && Sourced(cert, F[b], i) && StoresLast(cert, F[b], i)
  }

  /** Nothing has to be relied on: every calculation into a temporary is idle, and there are no memory operations. */
  predicate Untied(cert: Cert)
  {
    cert.sup == map[] && cert.defs == {} && cert.addr == {}
  }

  /** What is then left of Suitable. */
  predicate Undemanding(cert: Cert, code: Code, i: nat)
    requires i < |code|
  {
    var I := code[i];
    && !MemOp(I.op) && !I.op.Lea?
    && (Calculates(I.op) && IsTmp(I.dst) ==>
          Idle(I) && I.dst.v.id !in cert.buffers && I.dst.size == 8 && ByteSize(I.r1) == 8 && ByteSize(I.r2) == 8)
    && (Calculates(I.op) && I.dst.Ref? && I.dst.v.kind.Local? ==> I.dst.size == 8)
    && (I.op.Store? ==>
          && I.dst.Ref? && I.dst.size == 8 && (IsTmp(I.dst) ==> I.dst.v.id in cert.buffers)
          && !I.r1.Null? && ByteSize(I.r1) == 8
          && (I.r1.Ref? ==> forall j :: i <= j < |code| && code[j].dst.Ref? ==> code[j].dst.v != I.r1.v))
  }

  lemma UndemandingSuits(cert: Cert, F: Func, b: nat)
    requires b < |F| && Untied(cert) && forall i :: 0 <= i < |F[b]| ==> Undemanding(cert, F[b], i)
    ensures BlockSuits(cert, F, b)
  {
    hide Idle;
    forall i | 0 <= i < |F[b]| ensures Suitable(cert, F, b, i) {
      assert Undemanding(cert, F[b], i);
    }
  }

  ghost predicate BlockAtHome(cert: Cert, F: Func, home: Homes, b: nat)
    requires b < |F|
  {
    forall i :: 0 <= i < |F[b]| ==> AtHome(cert, F, home, b, i)
  }

  ghost predicate BlockSuits(cert: Cert, F: Func, b: nat)
    requires b < |F|
  {
    forall i :: 0 <= i < |F[b]| ==> Suitable(cert, F, b, i)
  }

  ghost predicate LocallyFit(cert: Cert, F: Func, home: Homes)
  {
    && cert.avail == seq(|F|, i => {}) && TiedToSlots(cert) && (forall t :: t in home ==> HomeIs(F, home, t))
    && forall b :: 0 <= b < |F| ==> BlockAtHome(cert, F, home, b) && BlockSuits(cert, F, b)
  }

  lemma StoredLasts(cert: Cert, code: Code, i: nat)
    requires i < |code| && StoresLast(cert, code, i) && code[i].op.Store?
    ensures LastsFrom(cert, code, i, code[i].r1)
  {
    forall j | i <= j < |code| ensures LeavesAlone(cert, code[j], code[i].r1) {
      assert Written(code[j]) <= Vars(code[j].dst);
    }
  }

  lemma FitIsAtHome(cert: Cert, F: Func, home: Homes)
    requires LocallyFit(cert, F, home)
    ensures AllAtHome(cert, F, home) && forall b, i :: InFunc(F, b, i) ==> Suitable(cert, F, b, i)
  {
    hide AtHome, Suitable, TiedToSlots, HomeIs;
    forall b, i | InFunc(F, b, i) ensures AtHome(cert, F, home, b, i) && Suitable(cert, F, b, i) {
      assert BlockAtHome(cert, F, home, b) && BlockSuits(cert, F, b);
    }
  }

  /** Code that keeps its temporaries at home meets the condition of the optimiser. */
  lemma LocalIsOptimisable(cert: Cert, F: Func, home: Homes)
    requires LocallyFit(cert, F, home)
    ensures Optimisable(cert, F)
  {
    FitIsAtHome(cert, F, home);
    HomesOrdered(cert, F, home);
    AtHomeIsCertified(cert, F, home);
    hide Certified, ListOrder, WholeWord, Relies, Addressed, StoresAddress, Sourced, StoresLast, Readable, TiedToSlots;
    hide LastsFrom, HomeIs, Settled, SourcesLast, Optimisable, LocallyFit;
    forall b | 0 <= b < |F| ensures Settled(F[b]) && SourcesLast(cert, F[b]) {
      forall i | 0 <= i < |F[b]| ensures !F[b][i].op.Phi? && Suitable(cert, F, b, i) {
        assert AtHome(cert, F, home, b, i);
      }
      BlockSettled(cert, F, b);
    }
    forall b, i | InFunc(F, b, i) ensures Unfused(F[b][i]) {
      assert AtHome(cert, F, home, b, i);
    }
    PutTogether(cert, F);
  }

  lemma BlockSettled(cert: Cert, F: Func, b: nat)
    requires b < |F| && forall i :: 0 <= i < |F[b]| ==> !F[b][i].op.Phi? && Suitable(cert, F, b, i)
    ensures Settled(F[b]) && SourcesLast(cert, F[b])
  {
    hide WholeWord, Relies, Addressed, StoresAddress, Sourced, StoresLast, LastsFrom, Settled;
    forall i | 0 <= i < |F[b]| && F[b][i].op.Store? ensures LastsFrom(cert, F[b], i, F[b][i].r1) {
      StoredLasts(cert, F[b], i);
    }
    LastingIsSettled(cert, F[b]);
  }
}
