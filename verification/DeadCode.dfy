/** Dead store elimination and dead code elimination: the conditions they test, and why the tests suffice. */
module DeadCode {
  import opened Options
  import opened Ir
  import opened Liveness
  import opened Equivalence

  ghost predicate FuncUnfused(F: Func)
  {
    forall b, i :: InFunc(F, b, i) ==> Unfused(F[b][i])
  }

  /** The slots a pointer may reach are among those whose address is taken. */
  predicate Exposes(F: Func, exposed: set<nat>)
  {
    forall id :: id in exposed ==> AddressTaken(F, id)
  }

  /** What irDeadStoreEliminate tests before it drops the store at (b, i). */
  predicate DeadStore(F: Func, b: nat, i: nat)
  {
    && InFunc(F, b, i)
    && var I := F[b][i];
       I.op.Store? && I.dst.Ref? && !I.dst.v.kind.Tmp?
       && !AddressTaken(F, I.dst.v.id) && ReadCount(F, I.dst.v.id) == 0
  }

  /** What it leaves behind. */
  function Dropped(I: Instr): Instr
  {
    I.(op := Nop, dst := Null, r1 := Null, r2 := Null)
  }

  // ----- which stores go -----

  predicate SlotStore(I: Instr)
  {
    I.op.Store? && I.dst.Ref? && !I.dst.v.kind.Tmp?
  }

  /** Nothing but stores to slots has been turned into NOPs, and only where the slot is not read or exposed any more. */
  predicate OnlyDropped(F: Func, G: Func, b: nat, i: nat)
    requires InFunc(F, b, i) && InFunc(G, b, i)
  {
    || G[b][i] == F[b][i]
    || (SlotStore(F[b][i]) && G[b][i] == Dropped(F[b][i]) && !AddressTaken(F, F[b][i].dst.v.id)
        && ReadCount(G, F[b][i].dst.v.id) == 0)
  }

  predicate SameShape(F: Func, G: Func)
  {
    |G| == |F| && forall b :: 0 <= b < |F| ==> |G[b]| == |F[b]|
  }

  /** What the pass makes of F: every store that was dead is gone, and what is gone is dead. */
  ghost predicate StoresDropped(F: Func, G: Func)
  {
    && SameShape(F, G)
    && (forall b, i :: InFunc(F, b, i) ==> OnlyDropped(F, G, b, i))
    && (forall b: nat, i: nat :: DeadStore(F, b, i) ==> G[b][i].op.Nop?)
  }

  predicate Before(b: nat, i: nat, x: nat, y: nat)
  {
    b < x || (b == x && i < y)
  }

  /** The pass has arrived at instruction y of block x. */
  ghost predicate DroppedTo(F: Func, G: Func, x: nat, y: nat)
  {
    && SameShape(F, G)
    && (forall b, i :: InFunc(F, b, i) ==> OnlyDropped(F, G, b, i) && (Before(b, i, x, y) || G[b][i] == F[b][i]))
    && (forall b: nat, i: nat :: DeadStore(F, b, i) && Before(b, i, x, y) ==> G[b][i].op.Nop?)
    && (forall id: nat :: ReadCount(G, id) <= ReadCount(F, id) && (AddressTaken(G, id) <==> AddressTaken(F, id)))
  }

  lemma NothingDropped(F: Func)
    ensures DroppedTo(F, F, 0, 0)
  {
    hide ReadCount, AddressTaken, DeadStore;
  }

  lemma NextBlock(F: Func, G: Func, x: nat)
    requires DroppedTo(F, G, x, if x < |F| then |F[x]| else 0) && x < |F|
    ensures DroppedTo(F, G, x + 1, 0)
  {
    hide ReadCount, AddressTaken, Dropped, SlotStore;
  }

  lemma AllDropped(F: Func, G: Func)
    requires DroppedTo(F, G, |F|, 0)
    ensures StoresDropped(F, G)
  {
    hide ReadCount, AddressTaken, Dropped, SlotStore;
  }

  /** A store that was dead at the start is still dead when its turn comes. */
  lemma KeptIsAlive(F: Func, G: Func, x: nat, y: nat)
    requires DroppedTo(F, G, x, y) && InFunc(F, x, y) && !DeadStore(G, x, y)
    ensures DroppedTo(F, G, x, y + 1)
  {
    hide ReadCount, AddressTaken, Dropped;
    assert OnlyDropped(F, G, x, y);
    assert !DeadStore(F, x, y);
    forall b: nat, i: nat | DeadStore(F, b, i) && Before(b, i, x, y + 1) ensures G[b][i].op.Nop? {
      assert Before(b, i, x, y);
    }
  }

  lemma CountsDrop(F: Func, b: nat, i: nat, id: nat)
    requires InFunc(F, b, i) && F[b][i].op.Store?
    ensures var G := Replace(F, b, i, Dropped(F[b][i]));
            ReadCount(G, id) <= ReadCount(F, id) && (AddressTaken(G, id) <==> AddressTaken(F, id))
  {
    SumReplace(SlotReads(id), F, b, i, Dropped(F[b][i]));
    SumReplace(TakesAddress(id), F, b, i, Dropped(F[b][i]));
  }

  lemma DropsHere(G: Func, x: nat, y: nat)
    requires DeadStore(G, x, y)
    ensures InFunc(G, x, y) && SlotStore(G[x][y]) && Dropped(G[x][y]).op.Nop?
    ensures !AddressTaken(G, G[x][y].dst.v.id) && ReadCount(G, G[x][y].dst.v.id) == 0
  {
  }

  lemma StillOnlyDropped(F: Func, G: Func, x: nat, y: nat, b: nat, i: nat)
    requires DroppedTo(F, G, x, y) && InFunc(F, x, y) && InFunc(F, b, i) && DeadStore(G, x, y)
    ensures var H := Replace(G, x, y, Dropped(G[x][y]));
            OnlyDropped(F, H, b, i) && (Before(b, i, x, y + 1) || H[b][i] == F[b][i])
  {
    hide DeadStore, ReadCount, AddressTaken, Dropped;
    DropsHere(G, x, y);
    assert OnlyDropped(F, G, b, i);
    if SlotStore(F[b][i]) { CountsDrop(G, x, y, F[b][i].dst.v.id); }
    CountsDrop(G, x, y, G[x][y].dst.v.id);
  }

  lemma OneMoreDropped(F: Func, G: Func, x: nat, y: nat)
    requires DroppedTo(F, G, x, y) && InFunc(F, x, y) && DeadStore(G, x, y)
    ensures DroppedTo(F, Replace(G, x, y, Dropped(G[x][y])), x, y + 1)
  {
    var H: Func := Replace(G, x, y, Dropped(G[x][y]));
    DropsHere(G, x, y);
    hide ReadCount, AddressTaken, Dropped, SlotStore, DeadStore, OnlyDropped;
    forall id: nat
      ensures ReadCount(H, id) <= ReadCount(F, id) && (AddressTaken(H, id) <==> AddressTaken(F, id))
    {
      CountsDrop(G, x, y, id);
    }
    forall b, i | InFunc(F, b, i)
      ensures OnlyDropped(F, H, b, i) && (Before(b, i, x, y + 1) || H[b][i] == F[b][i])
    {
      StillOnlyDropped(F, G, x, y, b, i);
    }
    forall b: nat, i: nat | DeadStore(F, b, i) && Before(b, i, x, y + 1) ensures H[b][i].op.Nop? {
      DropsHere(F, b, i);
      if b != x || i != y { assert Before(b, i, x, y); }
    }
  }

  /** A single dead variable: a frame slot, or a value. */
  function DeadOne(v: Var): Dead
  {
    if v.kind.Local? then Dead({}, {v}) else Dead({v}, {})
  }

  lemma UnreadSlot(F: Func, v: Var, b: nat, i: nat)
    requires FuncUnfused(F) && ReadCount(F, v.id) == 0 && InFunc(F, b, i)
    ensures v !in Reads(F[b][i])
  {
    if v in Reads(F[b][i]) {
      SlotReadsCoverReads(F[b][i], v);
      SumAtLeast(SlotReads(v.id), F, b, i);
    }
  }

  /** Dropping one dead store is invisible to every machine that keeps to the exposed slots. */
  lemma DropDeadStore(F: Func, b: nat, i: nat, exposed: set<nat>)
    requires WellShaped(F) && FuncUnfused(F) && Exposes(F, exposed) && DeadStore(F, b, i)
    ensures var G := Replace(F, b, i, Dropped(F[b][i]));
            && EquivalentBut(exposed, DeadOne(F[b][i].dst.v), F, G)
            && Equivalent(exposed, F, G) && WellShaped(G) && FuncUnfused(G) && Exposes(G, exposed)
  {
    var G := Replace(F, b, i, Dropped(F[b][i]));
    var v := F[b][i].dst.v;
    var d := DeadOne(v);
    forall M: Machine | Respects(M, exposed, F) ensures Pruned(M, d, F, G) && Private(M, d.slots) {
      NothingIsPrivate(M);
      forall x | 0 <= x < |F| ensures CodePruned(M, d, F[x], G[x]) {
        forall y | 0 <= y < |F[x]| ensures Kept(M, d, F[x][y], G[x][y]) {
          UnreadSlot(F, v, x, y);
        }
      }
    }
    PrunedIsEquivalent(exposed, F, G, d);
    ShapeKept(F, b, i, Dropped(F[b][i]));
    forall id | id in exposed ensures AddressTaken(G, id) {
      SumReplace(TakesAddress(id), F, b, i, Dropped(F[b][i]));
    }
  }

  lemma ShapeKept(F: Func, b: nat, i: nat, J: Instr)
    requires WellShaped(F) && InFunc(F, b, i)
    requires J.op.Nop? || (!J.op.Phi? && !F[b][i].op.Nop? && !F[b][i].op.Phi?)
    ensures WellShaped(Replace(F, b, i, J))
  {
    var G := Replace(F, b, i, J);
    forall x | 0 <= x < |G| ensures PhisFirst(G[x]) {
      assert PhisFirst(F[x]);
      forall p, q | 0 <= p < q < |G[x]| && G[x][q].op.Phi? ensures G[x][p].op.Phi? || G[x][p].op.Nop? {
        assert F[x][q].op.Phi?;
        assert F[x][p].op.Phi? || F[x][p].op.Nop?;
      }
    }
  }

  /** The operations irOptDeadCodeElim may delete: no memory access, no call, no division. */
  predicate DceSafe(op: Op)
  {
    match op
    case Lea => true
    case Arith(bin) => !Divides(bin)
    case ICmp(_) => true
    case Opaque(_) => true
    case _ => false
  }

  /** Whatever the machine, the instruction does no more than assign its temporary. */
  ghost predicate OnlyAssigns(M: Machine, I: Instr, s: State)
    requires I.dst.Ref?
  {
    && Step(M, I, s).Next? && Step(M, I, s).s.mem == s.mem && Step(M, I, s).s.log == s.log
    && forall v :: v != I.dst.v ==> Lookup(Step(M, I, s).s.temps, v) == Lookup(s.temps, v)
  }

  ghost predicate Harmless(op: Op)
  {
    forall M: Machine, I: Instr, s: State :: I.op == op && IsTmp(I.dst) && !Resident(M, I.dst.v) ==>
      OnlyAssigns(M, I, s)
  }

  /** Everything that is harmless to delete is deleted, but for plain copies, the marker of a buffer and phis. */
  lemma DceSafeIff(op: Op)
    ensures DceSafe(op) <==> Harmless(op) && !(op.Nop? || op.Alloca? || op.Phi? || op.Load? || op.Store?)
  {
    if !DceSafe(op) && !(op.Nop? || op.Alloca? || op.Phi? || op.Load? || op.Store?) {
      var M := Machine((a, m) => None, (a, w, m) => None, (f, t, ws, m) => None, v => 0, (c, a, b) => 0,
                       (n, w) => w, {});
      var I := NopInstr().(op := op, dst := Ref(Var(Tmp, 0), 8, None, false));
      var s := State(map[], Mem(map[], map[]), []);
      assert !OnlyAssigns(M, I, s);
    }
  }

  predicate DeadValue(F: Func, b: nat, i: nat)
  {
    && InFunc(F, b, i)
    && DceSafe(F[b][i].op) && IsTmp(F[b][i].dst) && UseCount(F, F[b][i].dst.v.id) == 0
  }

  lemma UnusedTmp(F: Func, v: Var, b: nat, i: nat)
    requires v.kind.Tmp? && UseCount(F, v.id) == 0 && InFunc(F, b, i)
    ensures v !in Reads(F[b][i])
  {
    if v in Reads(F[b][i]) {
      UsesCoverReads(F[b][i], v);
      SumAtLeast(TmpUses(v.id), F, b, i);
    }
  }

  lemma DeadValuePruned(M: Machine, F: Func, b: nat, i: nat)
    requires WellShaped(F) && DeadValue(F, b, i) && NoAllocaComputed(M, F)
    ensures Pruned(M, DeadOne(F[b][i].dst.v), F, Replace(F, b, i, NopInstr()))
  {
    var v, G := F[b][i].dst.v, Replace(F, b, i, NopInstr());
    assert !Resident(M, v);
    forall x | 0 <= x < |F| ensures CodePruned(M, DeadOne(v), F[x], G[x]) {
      forall y | 0 <= y < |F[x]| ensures Kept(M, DeadOne(v), F[x][y], G[x][y]) {
        UnusedTmp(F, v, x, y);
      }
    }
  }

  /** Deleting one unused pure value is invisible, whatever pointers can reach. */
  lemma DropDeadValue(F: Func, b: nat, i: nat, exposed: set<nat>)
    requires WellShaped(F) && DeadValue(F, b, i)
    ensures var G := Replace(F, b, i, NopInstr());
            && EquivalentBut(exposed, DeadOne(F[b][i].dst.v), F, G)
            && Equivalent(exposed, F, G) && WellShaped(G)
  {
    hide Pruned, Equivalent, EquivalentBut;
    var G, d := Replace(F, b, i, NopInstr()), DeadOne(F[b][i].dst.v);
    forall M: Machine | Respects(M, exposed, F) ensures Pruned(M, d, F, G) && Private(M, d.slots) {
      NothingIsPrivate(M);
      DeadValuePruned(M, F, b, i);
    }
    PrunedIsEquivalent(exposed, F, G, d);
    ShapeKept(F, b, i, NopInstr());
  }

  /** The same for one machine, with every surviving value and slot. */
  lemma DropDeadValueRun(M: Machine, F: Func, b: nat, i: nat, c: Config, n: nat)
    requires WellShaped(F) && DeadValue(F, b, i) && NoAllocaComputed(M, F)
    ensures SameConfig(DeadOne(F[b][i].dst.v), Run(M, F, c, n), Run(M, Replace(F, b, i, NopInstr()), c, n))
  {
    hide Pruned, SameConfig, Run;
    var d := DeadOne(F[b][i].dst.v);
    NothingIsPrivate(M);
    DeadValuePruned(M, F, b, i);
    SameConfigReflexive(d, c);
    RunPruned(M, d, F, Replace(F, b, i, NopInstr()), c, c, n);
  }

  /** Deleting instructions never creates uses, so counts taken before a sweep stay upper bounds. */
  lemma UsesOnlyShrink(F: Func, b: nat, i: nat, J: Instr, id: nat)
    requires InFunc(F, b, i) && J.op.Nop?
    ensures UseCount(Replace(F, b, i, J), id) <= UseCount(F, id)
  {
    SumReplace(TmpUses(id), F, b, i, J);
  }
}
