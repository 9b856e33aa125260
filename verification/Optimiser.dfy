/**
 The passes as they run: loops that overwrite the instructions of a function in place, and the two
 do-while loops of irBasicFunctionOptimisations. What one rewrite means is proved in the modules of the
 passes; here the loops are tied to it, and shown to end.
 */
module Optimiser {
  import opened Ir
  import opened Equivalence
  import opened DeadCode
  import opened Forward
  import opened ConstFold
  import opened Fixpoint
  import opened Fuse
  import opened FusionLoop
  import Ssa
  import opened RoundsKeep
  import opened Pipeline

  // ----- scans -----

  lemma {:induction false} SumCodeTail(f: Instr -> nat, c: Code, i: nat)
    requires i < |c|
    ensures SumCode(f, c[i..]) == f(c[i]) + SumCode(f, c[i + 1..])
  {
    assert c[i..][1..] == c[i + 1..];
  }

  lemma SumTail(f: Instr -> nat, F: Func, b: nat)
    requires b < |F|
    ensures Sum(f, F[b..]) == SumCode(f, F[b]) + Sum(f, F[b + 1..])
  {
    assert F[b..][1..] == F[b + 1..];
  }

  /** irSlotReadCount */
  method SlotReadCount(F: Func, id: nat) returns (n: nat)
    ensures n == ReadCount(F, id)
  {
    hide CountId, SlotOperands;
    n := 0;
    for b := 0 to |F|
      invariant n + Sum(SlotReads(id), F[b..]) == ReadCount(F, id)
    {
      SumTail(SlotReads(id), F, b);
      ghost var total := n + SumCode(SlotReads(id), F[b]);
      for i := 0 to |F[b]|
        invariant n + SumCode(SlotReads(id), F[b][i..]) == total
      {
        SumCodeTail(SlotReads(id), F[b], i);
        n := n + CountId(SlotOperands(F[b][i]), id);
      }
    }
  }

  /** irSlotHasAddressTaken */
  method SlotHasAddressTaken(F: Func, id: nat) returns (taken: bool)
    ensures taken <==> AddressTaken(F, id)
  {
    for b := 0 to |F|
      invariant Sum(TakesAddress(id), F[b..]) == Sum(TakesAddress(id), F)
    {
      SumTail(TakesAddress(id), F, b);
      for i := 0 to |F[b]|
        invariant SumCode(TakesAddress(id), F[b][i..]) == SumCode(TakesAddress(id), F[b])
      {
        SumCodeTail(TakesAddress(id), F[b], i);
        var I := F[b][i];
        if I.op.Lea? && !I.r1.Null? && !I.r1.Const? && VarId(I.r1) == id {
          SumAtLeast(TakesAddress(id), F, b, i);
          return true;
        }
      }
    }
    return false;
  }

  /** irBumpUse */
  method BumpUse(uses: Counts, o: Operand) returns (after: Counts)
    ensures forall id: nat :: CountOf(after, id) == CountOf(uses, id) + if IsTmp(o) && o.v.id == id then 1 else 0
  {
    after := uses;
    if IsTmp(o) {
      after := uses[o.v.id := CountOf(uses, o.v.id) + 1];
    }
  }

  method BumpAll(uses: Counts, os: seq<Operand>) returns (after: Counts)
    ensures forall id: nat :: CountOf(after, id) == CountOf(uses, id) + CountTmp(os, id)
  {
    after := uses;
    for i := 0 to |os|
      invariant forall id: nat :: CountOf(after, id) + CountTmp(os[i..], id) == CountOf(uses, id) + CountTmp(os, id)
    {
      assert os[i..][1..] == os[i + 1..];
      after := BumpUse(after, os[i]);
    }
  }

  /** irBuildTmpUseCounts */
  method BuildTmpUseCounts(F: Func) returns (uses: Counts)
    ensures forall id: nat :: CountOf(uses, id) == UseCount(F, id)
  {
    hide CountTmp, TmpOperands, CountOf;
    uses := map[];
    NothingCounted();
    for b := 0 to |F|
      invariant forall id: nat :: CountOf(uses, id) + Sum(TmpUses(id), F[b..]) == UseCount(F, id)
    {
      forall id: nat ensures Sum(TmpUses(id), F[b..]) == SumCode(TmpUses(id), F[b]) + Sum(TmpUses(id), F[b + 1..]) {
        SumTail(TmpUses(id), F, b);
      }
      ghost var before := uses;
      for i := 0 to |F[b]|
        invariant forall id: nat ::
                    CountOf(uses, id) + SumCode(TmpUses(id), F[b][i..]) ==
                    CountOf(before, id) + SumCode(TmpUses(id), F[b])
      {
        forall id: nat
          ensures SumCode(TmpUses(id), F[b][i..]) == TmpUses(id)(F[b][i]) + SumCode(TmpUses(id), F[b][i + 1..])
        {
          SumCodeTail(TmpUses(id), F[b], i);
        }
        uses := BumpAll(uses, TmpOperands(F[b][i]));
      }
    }
  }

  lemma NothingCounted()
    ensures forall id: nat :: CountOf(map[], id) == 0
  {
  }

  lemma EquivalentReflexive(exposed: set<nat>, F: Func)
    ensures Equivalent(exposed, F, F)
  {
    forall M: Machine, c: Config, n: nat | Respects(M, exposed, F) ensures SameObs(Run(M, F, c, n), Run(M, F, c, n)) {
      SameObsReflexive(Run(M, F, c, n));
    }
  }

  // ----- the function under optimisation -----

  /** What dead store elimination needs and keeps. */
  ghost predicate Storable(F: Func, exposed: set<nat>)
  {
    WellShaped(F) && FuncUnfused(F) && Exposes(F, exposed)
  }

  class IrFunction {
    var blocks: Func

    constructor (F: Func)
      ensures blocks == F
    {
      blocks := F;
    }

    /** irDeadStoreEliminate: every store that is dead at the start goes, and whatever goes is a dead store. */
    method DeadStoreEliminate(ghost exposed: set<nat>)
      requires Storable(blocks, exposed)
      modifies this
      ensures StoresDropped(old(blocks), blocks)
      ensures Equivalent(exposed, old(blocks), blocks) && Storable(blocks, exposed) && KeepsFusible(old(blocks), blocks)
    {
      hide Equivalent, Storable, KeepsFusible, DroppedTo, StoresDropped;
      EquivalentReflexive(exposed, blocks);
      KeepsFusibleItself(blocks);
      NothingDropped(blocks);
      for b := 0 to |blocks|
        invariant |blocks| == |old(blocks)| && KeepsFusible(old(blocks), blocks)
        invariant Equivalent(exposed, old(blocks), blocks) && Storable(blocks, exposed)
        invariant DroppedTo(old(blocks), blocks, b, 0)
      {
        var n := |blocks[b]|;
        DroppedShape(old(blocks), blocks, b, 0);
        for i := 0 to n
          invariant |blocks| == |old(blocks)| && |blocks[b]| == n && KeepsFusible(old(blocks), blocks)
          invariant Equivalent(exposed, old(blocks), blocks) && Storable(blocks, exposed)
          invariant DroppedTo(old(blocks), blocks, b, i)
        {
          DroppedShape(old(blocks), blocks, b, i);
          var I := blocks[b][i];
          var dead := false;
          if I.op.Store? && I.dst.Ref? && !I.dst.v.kind.Tmp? {
            var taken := SlotHasAddressTaken(blocks, I.dst.v.id);
            var count := SlotReadCount(blocks, I.dst.v.id);
            dead := !taken && count == 0;
          }
          if dead {
            OneStoreLess(old(blocks), blocks, b, i, exposed);
            OneMoreDropped(old(blocks), blocks, b, i);
            blocks := Replace(blocks, b, i, Dropped(I));
          } else {
            KeptIsAlive(old(blocks), blocks, b, i);
          }
        }
        NextBlock(old(blocks), blocks, b);
      }
      AllDropped(old(blocks), blocks);
    }

    /** irOptDeadCodeElim: sweeps with counts taken at the start of each sweep, until nothing is dead. */
    method DeadCodeElim(ghost exposed: set<nat>)
      requires WellShaped(blocks)
      modifies this
      ensures Equivalent(exposed, old(blocks), blocks) && WellShaped(blocks)
      ensures forall b: nat, i: nat :: !DeadValue(blocks, b, i)
    {
      hide Equivalent, WellShaped, CountOf, DeadValue, UseCount;
      EquivalentReflexive(exposed, blocks);
      var uses := BuildTmpUseCounts(blocks);
      var changed := true;
      while changed
        invariant Equivalent(exposed, old(blocks), blocks) && WellShaped(blocks)
        invariant forall id: nat :: CountOf(uses, id) == UseCount(blocks, id)
        invariant !changed ==> forall b: nat, i: nat :: !DeadValue(blocks, b, i)
        decreases Sum(Alive(), blocks), changed
      {
        ghost var start := blocks;
        changed := Sweep(uses, exposed);
        EquivalentTransitive(exposed, old(blocks), start, blocks);
        if changed {
          uses := BuildTmpUseCounts(blocks);
        }
      }
    }

    /** One sweep over all instructions. */
    method Sweep(uses: Counts, ghost exposed: set<nat>) returns (changed: bool)
      requires WellShaped(blocks) && forall id: nat :: CountOf(uses, id) == UseCount(blocks, id)
      modifies this
      ensures Equivalent(exposed, old(blocks), blocks) && WellShaped(blocks)
      ensures changed ==> Sum(Alive(), blocks) < old(Sum(Alive(), blocks))
      ensures !changed ==> blocks == old(blocks) && forall b: nat, i: nat :: !DeadValue(blocks, b, i)
    {
      hide Equivalent, WellShaped, CountOf, UseCount, Sum;
      EquivalentReflexive(exposed, blocks);
      changed := false;
      for b := 0 to |blocks|
        invariant |blocks| == |old(blocks)|
        invariant Equivalent(exposed, old(blocks), blocks) && WellShaped(blocks)
        invariant forall id: nat :: UseCount(blocks, id) <= CountOf(uses, id)
        invariant if changed then Sum(Alive(), blocks) < old(Sum(Alive(), blocks)) else blocks == old(blocks)
        invariant !changed ==> forall x: nat, y: nat :: x < b ==> !DeadValue(blocks, x, y)
      {
        var n := |blocks[b]|;
        for i := 0 to n
          invariant |blocks| == |old(blocks)| && |blocks[b]| == n
          invariant Equivalent(exposed, old(blocks), blocks) && WellShaped(blocks)
          invariant forall id: nat :: UseCount(blocks, id) <= CountOf(uses, id)
          invariant if changed then Sum(Alive(), blocks) < old(Sum(Alive(), blocks)) else blocks == old(blocks)
          invariant !changed ==> forall x: nat, y: nat :: x < b || (x == b && y < i) ==> !DeadValue(blocks, x, y)
        {
          var I := blocks[b][i];
          if DceSafe(I.op) && IsTmp(I.dst) && CountOf(uses, I.dst.v.id) == 0 {
            OneValueLess(old(blocks), blocks, b, i, exposed);
            blocks := Replace(blocks, b, i, NopInstr());
            changed := true;
          }
        }
      }
    }

    /** irForwardStoreToReads */
    method ForwardStoreToReads(p: Pool) returns (changed: bool)
      modifies this
      ensures blocks == ForwardFunc(p, old(blocks)) && (changed <==> !QuietFunc(p, old(blocks)))
    {
      hide ForwardCode, QuietCode;
      changed := false;
      var b := 0;
      while b < |blocks|
        invariant 0 <= b <= |blocks| == |old(blocks)|
        invariant forall x :: 0 <= x < b ==> blocks[x] == ForwardCode(p, old(blocks)[x], [])
        invariant forall x :: b <= x < |blocks| ==> blocks[x] == old(blocks)[x]
        invariant !changed <==> forall x :: 0 <= x < b ==> QuietCode(p, old(blocks)[x], [])
      {
        var code, more := ForwardBlock(p, blocks[b]);
        blocks := blocks[b := code];
        changed := changed || more;
        b := b + 1;
      }
    }

    /** irEvalConstantExpressions: one resolver for the whole function. */
    method EvalConstantExpressions() returns (changed: bool)
      modifies this
      ensures blocks == Fold(old(blocks)) && (changed <==> FoldChanges(old(blocks)))
    {
      hide Rho, FoldStep, Decide, ResolveInstr, FoldsAt;
      changed := false;
      var resolver: Resolver := map[];
      RhoStart(blocks);
      for b := 0 to |blocks|
        invariant |blocks| == |old(blocks)| && resolver == Rho(old(blocks), b, 0)
        invariant forall x :: 0 <= x < b ==> blocks[x] == Fold(old(blocks))[x]
        invariant forall x :: b <= x < |blocks| ==> blocks[x] == old(blocks)[x]
        invariant !changed <==> forall x, y :: 0 <= x < b && InFunc(old(blocks), x, y) ==> !FoldsAt(old(blocks), x, y)
      {
        var code, more;
        code, resolver, more := EvalBlock(blocks[b], resolver, old(blocks), b);
        blocks := blocks[b := code];
        changed := changed || more;
        RhoAcross(old(blocks), b);
      }
    }

    /**
     The first do-while loop of irBasicFunctionOptimisations. It ends for every function, ends where neither pass
     finds anything to change, and leaves every run of an optimisable function as it was.
     */
    method FoldAndForward(p: Pool) returns (ghost rounds: nat)
      requires LostStaysLost(p) && FuncNamed(blocks)
      modifies this
      ensures blocks == Rounds(p, old(blocks), rounds) && RoundsKept(p, old(blocks), rounds) && FuncNamed(blocks)
      ensures !FoldChanges(blocks) && QuietFunc(p, blocks) && Fold(blocks) == blocks && ForwardFunc(p, blocks) == blocks
    {
      hide QuietFunc, ForwardFunc, FuncNamed, LostStaysLost, FoldChanges, Fold, FuncAgain, Rounds, RoundsKept;
      rounds := 0;
      RoundsNone(p, blocks);
      var again := true;
      ghost var wait := ForwardingSettles(p, blocks);
      while again
        invariant FuncNamed(blocks) && blocks == Rounds(p, old(blocks), rounds)
        invariant QuietFunc(p, FuncAgain(p, blocks, wait))
        invariant !again ==> !FoldChanges(blocks) && QuietFunc(p, blocks)
        decreases Sum(FoldCost(), blocks), wait, again
      {
        ghost var F := blocks;
        var folded := EvalConstantExpressions();
        ghost var G := blocks;
        var forwarded := ForwardStoreToReads(p);
        again := folded || forwarded;
        RoundNamed(p, F);
        RoundNext(p, old(blocks), rounds);
        rounds := rounds + 1;
        ForwardCosts(p, G);
        FoldPays(F);
        if folded {
          wait := ForwardingSettles(p, blocks);
        } else if forwarded {
          StillWaiting(p, F, wait);
          wait := wait - 1;
        } else {
          QuietFuncUnchanged(p, G);
        }
      }
      FoldPays(blocks);
      QuietFuncUnchanged(p, blocks);
      RoundsAreKept(p, old(blocks), rounds);
    }

    method Rewrite(p: Pool, w: FusionLoop.Rewrite)
      requires Applies(p, blocks, w)
      modifies this
      ensures blocks == Rewritten(p, old(blocks), w)
    {
      match w {
        case Disp(b, i) => blocks := FoldDisp(blocks, b, i);
        case Scale(b, i, x, y, right) => blocks := FoldScale(blocks, b, i, x, y, right);
        case Rmw(b, l, m, n, left) => blocks := FoldRmw(blocks, b, l, m, n, left);
      }
    }

    /** irFuseIaddIntoMemAddressing, with the use counts of its start. */
    method FuseIaddIntoMemAddressing(p: Pool) returns (changed: bool, ghost Fs: seq<Func>, ghost ws: seq<Rewrite>)
      modifies this
      ensures Leads(p, old(blocks), blocks, Fs, ws) && Preserved(old(blocks), blocks) && (changed <==> ws != [])
      ensures !changed ==> blocks == old(blocks)
      ensures !changed ==> forall w: Rewrite :: !w.Rmw? && Applies(p, blocks, w) ==> PassedOver(p, blocks, w)
    {
      hide Applies, Licensed, Chain, Rewritten, UseCount, CountOf, PassedOver, Preserved;
      var uses := BuildTmpUseCounts(blocks);
      changed, Fs, ws := false, [blocks], [];
      LeadsNowhere(p, blocks);
      for b := 0 to |blocks|
        invariant Leads(p, old(blocks), blocks, Fs, ws) && (changed <==> ws != [])
        invariant !changed ==> blocks == old(blocks)
        invariant !changed ==> forall w: Rewrite :: !w.Rmw? && Earlier(w, b, 0) ==> !Licensed(p, uses, blocks, w)
      {
        var n := |blocks[b]|;
        for i := 0 to n
          invariant Leads(p, old(blocks), blocks, Fs, ws) && (changed <==> ws != [])
          invariant !changed ==> blocks == old(blocks)
          invariant |blocks[b]| == n
          invariant !changed ==> forall w: Rewrite :: !w.Rmw? && Earlier(w, b, i) ==> !Licensed(p, uses, blocks, w)
        {
          var w := FindAddressFold(p, uses, blocks, b, i);
          if w.Some? {
            LicensedApplies(p, uses, blocks, w.value);
            LeadsOn(p, old(blocks), blocks, Fs, ws, w.value);
            Rewrite(p, w.value);
            Fs, ws := Fs + [blocks], ws + [w.value];
            changed := true;
          }
        }
        LicensedInside(p, uses, blocks);
      }
      LicensedInside(p, uses, blocks);
      if !changed { AllElsePassedOver(p, uses, blocks); }
      LeadsPreserve(p, old(blocks), blocks, Fs, ws);
    }

    /** irFuseLoadOpStore, with the use counts of its start. */
    method FuseLoadOpStore(p: Pool) returns (changed: bool, ghost Fs: seq<Func>, ghost ws: seq<Rewrite>)
      modifies this
      ensures Leads(p, old(blocks), blocks, Fs, ws) && Preserved(old(blocks), blocks) && (changed <==> ws != [])
      ensures !changed ==> blocks == old(blocks)
      ensures !changed ==> forall w: Rewrite :: w.Rmw? && Applies(p, blocks, w) ==> PassedOver(p, blocks, w)
    {
      hide Applies, Licensed, Chain, Rewritten, UseCount, CountOf, PassedOver, Preserved;
      var uses := BuildTmpUseCounts(blocks);
      changed, Fs, ws := false, [blocks], [];
      LeadsNowhere(p, blocks);
      for b := 0 to |blocks|
        invariant Leads(p, old(blocks), blocks, Fs, ws) && (changed <==> ws != [])
        invariant !changed ==> blocks == old(blocks)
        invariant !changed ==> forall w: Rewrite :: w.Rmw? && Earlier(w, b, 0) ==> !Licensed(p, uses, blocks, w)
      {
        var n := |blocks[b]|;
        for i := 0 to n
          invariant Leads(p, old(blocks), blocks, Fs, ws) && (changed <==> ws != [])
          invariant !changed ==> blocks == old(blocks)
          invariant |blocks[b]| == n
          invariant !changed ==> forall w: Rewrite :: w.Rmw? && Earlier(w, b, i) ==> !Licensed(p, uses, blocks, w)
        {
          var w := FindRmw(p, uses, blocks, b, i);
          if w.Some? {
            LicensedApplies(p, uses, blocks, w.value);
            LeadsOn(p, old(blocks), blocks, Fs, ws, w.value);
            Rewrite(p, w.value);
            Fs, ws := Fs + [blocks], ws + [w.value];
            changed := true;
          }
        }
        LicensedInside(p, uses, blocks);
      }
      LicensedInside(p, uses, blocks);
      if !changed { AllElsePassedOver(p, uses, blocks); }
      LeadsPreserve(p, old(blocks), blocks, Fs, ws);
    }

    /** The second do-while loop of irBasicFunctionOptimisations: it ends, with no rewrite left that a sweep would
        take, and with every run of a certified function as it was. */
    method FuseAll(p: Pool) returns (ghost Fs: seq<Func>, ghost ws: seq<Rewrite>)
      modifies this
      ensures Leads(p, old(blocks), blocks, Fs, ws) && Preserved(old(blocks), blocks)
      ensures forall w: Rewrite :: Applies(p, blocks, w) ==> PassedOver(p, blocks, w)
    {
      hide Leads, Sum, Preserved, PassedOver, Applies;
      Fs, ws := [blocks], [];
      LeadsNowhere(p, blocks);
      var again := true;
      while again
        invariant Leads(p, old(blocks), blocks, Fs, ws)
        invariant !again ==> forall w: Rewrite :: Applies(p, blocks, w) ==> PassedOver(p, blocks, w)
        decreases Sum(Alive(), blocks), again
      {
        ghost var start := blocks;
        var one, Fs1, ws1 := FuseIaddIntoMemAddressing(p);
        LeadsFar(p, old(blocks), start, blocks, Fs, ws, Fs1, ws1);
        ghost var middle := blocks;
        var two, Fs2, ws2 := FuseLoadOpStore(p);
        Fs, ws := Fs + Fs1[1..], ws + ws1;
        LeadsFar(p, old(blocks), middle, blocks, Fs, ws, Fs2, ws2);
        Fs, ws := Fs + Fs2[1..], ws + ws2;
        LeadsShrink(p, start, middle, Fs1, ws1);
        LeadsShrink(p, middle, blocks, Fs2, ws2);
        again := one || two;
      }
      LeadsPreserve(p, old(blocks), blocks, Fs, ws);
    }

    /** irBasicFunctionOptimisations from its folding loop on. The rounds end in G, where neither pass finds anything to
        change; H is G without its dead stores; fusion leads from H to what no sweep would change. One condition on the
        function it starts from makes the whole sequence invisible. */
    method Optimise(p: Pool, ghost exposed: set<nat>, ghost cert: Ssa.Cert)
      returns (ghost rounds: nat, ghost G: Func, ghost H: Func, ghost Fs: seq<Func>, ghost ws: seq<Rewrite>)
      requires LostStaysLost(p) && Optimisable(cert, blocks) && Exposes(blocks, exposed)
      modifies this
      ensures Invisible(exposed, cert, old(blocks), blocks)
      ensures G == Rounds(p, old(blocks), rounds) && !FoldChanges(G) && QuietFunc(p, G)
      ensures StoresDropped(G, H) && Leads(p, H, blocks, Fs, ws)
      ensures forall w: Rewrite :: Applies(p, blocks, w) ==> PassedOver(p, blocks, w)
    {
      hide Optimisable, FuncNamed, LostStaysLost, Exposes, RoundsKept, Rounds, Equivalent, KeepsFusible, Preserved;
      hide Leads, Applies, PassedOver, Invisible, FoldChanges, QuietFunc, Fold, ForwardFunc, WellShaped, FuncUnfused;
      hide StoresDropped;
      OptimisableIsNamed(cert, blocks);
      rounds := FoldAndForward(p);
      G := blocks;
      RoundsStorable(p, exposed, cert, old(blocks), rounds);
      DeadStoreEliminate(exposed);
      H := blocks;
      Fs, ws := FuseAll(p);
      SequenceInvisible(p, exposed, cert, old(blocks), rounds, G, H, blocks);
    }
  }

  // ----- one block of forwarding -----

  /** All entries, one after the other; says whether any of them changed the instruction. */
  method RewriteWith(p: Pool, I: Instr, t: seq<Entry>) returns (J: Instr, changed: bool)
    ensures J == RewriteAll(p, I, t) && (changed <==> !Quiet(p, I, t))
  {
    hide RewriteOperands;
    J, changed := I, false;
    var j := 0;
    while j < |t|
      invariant 0 <= j <= |t| && RewriteAll(p, J, t[j..]) == RewriteAll(p, I, t)
      invariant changed ==> !Quiet(p, I, t)
      invariant !changed ==> J == I && forall k :: 0 <= k < j ==> RewriteOperands(p, I, t[k]) == I
    {
      var K := RewriteOperands(p, J, t[j]);
      assert t[j] in t && t[j..][1..] == t[j + 1..];
      if K != J { changed := true; }
      J := K;
      j := j + 1;
    }
  }

  method ForwardBlock(p: Pool, code: Code) returns (out: Code, changed: bool)
    ensures out == ForwardCode(p, code, []) && (changed <==> !QuietCode(p, code, []))
  {
    hide RewriteAll, Track, Quiet, ForwardCode, QuietCode;
    out, changed := [], false;
    var t: seq<Entry> := [];
    for i := 0 to |code|
      invariant out + ForwardCode(p, code[i..], t) == ForwardCode(p, code, [])
      invariant if changed then !QuietCode(p, code, []) else QuietCode(p, code, []) <==> QuietCode(p, code[i..], t)
    {
      OneOn(p, code, i, t);
      if code[i].op.Nop? {
        out := out + [code[i]];
      } else {
        var J, more := RewriteWith(p, code[i], t);
        if !more { QuietUnchanged(p, code[i], t); }
        out := out + [J];
        t := Track(p, J, t);
        changed := changed || more;
      }
    }
    NothingLeft(p, t);
  }

  /** How the pass goes on from position i. */
  lemma OneOn(p: Pool, code: Code, i: nat, t: seq<Entry>)
    requires i < |code|
    ensures code[i].op.Nop? ==>
              && ForwardCode(p, code[i..], t) == [code[i]] + ForwardCode(p, code[i + 1..], t)
              && (QuietCode(p, code[i..], t) <==> QuietCode(p, code[i + 1..], t))
    ensures !code[i].op.Nop? ==>
              var J := RewriteAll(p, code[i], t);
              && ForwardCode(p, code[i..], t) == [J] + ForwardCode(p, code[i + 1..], Track(p, J, t))
              && (QuietCode(p, code[i..], t) <==>
                  Quiet(p, code[i], t) && QuietCode(p, code[i + 1..], Track(p, code[i], t)))
  {
    hide RewriteAll, Track, Quiet;
    assert code[i..][0] == code[i] && code[i..][1..] == code[i + 1..];
  }

  lemma NothingLeft(p: Pool, t: seq<Entry>)
    ensures ForwardCode(p, [], t) == [] && QuietCode(p, [], t)
  {
  }

  // ----- folding -----

  /** irEvalBlock, on block b of F with the resolver it has reached. */
  method EvalBlock(code: Code, rho: Resolver, ghost F: Func, ghost b: nat)
    returns (out: Code, resolver: Resolver, changed: bool)
    requires b < |F| && F[b] == code && rho == Rho(F, b, 0)
    ensures out == Fold(F)[b] && resolver == Rho(F, b, |code|)
    ensures !changed <==> forall y :: 0 <= y < |code| ==> !FoldsAt(F, b, y)
  {
    hide Rho, FoldStep, Decide, ResolveInstr, FoldsAt;
    out, resolver, changed := code, rho, false;
    for i := 0 to |code|
      invariant |out| == |code| && resolver == Rho(F, b, i)
      invariant forall y :: 0 <= y < i ==> out[y] == Fold(F)[b][y]
      invariant forall y :: i <= y < |code| ==> out[y] == code[y]
      invariant !changed <==> forall y :: 0 <= y < i ==> !FoldsAt(F, b, y)
    {
      assert InFunc(F, b, i);
      RhoNext(F, b, i);
      if Decide(ResolveInstr(resolver, out[i])) != Same { changed := true; }
      var step := FoldStep(resolver, out[i]);
      out := out[i := step.0];
      resolver := step.1;
    }
  }

  predicate FoldsAt(F: Func, b: int, i: int)
    requires InFunc(F, b, i)
  {
    Decide(ResolveInstr(Rho(F, b, i), F[b][i])) != Same
  }

  /** The pass counts a change somewhere. */
  ghost predicate FoldChanges(F: Func)
  {
    exists b, i :: InFunc(F, b, i) && FoldsAt(F, b, i)
  }

  lemma RhoStart(F: Func)
    ensures Position(F, 0, 0) && Rho(F, 0, 0) == map[]
  {
  }

  lemma RhoNext(F: Func, b: nat, i: nat)
    requires InFunc(F, b, i)
    ensures Position(F, b, i) && Position(F, b, i + 1)
    ensures Rho(F, b, i + 1) == FoldStep(Rho(F, b, i), F[b][i]).1
    ensures Fold(F)[b][i] == FoldStep(Rho(F, b, i), F[b][i]).0
    ensures FoldsAt(F, b, i) <==> Decide(ResolveInstr(Rho(F, b, i), F[b][i])) != Same
  {
  }

  lemma RhoAcross(F: Func, b: nat)
    requires b < |F|
    ensures Position(F, b + 1, 0) && Position(F, b, |F[b]|) && Rho(F, b + 1, 0) == Rho(F, b, |F[b]|)
  {
  }

  /** What an instruction is worth to the folder: a multiplication may first become a shift. */
  function FoldCost(): Instr -> nat
  {
    (I: Instr) =>
      match I.op
      case Arith(op) => if op.IMul? then 3 else 2
      case ICmp(_) => 2
      case _ => 0
  }

  predicate SameShape(F: Func, G: Func)
  {
    |F| == |G| && forall b :: 0 <= b < |F| ==> |F[b]| == |G[b]|
  }

  lemma {:induction false} SumCodePointwise(f: Instr -> nat, c: Code, d: Code)
    requires |c| == |d| && forall i :: 0 <= i < |c| ==> f(d[i]) <= f(c[i])
    ensures SumCode(f, d) <= SumCode(f, c)
    ensures (exists i :: 0 <= i < |c| && f(d[i]) < f(c[i])) ==> SumCode(f, d) < SumCode(f, c)
    decreases |c|
  {
    if c != [] {
      SumCodePointwise(f, c[1..], d[1..]);
      if i :| 0 <= i < |c| && f(d[i]) < f(c[i]) {
        if i > 0 { assert f(d[1..][i - 1]) < f(c[1..][i - 1]); }
      }
    }
  }

  lemma {:induction false} SumPointwise(f: Instr -> nat, F: Func, G: Func)
    requires SameShape(F, G) && forall b, i :: InFunc(F, b, i) ==> f(G[b][i]) <= f(F[b][i])
    ensures Sum(f, G) <= Sum(f, F)
    ensures (exists b, i :: InFunc(F, b, i) && f(G[b][i]) < f(F[b][i])) ==> Sum(f, G) < Sum(f, F)
    decreases |F|
  {
    if F != [] {
      forall i | 0 <= i < |F[0]| ensures f(G[0][i]) <= f(F[0][i]) {
        assert InFunc(F, 0, i);
      }
      SumCodePointwise(f, F[0], G[0]);
      forall b, i | InFunc(F[1..], b, i) ensures f(G[1..][b][i]) <= f(F[1..][b][i]) {
        assert InFunc(F, b + 1, i);
      }
      SumPointwise(f, F[1..], G[1..]);
      if b, i :| InFunc(F, b, i) && f(G[b][i]) < f(F[b][i]) {
        if b > 0 { assert InFunc(F[1..], b - 1, i) && f(G[1..][b - 1][i]) < f(F[1..][b - 1][i]); }
      }
    }
  }

  /** Folding one instruction is paid for; a kept instruction keeps its cost. */
  lemma FoldStepPays(rho: Resolver, I: Instr)
    ensures var v := Decide(ResolveInstr(rho, I));
            if v != Same then FoldCost()(FoldStep(rho, I).0) < FoldCost()(I)
            else FoldCost()(FoldStep(rho, I).0) == FoldCost()(I) && FoldStep(rho, I).1 == rho
  {
  }

  /** A pass that counts a change lowers the cost; one that counts none changes nothing. */
  lemma FoldPays(F: Func)
    ensures FoldChanges(F) ==> Sum(FoldCost(), Fold(F)) < Sum(FoldCost(), F)
    ensures !FoldChanges(F) ==> Fold(F) == F
  {
    hide Rho, FoldStep, Decide, ResolveInstr, FoldCost, Sum;
    var G := Fold(F);
    forall b, i | InFunc(F, b, i)
      ensures FoldCost()(G[b][i]) <= FoldCost()(F[b][i])
      ensures FoldsAt(F, b, i) ==> FoldCost()(G[b][i]) < FoldCost()(F[b][i])
    {
      FoldStepPays(Rho(F, b, i), F[b][i]);
    }
    SumPointwise(FoldCost(), F, G);
    if !FoldChanges(F) {
      forall b | 0 <= b < |F| ensures G[b] == F[b] {
        forall i | 0 <= i < |F[b]| ensures G[b][i] == F[b][i] {
          StillEmpty(F, b, i);
          assert InFunc(F, b, i) && !FoldsAt(F, b, i);
          NothingToFold(F[b][i]);
        }
      }
    }
  }

  /** Without a change the resolver stays empty. */
  lemma {:induction false} StillEmpty(F: Func, b: nat, i: nat)
    requires Position(F, b, i) && !FoldChanges(F)
    ensures Rho(F, b, i) == map[]
    decreases b, i
  {
    hide Decide, ResolveInstr, FoldStep;
    if i > 0 {
      StillEmpty(F, b, i - 1);
      assert InFunc(F, b, i - 1) && !FoldsAt(F, b, i - 1);
      FoldStepPays(Rho(F, b, i - 1), F[b][i - 1]);
    } else if b > 0 {
      StillEmpty(F, b - 1, |F[b - 1]|);
    }
  }

  lemma NothingToFold(I: Instr)
    ensures ResolveInstr(map[], I) == I
    ensures Decide(ResolveInstr(map[], I)) == Same ==> FoldStep(map[], I).0 == I
  {
    assert ResolveArgs(map[], I.args) == I.args;
    assert ResolvePairs(map[], I.pairs) == I.pairs;
  }

  lemma ForwardCosts(p: Pool, F: Func)
    ensures Sum(FoldCost(), ForwardFunc(p, F)) == Sum(FoldCost(), F)
  {
    hide Sum, ForwardCode, FoldCost;
    var G := ForwardFunc(p, F);
    forall b, i | InFunc(F, b, i) ensures FoldCost()(G[b][i]) == FoldCost()(F[b][i]) {
      ForwardOps(p, F[b], [], i);
      CostByOp(F[b][i], G[b][i]);
    }
    SumPointwise(FoldCost(), F, G);
    assert forall b, i :: InFunc(G, b, i) ==> InFunc(F, b, i);
    SumPointwise(FoldCost(), G, F);
  }

  lemma CostByOp(I: Instr, J: Instr)
    requires I.op == J.op
    ensures FoldCost()(I) == FoldCost()(J)
  {
  }

  lemma {:induction false} ForwardOps(p: Pool, code: Code, t: seq<Entry>, i: nat)
    requires i < |code|
    ensures ForwardCode(p, code, t)[i].op == code[i].op
    decreases |code|
  {
    hide RewriteAll, Track;
    RewriteAllKeepsOp(p, code[0], t);
    if i > 0 {
      ForwardOps(p, code[1..], if code[0].op.Nop? then t else Track(p, RewriteAll(p, code[0], t), t), i - 1);
    }
  }

  // ----- rounds -----

  lemma RoundNamed(p: Pool, F: Func)
    requires FuncNamed(F)
    ensures FuncNamed(ForwardFunc(p, Fold(F)))
  {
    FoldNamed(F);
    FuncNamedKept(p, Fold(F));
  }

  lemma FoldNamed(F: Func)
    requires FuncNamed(F)
    ensures FuncNamed(Fold(F))
  {
    hide Rho, FoldStep;
    forall b | 0 <= b < |F| ensures NamedStores(Fold(F)[b]) {
      forall i | 0 <= i < |F[b]| ensures NamesItsSlot(Fold(F)[b][i]) {
        assert InFunc(F, b, i) && NamesItsSlot(F[b][i]);
        StepNamed(Rho(F, b, i), F[b][i]);
      }
    }
  }

  lemma StepNamed(rho: Resolver, I: Instr)
    requires NamesItsSlot(I)
    ensures NamesItsSlot(FoldStep(rho, I).0)
  {
  }

  /** Nothing folded but something forwarded: one pass of waiting is used up. */
  lemma StillWaiting(p: Pool, F: Func, wait: nat)
    requires QuietFunc(p, FuncAgain(p, F, wait)) && !FoldChanges(F) && !QuietFunc(p, Fold(F))
    ensures wait > 0 && QuietFunc(p, FuncAgain(p, ForwardFunc(p, Fold(F)), wait - 1))
  {
    hide QuietFunc, ForwardFunc, FoldChanges, Fold;
    FoldPays(F);
    if wait > 0 { FuncAgainShift(p, F, wait - 1); }
  }

  lemma DroppedShape(F: Func, G: Func, x: nat, y: nat)
    requires DroppedTo(F, G, x, y)
    ensures SameShape(F, G)
  {
  }

  lemma OneStoreLess(F0: Func, F: Func, b: nat, i: nat, exposed: set<nat>)
    requires Equivalent(exposed, F0, F) && Storable(F, exposed) && DeadStore(F, b, i)
    requires KeepsFusible(F0, F)
    ensures var G := Replace(F, b, i, Dropped(F[b][i]));
            Equivalent(exposed, F0, G) && Storable(G, exposed) && KeepsFusible(F0, G)
  {
    hide Equivalent, Exposes, DeadStore, KeepsFusible;
    assert InFunc(F, b, i) by { DeadStoreInside(F, b, i); }
    DropDeadStore(F, b, i, exposed);
    EquivalentTransitive(exposed, F0, F, Replace(F, b, i, Dropped(F[b][i])));
    StoreDropKeepsFusible(F, b, i);
    KeepsFusibleTransitive(F0, F, Replace(F, b, i, Dropped(F[b][i])));
  }

  lemma DeadStoreInside(F: Func, b: nat, i: nat)
    requires DeadStore(F, b, i)
    ensures InFunc(F, b, i)
  {
  }

  lemma OneValueLess(F0: Func, F: Func, b: nat, i: nat, exposed: set<nat>)
    requires Equivalent(exposed, F0, F) && WellShaped(F) && DeadValue(F, b, i)
    ensures InFunc(F, b, i)
    ensures var G := Replace(F, b, i, NopInstr());
            && Equivalent(exposed, F0, G) && WellShaped(G) && Sum(Alive(), G) < Sum(Alive(), F)
            && forall id: nat :: UseCount(G, id) <= UseCount(F, id)
  {
    hide Equivalent, WellShaped, UseCount, Sum;
    var G := Replace(F, b, i, NopInstr());
    DropDeadValue(F, b, i, exposed);
    EquivalentTransitive(exposed, F0, F, G);
    DeletingShrinks(F, b, i, NopInstr());
    forall id: nat ensures UseCount(G, id) <= UseCount(F, id) {
      UsesOnlyShrink(F, b, i, NopInstr(), id);
    }
  }
}
