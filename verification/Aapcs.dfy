/**
 Where the procedure call standard puts arguments (section 6.8.2 of AAPCS64), said without counters: from where the
 earlier arguments are. General and vector registers are two files. An argument takes the lowest registers of its file
 that no earlier one has, unless they do not suffice or an earlier argument of the file went to the stack, for then the
 file is closed; on the stack each argument lies above the one before.
 */
module Aapcs {
  import opened CallLowering
  import opened Regions

  /** Does it go to vector registers? */
  function FileOf(p: Param): bool
  {
    match p.cls
    case Scalar(isFloat) => isFloat
    case Hfa(_, _) => true
    case Integer => false
    case Indirect => false
  }

  /** n registers of eight bytes hold `size` bytes, and no fewer do. */
  predicate Holding(n: nat, size: nat)
  {
    size <= 8 * n && (n > 0 ==> 8 * (n - 1) < size)
  }

  /** The registers it wants: one for a scalar or a pointer, one per element, or as many words as it has. */
  predicate Wants(p: Param, n: nat)
  {
    match p.cls
    case Scalar(_) => n == 1
    case Hfa(_, count) => n == count
    case Integer => Holding(n, p.size)
    case Indirect => n == 1
  }

  function PlaceOf(ps: seq<Param>, i: nat, base: nat): Placement
    requires i < |ps|
  {
    Place(Cursors(ps, i), ps[i], base)
  }

  predicate InRegisters(pl: Placement)
  {
    pl.Regs? || pl.PtrReg?
  }

  predicate HasReg(pl: Placement, isFp: bool, r: int)
  {
    match pl
    case Regs(f, first, _, count) => f == isFp && first <= r < first + count
    case PtrReg(reg, _) => !isFp && r == reg
    case _ => false
  }

  predicate TakenBefore(ps: seq<Param>, n: nat, isFp: bool, r: int)
    requires n <= |ps|
  {
    exists j :: 0 <= j < n && HasReg(PlaceOf(ps, j, 0), isFp, r)
  }

  /** An earlier argument of the file has gone to the stack. */
  predicate Closed(ps: seq<Param>, n: nat, isFp: bool)
    requires n <= |ps|
  {
    exists j :: 0 <= j < n && FileOf(ps[j]) == isFp && !InRegisters(PlaceOf(ps, j, 0))
  }

  /** The bytes an argument that is not in registers has on the stack. */
  function StackBytes(p: Param): nat
  {
    if p.cls.Hfa? || p.cls.Integer? then Round8(p.size) else 8
  }

  function StackUsed(ps: seq<Param>, n: nat): nat
    requires n <= |ps|
  {
    if n == 0 then 0
    else StackUsed(ps, n - 1) + if InRegisters(PlaceOf(ps, n - 1, 0)) then 0 else StackBytes(ps[n - 1])
  }

  /** The bytes of the copies passed by reference. */
  function CopyUsed(ps: seq<Param>, n: nat): nat
    requires n <= |ps|
  {
    if n == 0 then 0 else CopyUsed(ps, n - 1) + if ps[n - 1].cls.Indirect? then Round16(ps[n - 1].size) else 0
  }

  function Next(c: Cursor, isFp: bool): nat
  {
    if isFp then c.s else c.g
  }

  // ----- the counters, from what has been placed -----

  lemma PlacesAlike(c: Cursor, p: Param, base: nat, isFp: bool, r: int)
    ensures InRegisters(Place(c, p, base)) <==> InRegisters(Place(c, p, 0))
    ensures HasReg(Place(c, p, base), isFp, r) <==> HasReg(Place(c, p, 0), isFp, r)
  {
  }

  /** One step: an open file hands out its next registers, or closes. */
  lemma Handed(c: Cursor, p: Param, isFp: bool)
    requires InRange(c)
    ensures var d, pl := Advance(c, p), Place(c, p, 0);
            && (FileOf(p) == isFp && !InRegisters(pl) ==> Next(d, isFp) == 8)
            && (FileOf(p) != isFp || !InRegisters(pl) ==> forall r: int :: !HasReg(pl, isFp, r))
            && (FileOf(p) != isFp ==> Next(d, isFp) == Next(c, isFp))
            && (FileOf(p) == isFp && InRegisters(pl) ==>
                  forall r: int :: HasReg(pl, isFp, r) <==> Next(c, isFp) <= r < Next(d, isFp))
            && Next(c, isFp) <= Next(d, isFp) <= 8
            && d.nsaa == c.nsaa + (if InRegisters(pl) then 0 else StackBytes(p))
            && d.copy == c.copy + (if p.cls.Indirect? then Round16(p.size) else 0)
  {
    hide Words, Round8, Round16;
  }

  lemma ClosedStep(ps: seq<Param>, n: nat, isFp: bool)
    requires n < |ps|
    ensures Closed(ps, n + 1, isFp) <==>
              Closed(ps, n, isFp) || (FileOf(ps[n]) == isFp && !InRegisters(PlaceOf(ps, n, 0)))
  {
    hide FileOf, PlaceOf, InRegisters;
  }

  lemma TakenStep(ps: seq<Param>, n: nat, isFp: bool, r: int)
    requires n < |ps|
    ensures TakenBefore(ps, n + 1, isFp, r) <==> TakenBefore(ps, n, isFp, r) || HasReg(PlaceOf(ps, n, 0), isFp, r)
  {
    hide PlaceOf, HasReg;
  }

  /** The counter of a closed file is at its end, that of an open one at its first free register. */
  ghost predicate CounterMeans(ps: seq<Param>, n: nat, isFp: bool)
    requires n <= |ps|
  {
    if Closed(ps, n, isFp) then Next(Cursors(ps, n), isFp) == 8 else FreeFrom(ps, n, isFp, Next(Cursors(ps, n), isFp))
  }

  /** Registers from `first` on, and nothing below, are free in the file. */
  ghost predicate FreeFrom(ps: seq<Param>, n: nat, isFp: bool, first: nat)
    requires n <= |ps|
  {
    forall r: int :: TakenBefore(ps, n, isFp, r) <==> 0 <= r < first
  }

  lemma OpenStep(ps: seq<Param>, n: nat, isFp: bool, first: nat, next: nat)
    requires n < |ps| && FreeFrom(ps, n, isFp, first) && first <= next
    requires forall r: int :: HasReg(PlaceOf(ps, n, 0), isFp, r) <==> first <= r < next
    ensures FreeFrom(ps, n + 1, isFp, next)
  {
    hide TakenBefore, HasReg;
    var m := n + 1;
    forall r: int ensures TakenBefore(ps, m, isFp, r) <==> 0 <= r < next {
      TakenStep(ps, n, isFp, r);
    }
  }

  lemma CounterStep(ps: seq<Param>, n: nat, isFp: bool)
    requires n < |ps| && CounterMeans(ps, n, isFp)
    ensures CounterMeans(ps, n + 1, isFp)
  {
    hide FreeFrom, HasReg, FileOf, InRegisters, Closed, Next, Advance, InRange, Cursors;
    var c, d := Cursors(ps, n), Cursors(ps, n + 1);
    CursorsGrow(ps, n, n);
    NextCursor(ps, n);
    Handed(c, ps[n], isFp);
    ClosedStep(ps, n, isFp);
    if !Closed(ps, n + 1, isFp) {
      OpenStep(ps, n, isFp, Next(c, isFp), Next(d, isFp));
    }
  }

  /** The counters say what has been placed: an open file's is the number of its registers taken, from 0 up. */
  lemma {:induction false} CountersMean(ps: seq<Param>, n: nat, isFp: bool)
    requires n <= |ps|
    ensures InRange(Cursors(ps, n)) && CounterMeans(ps, n, isFp)
    ensures Cursors(ps, n).nsaa == StackUsed(ps, n) && Cursors(ps, n).copy == CopyUsed(ps, n)
    decreases n
  {
    CursorsGrow(ps, n, n);
    hide Advance, InRange, CounterMeans, InRegisters, StackBytes, Round16;
    if n == 0 {
      NothingPlaced(ps, isFp);
    } else {
      CountersMean(ps, n - 1, isFp);
      Handed(Cursors(ps, n - 1), ps[n - 1], isFp);
      CounterStep(ps, n - 1, isFp);
    }
  }

  lemma NextCursor(ps: seq<Param>, n: nat)
    requires n < |ps|
    ensures Cursors(ps, n + 1) == Advance(Cursors(ps, n), ps[n])
  {
  }

  lemma NothingPlaced(ps: seq<Param>, isFp: bool)
    ensures CounterMeans(ps, 0, isFp)
  {
    forall r: int ensures !TakenBefore(ps, 0, isFp, r) {}
  }

  // ----- the rules -----

  /** Its registers are exactly the next n of the file. */
  ghost predicate TakesNext(ps: seq<Param>, i: nat, base: nat, n: nat)
    requires i < |ps|
  {
    exists first: nat :: FreeFrom(ps, i, FileOf(ps[i]), first) && first + n <= 8
      && forall r: int :: HasReg(PlaceOf(ps, i, base), FileOf(ps[i]), r) <==> first <= r < first + n
  }

  /** There are n registers left in the file. */
  ghost predicate Room(ps: seq<Param>, i: nat, isFp: bool, n: nat)
    requires i <= |ps|
  {
    exists first: nat :: FreeFrom(ps, i, isFp, first) && first + n <= 8
  }

  lemma WantsWords(p: Param, n: nat)
    requires p.cls.Integer?
    ensures Wants(p, n) <==> n == Words(p.size)
  {
  }

  lemma WhatFits(c: Cursor, p: Param, base: nat, n: nat)
    requires InRange(c) && Wants(p, n) && n > 0
    ensures var f, pl := FileOf(p), Place(c, p, base);
            && (InRegisters(pl) <==> Next(c, f) + n <= 8)
            && (InRegisters(pl) ==> forall r: int :: HasReg(pl, f, r) <==> Next(c, f) <= r < Next(c, f) + n)
            && (p.cls.Indirect? <==> pl.PtrReg? || pl.PtrStack?)
            && (pl.Regs? ==> pl.isFp == f && pl.width == if p.cls.Hfa? then p.cls.elem else 8)
            && (pl.Stack? || pl.PtrStack? ==> pl.off == c.nsaa)
            && (pl.PtrReg? || pl.PtrStack? ==> pl.copy == base + c.copy)
  {
    hide Words, Holding;
    if p.cls.Integer? { WantsWords(p, n); }
  }

  /** Every argument that wants registers is where the standard puts it. */
  lemma PlacedByTheRules(ps: seq<Param>, i: nat, base: nat, n: nat)
    requires i < |ps| && Wants(ps[i], n) && n > 0
    ensures var f, pl := FileOf(ps[i]), PlaceOf(ps, i, base);
            && (InRegisters(pl) <==> !Closed(ps, i, f) && Room(ps, i, f, n))
            && (InRegisters(pl) ==> TakesNext(ps, i, base, n))
            && (ps[i].cls.Indirect? <==> pl.PtrReg? || pl.PtrStack?)
            && (pl.Regs? ==> pl.isFp == f && pl.width == if ps[i].cls.Hfa? then ps[i].cls.elem else 8)
            && (pl.Stack? || pl.PtrStack? ==> pl.off == StackUsed(ps, i))
            && (pl.PtrReg? || pl.PtrStack? ==> pl.copy == base + CopyUsed(ps, i))
  {
    var f, c := FileOf(ps[i]), Cursors(ps, i);
    CountersMean(ps, i, f);
    WhatFits(c, ps[i], base, n);
    hide InRange, InRegisters, HasReg, Closed, TakenBefore, Wants, StackUsed, CopyUsed, Place, Cursors;
    if !Closed(ps, i, f) {
      assert FreeFrom(ps, i, f, Next(c, f));
      forall first: nat | FreeFrom(ps, i, f, first) ensures first == Next(c, f) {
        SameFirst(ps, i, f, first, Next(c, f));
      }
    }
  }

  lemma SameFirst(ps: seq<Param>, n: nat, isFp: bool, a: nat, b: nat)
    requires n <= |ps| && FreeFrom(ps, n, isFp, a) && FreeFrom(ps, n, isFp, b)
    ensures a == b
  {
    hide TakenBefore;
    assert TakenBefore(ps, n, isFp, a) <==> 0 <= a < b;
    assert TakenBefore(ps, n, isFp, b) <==> 0 <= b < a;
  }

  /** Registers are never filled in later: once an argument of a file is on the stack, so are all that follow. */
  lemma NoBackFill(ps: seq<Param>, i: nat, j: nat, base: nat, n: nat)
    requires i < j < |ps| && FileOf(ps[i]) == FileOf(ps[j]) && Wants(ps[j], n) && n > 0
    requires !InRegisters(PlaceOf(ps, i, base))
    ensures !InRegisters(PlaceOf(ps, j, base))
  {
    hide Place, Cursors, InRegisters, Wants, FileOf;
    PlacesAlike(Cursors(ps, i), ps[i], base, true, 0);
    assert Closed(ps, j, FileOf(ps[j]));
    PlacedByTheRules(ps, j, base, n);
  }

  /** An empty structure takes nothing. */
  lemma NothingTakesNothing(ps: seq<Param>, i: nat, base: nat, r: int)
    requires i < |ps| && Wants(ps[i], 0)
    ensures !HasReg(PlaceOf(ps, i, base), true, r) && !HasReg(PlaceOf(ps, i, base), false, r)
    ensures ps[i].cls.Integer? ==> InRegisters(PlaceOf(ps, i, base))
  {
    CursorsGrow(ps, i, i);
  }
}
