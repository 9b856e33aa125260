/**
 The counts dead code elimination goes by are no larger than they need be: beyond what an execution reads they take in
 the operand whose address is taken, the temporary a store goes to, and constants that look like the slot's number.
 */
module CountCoverage {
  import opened Ir
  import opened Liveness
  import opened Equivalence

  /** The instruction carries no variable as an operand that its operation has no use for. */
  predicate Tidy(I: Instr)
  {
    && Vars(I.r1) + Vars(I.r2) + Vars(I.idx) <= Reads(I) + (if I.op.Lea? then Vars(I.r1) else {})
    && (I.op.Nop? ==> I.r1.Null? && I.r2.Null? && I.idx.Null?)
  }

  /** An operand that is a constant has this number where a variable has its id. */
  predicate Disguised(o: Operand, id: nat)
  {
    o.Const? && VarId(o) == id
  }

  lemma {:induction false} CountedTmp(os: seq<Operand>, id: nat)
    requires CountTmp(os, id) > 0
    ensures Var(Tmp, id) in VarsOf(os)
    decreases |os|
  {
    if IsTmp(os[0]) && os[0].v.id == id {
      assert os[0] in os && os[0].v == Var(Tmp, id);
    } else {
      CountedTmp(os[1..], id);
      var o :| o in os[1..] && o.Ref? && o.v == Var(Tmp, id);
      assert o in os;
    }
  }

  lemma {:induction false} CountedId(os: seq<Operand>, id: nat) returns (o: Operand)
    requires CountId(os, id) > 0
    ensures o in os && !o.Null? && VarId(o) == id
    decreases |os|
  {
    if !os[0].Null? && VarId(os[0]) == id {
      o := os[0];
    } else {
      o := CountedId(os[1..], id);
    }
  }

  lemma {:induction false} IdCounted(os: seq<Operand>, o: Operand)
    requires o in os && !o.Null?
    ensures CountId(os, VarId(o)) > 0
    decreases |os|
  {
    if os[0] != o {
      assert o in os[1..];
      IdCounted(os[1..], o);
    }
  }

  /** The operands that an operation looks at only to count them. */
  function AlsoCounted(I: Instr): set<Var>
  {
    (if I.op.Lea? then Vars(I.r1) else {}) + (if I.op.Store? then Vars(I.dst) else {})
  }

  lemma WhereCounted(I: Instr, o: Operand)
    requires o in TmpOperands(I)
    ensures !I.op.Nop?
    ensures || o == I.r1 || o == I.r2 || o == I.idx || (ReadsDst(I.op) && o == I.dst)
            || (I.op.Call? && o in I.args) || (I.op.Phi? && o in Values(I.pairs))
  {
  }

  lemma PairRead(I: Instr, o: Operand)
    requires I.op.Phi? && o in Values(I.pairs) && o.Ref?
    ensures o.v in Reads(I)
  {
    var k :| 0 <= k < |I.pairs| && Values(I.pairs)[k] == o;
    assert I.pairs[k] in I.pairs && I.pairs[k].value == o;
  }

  lemma DstRead(I: Instr)
    requires ReadsDst(I.op) && I.dst.Ref?
    ensures I.dst.v in Reads(I) + AlsoCounted(I)
  {
  }

  lemma ArgRead(I: Instr, o: Operand)
    requires I.op.Call? && o in I.args && o.Ref?
    ensures o.v in Reads(I)
  {
    assert o.v in VarsOf(I.args);
  }

  lemma CountedIsRead(I: Instr, o: Operand)
    requires Tidy(I) && o in TmpOperands(I) && o.Ref?
    ensures o.v in Reads(I) + AlsoCounted(I)
  {
    WhereCounted(I, o);
    hide Reads, TmpOperands, ReadsDst;
    if I.op.Phi? && o in Values(I.pairs) {
      PairRead(I, o);
    } else if I.op.Call? && o in I.args {
      ArgRead(I, o);
    } else if ReadsDst(I.op) && o == I.dst {
      DstRead(I);
    } else {
      assert o.v in Vars(I.r1) + Vars(I.r2) + Vars(I.idx);
    }
  }

  lemma TmpOperandsRead(I: Instr)
    requires Tidy(I)
    ensures VarsOf(TmpOperands(I)) == Reads(I) + AlsoCounted(I)
  {
    hide Reads, TmpOperands, ReadsDst, Tidy;
    forall v | v in VarsOf(TmpOperands(I)) ensures v in Reads(I) + AlsoCounted(I) {
      var o :| o in TmpOperands(I) && o.Ref? && o.v == v;
      CountedIsRead(I, o);
    }
    forall v | v in Reads(I) + AlsoCounted(I) ensures v in VarsOf(TmpOperands(I)) {
      if v in Reads(I) {
        ReadsAmongTmpOperands(I, v);
      } else {
        AlsoAmong(I, v);
      }
    }
  }

  lemma AlsoAmong(I: Instr, v: Var)
    requires v in AlsoCounted(I)
    ensures v in VarsOf(TmpOperands(I))
  {
    FixedOperands(I);
    var o := if I.op.Lea? then I.r1 else I.dst;
    assert o in TmpOperands(I) && o.Ref? && o.v == v;
  }

  /** The use count of a temporary: it is read, or stored to, or its address is taken. */
  lemma TmpUsesIff(I: Instr, id: nat)
    requires Tidy(I)
    ensures TmpUses(id)(I) > 0 <==> Var(Tmp, id) in Reads(I) + AlsoCounted(I)
  {
    TmpOperandsRead(I);
    if TmpUses(id)(I) > 0 { CountedTmp(TmpOperands(I), id); }
    if Var(Tmp, id) in Reads(I) + AlsoCounted(I) { CountTmpFinds(TmpOperands(I), Var(Tmp, id)); }
  }

  ghost predicate ReadsId(I: Instr, id: nat)
  {
    exists v :: v in Reads(I) + (if I.op.Lea? then Vars(I.r1) else {}) && v.id == id
  }

  lemma WhereSlot(I: Instr, o: Operand)
    requires o in SlotOperands(I)
    ensures || o == I.r1 || o == I.r2 || ((I.op.Br? || I.op.Ret? || I.op.StoreDeref?) && o == I.dst)
            || (I.op.Call? && o in I.args) || (I.op.Phi? && o in Values(I.pairs))
  {
  }

  lemma BranchReads(I: Instr)
    requires (I.op.Br? || I.op.Ret? || I.op.StoreDeref?) && I.dst.Ref?
    ensures I.dst.v in Reads(I)
  {
  }

  lemma SlotOperandRead(I: Instr, o: Operand)
    requires Tidy(I) && o in SlotOperands(I) && o.Ref?
    ensures ReadsId(I, o.v.id)
  {
    WhereSlot(I, o);
    hide Reads, SlotOperands;
    if I.op.Phi? && o in Values(I.pairs) {
      PairRead(I, o);
    } else if I.op.Call? && o in I.args {
      ArgRead(I, o);
    } else if o == I.r1 || o == I.r2 {
      assert o.v in Vars(I.r1) + Vars(I.r2) + Vars(I.idx);
    } else {
      BranchReads(I);
    }
    assert o.v in Reads(I) + (if I.op.Lea? then Vars(I.r1) else {});
  }

  /** The slot read count: a variable of that number is read, or its address is taken, or a constant is taken for it. */
  lemma SlotReadsIff(I: Instr, id: nat)
    requires Tidy(I) && Unfused(I)
    ensures SlotReads(id)(I) > 0 <==>
              ReadsId(I, id) || exists o :: o in SlotOperands(I) && Disguised(o, id)
  {
    if SlotReads(id)(I) > 0 {
      var o := CountedId(SlotOperands(I), id);
      if o.Ref? { SlotOperandRead(I, o); } else { assert Disguised(o, id); }
    }
    if ReadsId(I, id) {
      var v :| v in Reads(I) + (if I.op.Lea? then Vars(I.r1) else {}) && v.id == id;
      if v in Reads(I) {
        SlotReadsCoverReads(I, v);
      } else {
        assert SlotOperands(I)[0] == I.r1;
        IdCounted(SlotOperands(I), I.r1);
      }
    }
    if exists o :: o in SlotOperands(I) && Disguised(o, id) {
      var o :| o in SlotOperands(I) && Disguised(o, id);
      IdCounted(SlotOperands(I), o);
    }
  }
}
