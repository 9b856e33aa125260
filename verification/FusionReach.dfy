/**
 What fusion does not miss: the update of a word in memory, for exactly the operations there is a fused form of, the
 access to an array element, for exactly the element sizes the addressing mode scales by, and the access to a field,
 for exactly the offsets its 32 bits hold.
 */
module FusionReach {
  import opened Options
  import opened Words
  import opened Ir
  import opened Equivalence
  import opened Forward
  import opened Fuse
  import opened FuseLimits
  import opened Samples

  function T(n: nat): Operand { Word8(Var(Tmp, n)) }
  function P(n: nat): Operand { Word8(Var(Param, n)) }

  function Compute(op: BinOp, dst: Operand, a: Operand, b: Operand): Instr
  {
    NopInstr().(op := Arith(op), dst := dst, r1 := a, r2 := b)
  }

  // ----- the one that uses an address -----

  predicate Mentions(I: Instr, t: Operand)
  {
    !I.op.Nop? && (I.r1 == t || I.r2 == t || I.dst == t || I.idx == t)
  }

  /** The search finds an instruction exactly if it is the first one to mention the address, and uses it as such. */
  lemma {:induction false} ConsumerIff(code: Code, p: nat, t: Operand, j: nat)
    ensures FindMemConsumer(code, p, t) == Some(j) <==>
              p <= j < |code| && MemOp(code[j].op) && BaseOf(code[j]) == t
              && forall k :: p <= k < j ==> !Mentions(code[k], t)
    decreases |code| - p
  {
    if p < |code| {
      if code[p].op.Nop? || !(MemOp(code[p].op) && BaseOf(code[p]) == t) {
        ConsumerIff(code, p + 1, t, j);
        assert p < j < |code| && (forall k :: p <= k < j ==> !Mentions(code[k], t)) ==>
            !Mentions(code[p], t) && forall k :: p + 1 <= k < j ==> !Mentions(code[k], t);
      } else {
        assert Mentions(code[p], t);
      }
    }
  }

  // ----- *p = *p op y -----

  /** `left` says that the loaded word is the left operand. */
  function Update(op: BinOp, left: bool): Code
  {
    [LoadFrom(T(5), P(1)), if left then Compute(op, T(6), T(5), P(2)) else Compute(op, T(6), P(2), T(5)),
     NopInstr().(op := StoreDeref, dst := P(1), r1 := T(6)), RetOf(P(2))]
  }

  function Updated(op: BinOp): Code
  {
    [NopInstr(), NopInstr(), NopInstr().(op := RmwDeref(op), dst := P(1), r1 := P(2)), RetOf(P(2))]
  }

  ghost predicate Commutes(op: BinOp)
  {
    forall a: Word, b: Word :: Alu(op, a, b) == Alu(op, b, a)
  }

  lemma UpdateUses(op: BinOp, left: bool)
    ensures UseCount([Update(op, left)], 5) == 1 && UseCount([Update(op, left)], 6) == 1
  {
    UpdateUsesOf(op, left, 5);
    UpdateUsesOf(op, left, 6);
    hide UseCount;
  }

  lemma UpdateUsesOf(op: BinOp, left: bool, id: nat)
    requires id == 5 || id == 6
    ensures UseCount([Update(op, left)], id) == 1
  {
    var code := Update(op, left);
    assert TmpUses(id)(code[0]) == 0 by { UsesOfMemOp(code[0], id); }
    assert TmpUses(id)(code[1]) == (if id == 5 then 1 else 0) by { UsesOfArith(code[1], id); }
    assert TmpUses(id)(code[2]) == (if id == 6 then 1 else 0) by { UsesOfMemOp(code[2], id); }
    assert TmpUses(id)(code[3]) == 0 by {
      assert TmpOperands(code[3]) == [Null, Null, Null, P(2)];
      CountFour(Null, Null, Null, P(2), id);
    }
    hide TmpUses;
    SumOfFour(TmpUses(id), code);
  }

  lemma CommutesIff(op: BinOp)
    requires op.IAdd? || op.ISub? || op.And? || op.Or? || op.Xor?
    ensures Commutes(op) <==> !op.ISub?
  {
    if op.ISub? {
      assert Alu(op, 1, 0) != Alu(op, 0, 1);
    } else {
      forall a: Word, b: Word ensures Alu(op, a, b) == Alu(op, b, a) {
        Commuted(op, a, b);
      }
    }
  }

  lemma UpdateFolds(op: BinOp, left: bool)
    ensures FoldRmw([Update(op, left)], 0, 0, 1, 2, left) == [Updated(op)]
  {
    assert FoldRmw([Update(op, left)], 0, 0, 1, 2, left)[0] == Updated(op);
  }

  /** The triple is fused exactly if the operation is one of the five and the loaded word is on the left, or may as well
      be. */
  lemma UpdateFusedIff(op: BinOp, left: bool)
    ensures RmwFold([Update(op, left)], 0, 0, 1, 2, left) <==>
              (op.IAdd? || op.ISub? || op.And? || op.Or? || op.Xor?) && (left || Commutes(op))
    ensures FoldRmw([Update(op, left)], 0, 0, 1, 2, left) == [Updated(op)]
  {
    UpdateUses(op, left);
    UpdateFolds(op, left);
    hide UseCount, Commutes, FoldRmw;
    if op.IAdd? || op.ISub? || op.And? || op.Or? || op.Xor? { CommutesIff(op); }
  }

  // ----- *(p + i * size) -----

  /** `right` says that the scaled index is the right operand of the addition. */
  function Element(op: BinOp, k: Signed, right: bool): Code
  {
    [Compute(op, T(5), P(2), Const(k, 8)), if right then Add(T(6), P(1), T(5)) else Add(T(6), T(5), P(1)),
     LoadFrom(T(7), T(6)), RetOf(T(7))]
  }

  function Indexed(scale: nat): Code
  {
    [NopInstr(), NopInstr(), LoadFrom(T(7), P(1)).(idx := P(2), scale := scale), RetOf(T(7))]
  }

  lemma ElementUses(op: BinOp, k: Signed, right: bool)
    ensures UseCount([Element(op, k, right)], 5) == 1 && UseCount([Element(op, k, right)], 6) == 1
  {
    ElementUsesOf(op, k, right, 5);
    ElementUsesOf(op, k, right, 6);
    hide UseCount;
  }

  lemma ElementUsesOf(op: BinOp, k: Signed, right: bool, id: nat)
    requires id == 5 || id == 6
    ensures UseCount([Element(op, k, right)], id) == 1
  {
    var code := Element(op, k, right);
    assert TmpUses(id)(code[0]) == 0 by { UsesOfArith(code[0], id); }
    assert TmpUses(id)(code[1]) == (if id == 5 then 1 else 0) by { UsesOfArith(code[1], id); }
    assert TmpUses(id)(code[2]) == (if id == 6 then 1 else 0) by { UsesOfMemOp(code[2], id); }
    assert TmpUses(id)(code[3]) == 0 by {
      assert TmpOperands(code[3]) == [Null, Null, Null, T(7)];
      CountFour(Null, Null, Null, T(7), id);
    }
    hide TmpUses;
    SumOfFour(TmpUses(id), code);
  }

  /** The index is multiplied by s. */
  predicate Multiplies(op: BinOp, k: Signed, s: nat)
  {
    (op.IMul? && k == s) || (op.Shl? && 0 <= k < 64 && Pow2(k) == s)
  }

  lemma ScaleIff(op: BinOp, k: Signed, s: nat)
    requires s == 1 || s == 2 || s == 4 || s == 8
    ensures Multiplies(op, k, s) <==> ScaleOf(Compute(op, T(5), P(2), Const(k, 8))) == Some(s)
  {
    SmallPowers();
    if op.Shl? && 4 <= k < 64 { Pow2Monotone(4, k); }
  }

  lemma SmallPowers()
    ensures Pow2(0) == 1 && Pow2(1) == 2 && Pow2(2) == 4 && Pow2(3) == 8 && Pow2(4) == 16
  {
  }

  lemma ElementTests(p: Pool, op: BinOp, k: Signed, right: bool)
    ensures Candidate([Element(op, k, right)], 0, 1) && Consumer([Element(op, k, right)], 0, 1) == 2
    ensures ScaleFold(p, [Element(op, k, right)], 0, 1, 0, 0, right) <==>
              ScaleOf(Compute(op, T(5), P(2), Const(k, 8))).Some?
  {
    ElementUses(op, k, right);
    assert FindMemConsumer(Element(op, k, right), 2, T(6)) == Some(2);
    hide UseCount, ScaleOf;
  }

  lemma ElementFolds(op: BinOp, k: Signed, right: bool, s: nat)
    requires ScaleOf(Compute(op, T(5), P(2), Const(k, 8))) == Some(s)
    requires Candidate([Element(op, k, right)], 0, 1) && Consumer([Element(op, k, right)], 0, 1) == 2
    ensures FoldScale([Element(op, k, right)], 0, 1, 0, 0, right) == [Indexed(s)]
  {
    hide Candidate, Consumer, ScaleOf;
    assert FoldScale([Element(op, k, right)], 0, 1, 0, 0, right)[0] == Indexed(s);
  }

  /** The access takes over the multiplication exactly if it is one by 1, 2, 4 or 8, whatever the backend. */
  lemma ElementFusedIff(p: Pool, op: BinOp, k: Signed, right: bool)
    ensures ScaleFold(p, [Element(op, k, right)], 0, 1, 0, 0, right) <==>
              exists s: nat :: (s == 1 || s == 2 || s == 4 || s == 8) && Multiplies(op, k, s)
    ensures forall s: nat :: (s == 1 || s == 2 || s == 4 || s == 8) && Multiplies(op, k, s) ==>
              && ScaleFold(p, [Element(op, k, right)], 0, 1, 0, 0, right)
              && FoldScale([Element(op, k, right)], 0, 1, 0, 0, right) == [Indexed(s)]
  {
    ElementTests(p, op, k, right);
    forall s: nat | s == 1 || s == 2 || s == 4 || s == 8
      ensures Multiplies(op, k, s) <==> ScaleOf(Compute(op, T(5), P(2), Const(k, 8))) == Some(s)
      ensures Multiplies(op, k, s) ==> FoldScale([Element(op, k, right)], 0, 1, 0, 0, right) == [Indexed(s)]
    {
      ScaleIff(op, k, s);
      if Multiplies(op, k, s) { ElementFolds(op, k, right, s); }
    }
    hide Multiplies, ScaleFold, FoldScale, Candidate, Consumer;
  }

  // ----- *(p + k) and *(p - k) -----

  /** The cast to `s32`. */
  function Cast32(k: int): int
  {
    var w := k % 0x1_0000_0000;
    if w < 0x8000_0000 then w else w - 0x1_0000_0000
  }

  /** `right` says that the constant is the right operand. */
  function Field(op: BinOp, k: Signed, right: bool): Code
  {
    [if right then Compute(op, T(5), P(1), Const(k, 8)) else Compute(op, T(5), Const(k, 8), P(1)),
     LoadFrom(T(6), T(5)), RetOf(T(6)), NopInstr()]
  }

  function Displaced(k: int): Code
  {
    [NopInstr(), LoadFrom(T(6), P(1)).(disp := k), RetOf(T(6)), NopInstr()]
  }

  lemma FieldUses(op: BinOp, k: Signed, right: bool)
    ensures UseCount([Field(op, k, right)], 5) == 1
  {
    var code := Field(op, k, right);
    SumOfFour(TmpUses(5), code);
    UsesOfArith(code[0], 5);
    UsesOfMemOp(code[1], 5);
    assert TmpOperands(code[2]) == [Null, Null, Null, T(6)] && TmpOperands(code[3]) == [];
    CountFour(Null, Null, Null, T(6), 5);
  }

  lemma FieldTests(p: Pool, op: BinOp, k: Signed, right: bool)
    ensures Candidate([Field(op, k, right)], 0, 0) <==> op.IAdd? || op.ISub?
    ensures op.IAdd? || op.ISub? ==> Consumer([Field(op, k, right)], 0, 0) == 1
  {
    FieldUses(op, k, right);
    assert FindMemConsumer(Field(op, k, right), 1, T(5)) == Some(1);
    hide UseCount;
  }

  /** The offset the addition or subtraction of k stands for. */
  function OffsetOf(op: BinOp, k: Signed): int
  {
    if op.ISub? then 0 - k else k
  }

  /** The access takes over a constant exactly if it is added, on either side, or subtracted from the pointer, and the
      cast to 32 bits loses nothing of it. */
  lemma FieldFusedIff(p: Pool, op: BinOp, k: Signed, right: bool)
    ensures DispFold(p, [Field(op, k, right)], 0, 0) <==>
              (op.IAdd? || (op.ISub? && right)) && Cast32(OffsetOf(op, k)) == OffsetOf(op, k)
    ensures DispFold(p, [Field(op, k, right)], 0, 0) ==>
              FoldDisp([Field(op, k, right)], 0, 0) == [Displaced(OffsetOf(op, k))]
  {
    FieldTests(p, op, k, right);
    if DispFold(p, [Field(op, k, right)], 0, 0) { FieldFolds(op, k, right); }
    CastIff(OffsetOf(op, k));
    hide UseCount, Candidate, Consumer, FoldDisp, Cast32, FitsDisp;
  }

  lemma CastIff(k: int)
    ensures Cast32(k) == k <==> FitsDisp(k)
  {
  }

  lemma FieldFolds(op: BinOp, k: Signed, right: bool)
    requires Candidate([Field(op, k, right)], 0, 0) && Consumer([Field(op, k, right)], 0, 0) == 1
    requires op.IAdd? || (op.ISub? && right)
    ensures FoldDisp([Field(op, k, right)], 0, 0) == [Displaced(OffsetOf(op, k))]
  {
    hide Candidate, Consumer;
    assert FoldDisp([Field(op, k, right)], 0, 0)[0] == Displaced(OffsetOf(op, k));
  }
}
