/**
 What constant folding does not miss: an instruction whose operands are resolved vanishes exactly if its value is known
 or is always that of one operand, up to the cases the folder leaves out on purpose.
 */
module FoldCoverage {
  import opened Options
  import opened Words
  import opened Ir
  import opened Equivalence
  import opened Evaluate
  import opened AluSteady
  import opened ConstFold

  /** An operation the folder looks at, into a temporary, with both operands there. */
  predicate Complete(I: Instr)
  {
    Calculates(I.op) && IsTmp(I.dst) && !I.r1.Null? && !I.r2.Null?
  }

  /** The machine always gets a value, and a shift is by less than the word. */
  predicate HasValue(I: Instr)
    requires I.r1.Const? && I.r2.Const?
  {
    match I.op
    case ICmp(_) => true
    case Arith(op) => Alu(op, Wrap(I.r1.k), Wrap(I.r2.k)).Some? && (Shifts(op) ==> 0 <= I.r2.k < 64)
    case _ => false
  }

  /** With k on one side the operation gives back the other side, whatever it is. */
  ghost predicate GivesOther(op: BinOp, k: Signed, side: Side)
  {
    (forall w: Word :: Apply(op, w, k, side) == Some(w)) && (Shifts(op) ==> k == 0)
  }

  /** It gives zero, whatever the other side is; the folder leaves the remainder by one and shifts of zero. */
  ghost predicate GivesZero(op: BinOp, k: Signed, side: Side)
  {
    (forall w: Word :: Apply(op, w, k, side) == Some(0)) && !Divides(op) && !Shifts(op)
  }

  /** One operand is a constant. */
  ghost predicate Simplifies(I: Instr, k: Signed, side: Side)
    requires I.dst.Ref?
  {
    I.op.Arith? && ((GivesOther(I.op.bin, k, side) && !I.dst.byval) || GivesZero(I.op.bin, k, side))
  }

  lemma OtherIff(op: BinOp, k: Signed, side: Side)
    ensures GivesOther(op, k, side) <==> IdentityFold(op, k, side, false)
  {
    IdentitiesComplete(op, k, side);
  }

  /** Some word for which the result is not zero. */
  lemma NotZero(op: BinOp, k: Signed, side: Side) returns (w: Word)
    requires !Divides(op) && !Shifts(op) && !((op.IMul? || op.And?) && k == 0)
    ensures Apply(op, w, k, side) != Some(0)
  {
    WrapOfSigned(k);
    var u := Wrap(k);
    match op
    case IMul => w := 1; assert 1 * u == u && u * 1 == u;
    case And =>
      w := u;
      BitAndSelf(u);
    case IAdd => w := if u == 0 then 1 else 0;
    case ISub => w := if u == 0 then 1 else 0;
    case Or => w := 1;
    case Xor => w := if u == 0 then 1 else 0;
  }

  lemma ZeroIff(op: BinOp, k: Signed, side: Side)
    ensures GivesZero(op, k, side) <==> (op.IMul? || op.And?) && k == 0
  {
    if (op.IMul? || op.And?) && k == 0 {
      forall w: Word ensures Apply(op, w, k, side) == Some(0) {
        AbsorbingZero(op, w, side);
      }
    } else if !Divides(op) && !Shifts(op) {
      var w := NotZero(op, k, side);
    }
  }

  /** The side on which the constant is, if there is just one. */
  function ConstSide(I: Instr): Side
  {
    if I.r2.Const? then Right else Left
  }

  function ConstOf(I: Instr): Operand
  {
    if I.r2.Const? then I.r2 else I.r1
  }

  /** An instruction vanishes exactly if its value is a known constant or always that of its other operand. */
  lemma VanishesIff(I: Instr)
    requires Complete(I)
    ensures I.r1.Const? && I.r2.Const? ==> (Decide(I).Vanishes? <==> HasValue(I) || Simplifies(I, I.r2.k, Right))
    ensures I.r1.Const? != I.r2.Const? ==> (Decide(I).Vanishes? <==> Simplifies(I, ConstOf(I).k, ConstSide(I)))
    ensures !I.r1.Const? && !I.r2.Const? ==> Decide(I) == Same
  {
    hide GivesOther, GivesZero, Alu, EvalCmp;
    if I.op.Arith? {
      if I.r1.Const? || I.r2.Const? {
        OtherIff(I.op.bin, ConstOf(I).k, ConstSide(I));
        ZeroIff(I.op.bin, ConstOf(I).k, ConstSide(I));
      }
      if I.r1.Const? && I.r2.Const? {
        NotFoldedIff(I.op.bin, I.r1.k, I.r2.k);
      }
    }
  }

  /** What stays is changed exactly if it multiplies by a power of two, which becomes a shift by its exponent, or puts a
      known value into a frame slot, which becomes a store. */
  lemma BecomesIff(I: Instr)
    requires Calculates(I.op) && I.dst.Ref? && !I.r1.Null? && !I.r2.Null? && !Decide(I).Vanishes?
    ensures IsTmp(I.dst) ==>
              (Decide(I).Becomes? <==>
                 I.op == Arith(IMul) && I.r2.Const? && exists n: nat :: n > 0 && I.r2.k == Pow2(n))
    ensures IsTmp(I.dst) && Decide(I).Becomes? ==>
              Decide(I).J.op == Arith(Shl) && Decide(I).J.r2.Const? && Decide(I).J.r2.k > 0
              && I.r2.k == Pow2(Decide(I).J.r2.k) && Decide(I).J.r1 == I.r1 && Decide(I).J.dst == I.dst
    ensures I.dst.v.kind.Local? ==>
              (Decide(I).Becomes? <==> I.r1.Const? && I.r2.Const? && HasValue(I) && !I.dst.byval)
  {
    hide Alu, EvalCmp, TrailingZeros, BitAnd;
    if I.op.Arith? && I.r1.Const? && I.r2.Const? { NotFoldedIff(I.op.bin, I.r1.k, I.r2.k); }
    if IsTmp(I.dst) && I.op == Arith(IMul) && I.r2.Const? {
      PowerIff(I.r2.k);
    }
  }

  lemma PowerIff(k: Signed)
    ensures IsPositivePowerOfTwo(k) <==> exists n: nat :: n > 0 && k == Pow2(n)
    ensures IsPositivePowerOfTwo(k) ==> k == Pow2(TrailingZeros(k)) && TrailingZeros(k) > 0
  {
    if k > 1 {
      PowerOfTwoTest(k);
      if exists n: nat :: n > 0 && k == Pow2(n) {
        var n: nat :| n > 0 && k == Pow2(n);
        ZerosOfPower(n);
      }
    }
    if IsPositivePowerOfTwo(k) { MulIsShift(0, k); }
  }

  lemma {:induction false} ZerosOfPower(n: nat)
    ensures TrailingZeros(Pow2(n)) == n
    decreases n
  {
    if n > 0 { ZerosOfPower(n - 1); }
  }
}
