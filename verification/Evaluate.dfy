/** Compile-time evaluation: irEvalBinop, irEvalCmp and the algebraic identities, against the target's arithmetic. */
module Evaluate {
  import opened Options
  import opened Words
  import opened Arithmetic
  import opened Ir

  /** The cast (u64)a. */
  function U(a: Signed): Word
  {
    Wrap(a)
  }

  /** irEvalBinop: the value C computes, or None where it declines to fold. */
  function EvalBinop(op: BinOp, a: Signed, b: Signed): Option<Signed>
  {
    match op
    case IAdd => Some(ToSigned(Wrap(U(a) + U(b))))
    case ISub => Some(ToSigned(Wrap(U(a) - U(b))))
    case IMul => Some(ToSigned(Wrap(U(a) * U(b))))
    case And => Some(ToSigned(BitAnd(U(a), U(b))))
    case Or => Some(ToSigned(WordOr(U(a), U(b))))
    case Xor => Some(ToSigned(WordXor(U(a), U(b))))
    case IDiv =>
      if b == 0 then None else if a == -TWO63 && b == -1 then None
      else TruncDivSigned(a, b); Some(TruncDiv(a, b))
    case UDiv => if b == 0 then None else UnsignedQuotient(U(a), U(b)); Some(ToSigned(U(a) / U(b)))
    case IRem =>
      if b == 0 then None else if a == -TWO63 && b == -1 then None
      else TruncDivSigned(a, b); Some(TruncRem(a, b))
    case URem => if b == 0 then None else UnsignedQuotient(U(a), U(b)); Some(ToSigned(U(a) % U(b)))
    case Shl => if b < 0 || b >= 64 then None else Some(ToSigned(Wrap(U(a) * Pow2(b))))
    case Shr =>
      if b < 0 || b >= 64 then None
      else UnsignedQuotient(U(a), Pow2(b)); Some(ToSigned(U(a) / Pow2(b)))
    case Sar => if b < 0 || b >= 64 then None else FloorSigned(a, Pow2(b)); Some(a / Pow2(b))
  }

  /** irEvalCmp */
  function EvalCmp(c: CmpKind, a: Signed, b: Signed): Signed
  {
    if (match c
        case Eq => a == b
        case Ne => a != b
        case Lt => a < b
        case Le => a <= b
        case Gt => a > b
        case Ge => a >= b
        case Ult => U(a) < U(b)
        case Ule => U(a) <= U(b)
        case Ugt => U(a) > U(b)
        case Uge => U(a) >= U(b))
    then 1 else 0
  }

  lemma AbsQuotient(x: nat, y: nat)
    requires y > 0
    ensures x / y <= x
    ensures y >= 2 ==> 2 * (x / y) <= x
    ensures y * (x / y) <= x
  {
    var q := x / y;
    assert x == y * q + x % y;
    if y >= 2 { assert y * q >= 2 * q by { MulMono(2, y, q); } }
    assert y * q >= q by { MulMono(1, y, q); }
  }

  lemma TruncDivSigned(a: Signed, b: Signed)
    requires b != 0 && !(a == -TWO63 && b == -1)
    ensures -TWO63 <= TruncDiv(a, b) < TWO63
    ensures -TWO63 <= TruncRem(a, b) < TWO63
  {
    AbsQuotient(Abs(a), Abs(b));
    var q := Abs(a) / Abs(b);
    if Abs(b) == 1 { assert q == Abs(a) by { QuotientByOne(Abs(a)); } }
    TruncRemSign(a, b);
  }

  lemma SignedProducts(y: int, q: int)
    ensures y * (-q) == -(y * q) && (-y) * q == -(y * q) && (-y) * (-q) == y * q
  {
  }

  lemma DivModEq(x: nat, y: nat)
    requires y > 0
    ensures x == y * (x / y) + x % y && 0 <= x % y < y
    ensures 0 <= y * (x / y) <= x && x % y <= x
  {
    assert y * (x / y) >= 0 by { MulMono(0, y, x / y); }
  }

  /** The remainder is |a| mod |b| with the sign of the dividend. */
  lemma TruncRemSign(a: int, b: int)
    requires b != 0
    ensures TruncRem(a, b) == if a >= 0 then Abs(a) % Abs(b) else -(Abs(a) % Abs(b))
    ensures Abs(TruncRem(a, b)) <= Abs(a)
  {
    var x: int, y: int := Abs(a), Abs(b);
    var q := x / y;
    var p, d := y * q, TruncDiv(a, b);
    DivModEq(x, y);
    SignedProducts(y, q);
    if a >= 0 && b > 0 {
      assert d == q && b == y;
    } else if a >= 0 {
      assert d == -q && b == -y;
    } else if b > 0 {
      assert d == -q && b == y;
    } else {
      assert d == q && b == -y;
    }
    assert b * d == if a >= 0 then p else -p;
  }

  lemma UnsignedQuotient(x: Word, y: int)
    requires y > 0
    ensures 0 <= x / y < TWO64 && 0 <= x % y < TWO64
  {
    AbsQuotient(x, y);
    DivModEq(x, y);
  }

  lemma FloorSigned(a: Signed, d: int)
    requires d >= 1
    ensures -TWO63 <= a / d < TWO63
  {
    if a >= 0 {
      AbsQuotient(a, d);
    } else {
      FloorAtLeast(a, d);
    }
  }

  lemma FloorAtLeast(a: int, d: int)
    requires d >= 1 && a < 0
    ensures a <= a / d < 0 || d == 1
    ensures a <= a / d < TWO63
  {
    var q := a / d;
    assert a == d * q + a % d;
    assert q < 0;
    var m := -q;
    assert d * q == -(d * m) by { SignedProducts(d, m); }
    assert d * m >= m + (d - 1) by {
      assert d * m == m + (d - 1) * m by { Distribute(d, m); }
      assert (d - 1) * m >= d - 1 by { MulAtLeast(d - 1, m); }
    }
  }

  lemma Distribute(d: int, m: int)
    ensures d * m == m + (d - 1) * m
  {
  }

  lemma MulAtLeast(c: nat, m: int)
    requires m >= 1
    ensures c * m >= c
  {
  }

  lemma ShiftCount(n: int)
    requires 0 <= n < 64
    ensures n % 64 == n && Wrap(n) == n
  {
  }

  /** A folded result is what the target would have computed; in particular it did not trap. */
  lemma EvalBinopIsAlu(op: BinOp, a: Signed, b: Signed)
    ensures EvalBinop(op, a, b).Some? ==>
              Alu(op, U(a), U(b)) == Some(Wrap(EvalBinop(op, a, b).value))
  {
    WrapOfSigned(a);
    WrapOfSigned(b);
    match op
    case IDiv => if EvalBinop(op, a, b).Some? { assert U(b) != 0; }
    case IRem => if EvalBinop(op, a, b).Some? { assert U(b) != 0; }
    case UDiv => if b != 0 { UnsignedQuotient(U(a), U(b)); WrapWord(U(a) / U(b)); }
    case URem => if b != 0 { UnsignedQuotient(U(a), U(b)); WrapWord(U(a) % U(b)); }
    case Shr => if 0 <= b < 64 { UnsignedQuotient(U(a), Pow2(b)); WrapWord(U(a) / Pow2(b)); }
    case _ =>
  }

  /** Exactly what is not folded: operations that trap, and shifts by amounts outside 0..63. */
  lemma NotFoldedIff(op: BinOp, a: Signed, b: Signed)
    ensures EvalBinop(op, a, b).None? <==>
              Alu(op, U(a), U(b)).None? || ((op.Shl? || op.Shr? || op.Sar?) && !(0 <= b < 64))
  {
    WrapOfSigned(a);
    WrapOfSigned(b);
  }

  lemma EvalCmpIsCompare(c: CmpKind, a: Signed, b: Signed)
    ensures Wrap(EvalCmp(c, a, b)) == if Compare(c, U(a), U(b)) then 1 else 0
  {
    WrapOfSigned(a);
    WrapOfSigned(b);
  }

  // ----- identities -----

  datatype Side = Left | Right

  /** irEvalCanFold on the operation and the constant's side; `byval` is the destination's tag. */
  predicate IdentityFold(op: BinOp, k: Signed, side: Side, byval: bool)
  {
    && !byval
    && ( ((op.IMul? || op.IDiv? || op.UDiv?) && k == 1 && side.Right?)
      || ((op.IAdd? || op.ISub? || op.Or? || op.Xor? || op.Shl? || op.Shr? || op.Sar?) && k == 0 && side.Right?)
      || ((op.IAdd? || op.Or? || op.Xor?) && k == 0 && side.Left?)
      || (op.IMul? && k == 1 && side.Left?)
      || (op.And? && k == -1))
  }

  function Apply(op: BinOp, x: Word, k: Signed, side: Side): Option<Word>
  {
    if side.Right? then Alu(op, x, Wrap(k)) else Alu(op, Wrap(k), x)
  }

  /** Every identity the folder uses holds for every word. */
  lemma IdentityHolds(op: BinOp, x: Word, k: Signed, side: Side, byval: bool)
    requires IdentityFold(op, k, side, byval)
    ensures Apply(op, x, k, side) == Some(x)
  {
    WrapOfSigned(k);
    WrapWord(x);
    if op.And? {
      Pow2At64();
      BitAndOnes(x, 64);
      BitAndCommutes(x, TWO64 - 1);
    } else if op.IDiv? {
      var a := ToSigned(x);
      QuotientByOne(Abs(a));
      assert ToSigned(1) == 1;
      assert TruncDiv(a, 1) == a;
    } else if op.UDiv? {
      QuotientByOne(x);
    } else if op.Shl? || op.Shr? || op.Sar? {
      assert Pow2(0) == 1;
      assert 0 % 64 == 0;
      assert x * 1 == x && x / 1 == x && ToSigned(x) / 1 == ToSigned(x);
    }
  }

  /** x * 0 and x & 0 are 0 on either side. */
  lemma AbsorbingZero(op: BinOp, x: Word, side: Side)
    requires op.IMul? || op.And?
    ensures Apply(op, x, 0, side) == Some(0)
  {
  }

  predicate IsPositivePowerOfTwo(k: Signed)
  {
    k > 1 && BitAnd(k, k - 1) == 0
  }

  /** Multiplying by 2^n is shifting left by n = ctz(2^n). */
  lemma MulIsShift(x: Word, k: Signed)
    requires IsPositivePowerOfTwo(k)
    ensures 0 < TrailingZeros(k) < 64
    ensures Alu(IMul, x, Wrap(k)) == Alu(Shl, x, Wrap(TrailingZeros(k)))
  {
    hide BitAnd, TrailingZeros;
    PowerOfTwoTest(k);
    var n := TrailingZeros(k);
    ExponentRange(k, n);
    ShiftCount(n);
    assert Wrap(k) == k;
  }

  lemma ExponentRange(k: Signed, n: nat)
    requires k > 1 && n == TrailingZeros(k) && k == Pow2(n)
    ensures 0 < n < 64
  {
    Pow2At64();
    TrailingZerosBound(k, 64);
  }
}
