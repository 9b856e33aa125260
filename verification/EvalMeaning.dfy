/**
 What a folded constant is, said of the numbers the operands stand for: exact up to a multiple of 2^64 for sums,
 differences, products and left shifts, quotient and remainder by their defining equation, bit by bit for the logical
 operations. The operands determine the result, so no other constant would do.
 */
module EvalMeaning {
  import opened Options
  import opened Words
  import opened Ir
  import opened Evaluate

  /** a and b differ by a multiple of 2^64. */
  predicate Congruent(a: int, b: int)
  {
    (a - b) % TWO64 == 0
  }

  /** q is a / b rounded toward zero and r what is left. */
  predicate Truncated(a: int, b: int, q: int, r: int)
  {
    a == b * q + r && Abs(r) < Abs(b) && (r > 0 ==> a > 0) && (r < 0 ==> a < 0)
  }

  /** q is a / b rounded down and r what is left. */
  predicate Floored(a: int, b: int, q: int, r: int)
  {
    a == b * q + r && 0 <= r < b
  }

  ghost predicate Bitwise(op: BinOp, a: Word, b: Word, v: Word)
  {
    forall n: nat :: Bit(v, n) <==>
      match op
      case And => Bit(a, n) && Bit(b, n)
      case Or => Bit(a, n) || Bit(b, n)
      case _ => Bit(a, n) != Bit(b, n)
  }

  /** v is a op b. */
  ghost predicate Means(op: BinOp, a: Signed, b: Signed, v: Signed)
  {
    match op
    case IAdd => Congruent(v, a + b)
    case ISub => Congruent(v, a - b)
    case IMul => Congruent(v, a * b)
    case And => Bitwise(op, U(a), U(b), U(v))
    case Or => Bitwise(op, U(a), U(b), U(v))
    case Xor => Bitwise(op, U(a), U(b), U(v))
    case IDiv => exists r :: Truncated(a, b, v, r)
    case IRem => exists q :: Truncated(a, b, q, v)
    case UDiv => exists r :: Floored(U(a), U(b), U(v), r)
    case URem => exists q :: Floored(U(a), U(b), q, U(v))
    case Shl => 0 <= b < 64 && Congruent(v, a * Pow2(b))
    case Shr => 0 <= b < 64 && exists r :: Floored(U(a), Pow2(b), U(v), r)
    case Sar => 0 <= b < 64 && exists r :: Floored(a, Pow2(b), v, r)
  }

  lemma WrapCongruent(x: int)
    ensures Congruent(Wrap(x), x)
  {
    ModShift(0, -(x / TWO64));
  }

  lemma CongruentWraps(a: int, b: int)
    ensures Congruent(a, b) <==> Wrap(a) == Wrap(b)
  {
    var q := a / TWO64 - b / TWO64;
    assert a - b == q * TWO64 + (a % TWO64 - b % TWO64);
    ModShift(a % TWO64 - b % TWO64, q);
  }

  lemma SignedCongruent(x: int)
    ensures Congruent(ToSigned(Wrap(x)), x)
  {
    WrapCongruent(x);
    CongruentWraps(ToSigned(Wrap(x)), x);
  }

  lemma Multiple(x: int, q: int)
    ensures Congruent(x + q * TWO64, x)
  {
    ModShift(0, q);
  }

  lemma CongruentTransitive(a: int, b: int, c: int)
    requires Congruent(a, b) && Congruent(b, c)
    ensures Congruent(a, c)
  {
    CongruentWraps(a, b);
    CongruentWraps(b, c);
    CongruentWraps(a, c);
  }

  /** Reducing the factors first changes the product by a multiple of 2^64. */
  lemma ProductCongruent(a: int, b: int)
    ensures Congruent(Wrap(a) * b, a * b)
  {
    var q := a / TWO64;
    assert Wrap(a) == a - q * TWO64;
    assert Wrap(a) * b == a * b + (-q * b) * TWO64 by { Expand(a, q, b); }
    Multiple(a * b, -q * b);
  }

  lemma Expand(a: int, q: int, b: int)
    ensures (a - q * TWO64) * b == a * b + (-q * b) * TWO64
  {
    assert (a - q * TWO64) * b == a * b - q * TWO64 * b;
    assert q * TWO64 * b == (q * b) * TWO64;
    assert (-q * b) * TWO64 == -((q * b) * TWO64);
  }

  lemma Sums(a: Signed, b: Signed)
    ensures Congruent(ToSigned(Wrap(U(a) + U(b))), a + b) && Congruent(ToSigned(Wrap(U(a) - U(b))), a - b)
  {
    SignedCongruent(U(a) + U(b));
    SignedCongruent(U(a) - U(b));
    WrapAdd(a, b);
    WrapSub(a, b);
    CongruentWraps(U(a) + U(b), a + b);
    CongruentWraps(U(a) - U(b), a - b);
    CongruentTransitive(ToSigned(Wrap(U(a) + U(b))), U(a) + U(b), a + b);
    CongruentTransitive(ToSigned(Wrap(U(a) - U(b))), U(a) - U(b), a - b);
  }

  lemma Products(a: Signed, b: Signed, p: int)
    ensures Congruent(ToSigned(Wrap(U(a) * U(b))), a * b) && Congruent(ToSigned(Wrap(U(a) * p)), a * p)
  {
    SignedCongruent(U(a) * U(b));
    SignedCongruent(U(a) * p);
    ProductCongruent(a, U(b));
    ProductCongruent(b, a);
    ProductCongruent(a, p);
    assert a * U(b) == U(b) * a && a * b == b * a;
    CongruentTransitive(U(a) * U(b), a * U(b), a * b);
    CongruentTransitive(ToSigned(Wrap(U(a) * U(b))), U(a) * U(b), a * b);
    CongruentTransitive(ToSigned(Wrap(U(a) * p)), U(a) * p, a * p);
  }

  lemma TruncatedQuotient(a: int, b: int)
    requires b != 0
    ensures Truncated(a, b, TruncDiv(a, b), TruncRem(a, b))
  {
    TruncRemSign(a, b);
    DivModEq(Abs(a), Abs(b));
  }

  lemma FlooredQuotient(a: int, b: int)
    requires b > 0
    ensures Floored(a, b, a / b, a % b)
  {
  }

  lemma UnsignedFolded(x: Word, y: int)
    requires y > 0
    ensures 0 <= x / y < TWO64 && 0 <= x % y < TWO64
    ensures U(ToSigned(x / y)) == x / y && U(ToSigned(x % y)) == x % y
  {
    UnsignedQuotient(x, y);
  }

  lemma LogicalFolded(op: BinOp, a: Word, b: Word)
    requires op.And? || op.Or? || op.Xor?
    ensures Bitwise(op, a, b, if op.And? then BitAnd(a, b) else if op.Or? then WordOr(a, b) else WordXor(a, b))
  {
    hide Bit;
    forall n: nat {
      BitsOf(a, b, n);
    }
  }

  /** Every folded constant is what the operation means. */
  lemma FoldedMeans(op: BinOp, a: Signed, b: Signed)
    ensures var v := EvalBinop(op, a, b); v.Some? ==> Means(op, a, b, v.value)
  {
    hide Congruent, Truncated, Floored, Bitwise;
    var v := EvalBinop(op, a, b);
    if v.Some? {
      WrapOfSigned(b);
      match op
      case IAdd => Sums(a, b);
      case ISub => Sums(a, b);
      case IMul => Products(a, b, 0);
      case And => LogicalFolded(op, U(a), U(b));
      case Or => LogicalFolded(op, U(a), U(b));
      case Xor => LogicalFolded(op, U(a), U(b));
      case IDiv => TruncatedQuotient(a, b);
      case IRem => TruncatedQuotient(a, b);
      case UDiv => UnsignedFolded(U(a), U(b)); FlooredQuotient(U(a), U(b));
      case URem => UnsignedFolded(U(a), U(b)); FlooredQuotient(U(a), U(b));
      case Shl => Products(a, b, Pow2(b));
      case Shr => UnsignedFolded(U(a), Pow2(b)); FlooredQuotient(U(a), Pow2(b));
      case Sar => FlooredQuotient(a, Pow2(b));
    }
  }

  // ----- no other constant means the same -----

  lemma CongruentSigned(v: Signed, w: Signed, x: int)
    requires Congruent(v, x) && Congruent(w, x)
    ensures v == w
  {
    CongruentWraps(v, x);
    CongruentWraps(w, x);
    WrapOfSigned(v);
    WrapOfSigned(w);
  }

  lemma FlooredOnce(a: int, b: int, q: int, r: int)
    requires Floored(a, b, q, r)
    ensures q == a / b && r == a % b
  {
    QuotientIs(a, b, q, r);
  }

  lemma TruncatedOnce(a: int, b: int, q: int, r: int)
    requires Truncated(a, b, q, r)
    ensures b != 0 && q == TruncDiv(a, b) && r == TruncRem(a, b)
  {
    var y, p := Abs(b), if (a >= 0) == (b > 0) then q else -q;
    TruncatedParts(a, b, q, r);
    QuotientIs(Abs(a), y, p, Abs(r));
    assert q == TruncDiv(a, b);
  }

  lemma TruncatedParts(a: int, b: int, q: int, r: int)
    requires Truncated(a, b, q, r)
    ensures b != 0 && Abs(a) == Abs(b) * (if (a >= 0) == (b > 0) then q else -q) + Abs(r)
  {
    SignedProducts(b, q);
    SignedParts(a, b, b * q, r);
  }

  /** The signs of quotient and remainder are those of the operands. */
  lemma SignedParts(a: int, b: int, p: int, r: int)
    requires a == p + r && Abs(r) < Abs(b) && (r > 0 ==> a > 0) && (r < 0 ==> a < 0)
    ensures Abs(a) == (if a >= 0 then p else -p) + Abs(r)
  {
  }

  lemma BitwiseOnce(op: BinOp, a: Word, b: Word, v: Word, w: Word)
    requires Bitwise(op, a, b, v) && Bitwise(op, a, b, w)
    ensures v == w
  {
    hide Bit;
    SameBits(v, w);
  }

  lemma MeansOnce(op: BinOp, a: Signed, b: Signed, v: Signed, w: Signed)
    requires Means(op, a, b, v) && Means(op, a, b, w)
    ensures v == w
  {
    hide Congruent, Truncated, Floored, Bitwise;
    WrapOfSigned(v);
    WrapOfSigned(w);
    match op
    case IAdd => CongruentSigned(v, w, a + b);
    case ISub => CongruentSigned(v, w, a - b);
    case IMul => CongruentSigned(v, w, a * b);
    case And => BitwiseOnce(op, U(a), U(b), U(v), U(w));
    case Or => BitwiseOnce(op, U(a), U(b), U(v), U(w));
    case Xor => BitwiseOnce(op, U(a), U(b), U(v), U(w));
    case IDiv =>
      var r :| Truncated(a, b, v, r);
      var t :| Truncated(a, b, w, t);
      TruncatedOnce(a, b, v, r);
      TruncatedOnce(a, b, w, t);
    case IRem =>
      var q :| Truncated(a, b, q, v);
      var t :| Truncated(a, b, t, w);
      TruncatedOnce(a, b, q, v);
      TruncatedOnce(a, b, t, w);
    case UDiv =>
      var r :| Floored(U(a), U(b), U(v), r);
      var t :| Floored(U(a), U(b), U(w), t);
      FlooredOnce(U(a), U(b), U(v), r);
      FlooredOnce(U(a), U(b), U(w), t);
    case URem =>
      var q :| Floored(U(a), U(b), q, U(v));
      var t :| Floored(U(a), U(b), t, U(w));
      FlooredOnce(U(a), U(b), q, U(v));
      FlooredOnce(U(a), U(b), t, U(w));
    case Shl => CongruentSigned(v, w, a * Pow2(b));
    case Shr =>
      var r :| Floored(U(a), Pow2(b), U(v), r);
      var t :| Floored(U(a), Pow2(b), U(w), t);
      FlooredOnce(U(a), Pow2(b), U(v), r);
      FlooredOnce(U(a), Pow2(b), U(w), t);
    case Sar =>
      var r :| Floored(a, Pow2(b), v, r);
      var t :| Floored(a, Pow2(b), w, t);
      FlooredOnce(a, Pow2(b), v, r);
      FlooredOnce(a, Pow2(b), w, t);
  }

  /** An operation on constants folds to v exactly if v is what it means; only INT64_MIN / -1 and INT64_MIN % -1 are
      left alone although the numbers would have a remainder. */
  lemma FoldsToIff(op: BinOp, a: Signed, b: Signed, v: Signed)
    ensures EvalBinop(op, a, b) == Some(v) <==>
              Means(op, a, b, v) && !((op.IDiv? || op.IRem?) && a == -TWO63 && b == -1)
  {
    hide Congruent, Truncated, Floored, Bitwise;
    WrapOfSigned(b);
    if EvalBinop(op, a, b).Some? {
      FoldedMeans(op, a, b);
      if Means(op, a, b, v) { MeansOnce(op, a, b, v, EvalBinop(op, a, b).value); }
    } else {
      if b == 0 { NothingByZero(a, b, v); }
    }
  }

  lemma NothingByZero(a: Signed, b: Signed, v: Signed)
    requires b == 0
    ensures forall op: BinOp :: (op.IDiv? || op.IRem? || op.UDiv? || op.URem?) ==> !Means(op, a, b, v)
  {
  }
}
