/**
 Machine words of the IR: 64-bit two's complement values as integers in [0, 2^64),
 the arithmetic the target performs on them, and the signed view a constant operand carries.
 */
module Words {

  const TWO64: int := 0x1_0000_0000_0000_0000
  const TWO63: int := 0x8000_0000_0000_0000

  type Word = w: int | 0 <= w < 0x1_0000_0000_0000_0000

  /** The values of the C type `s64`. */
  type Signed = k: int | -0x8000_0000_0000_0000 <= k < 0x8000_0000_0000_0000

  function Wrap(x: int): (w: Word)
  {
    x % TWO64
  }

  function ToSigned(w: Word): (k: Signed)
    ensures Wrap(k) == w
  {
    if w < TWO63 then w else w - TWO64
  }

  lemma WrapWord(w: Word)
    ensures Wrap(w) == w
  {
  }

  lemma WrapOfSigned(k: Signed)
    ensures Wrap(k) == if k < 0 then k + TWO64 else k
    ensures ToSigned(Wrap(k)) == k
  {
  }

  function Pow2(n: nat): (p: int)
    ensures p >= 1
    ensures n >= 1 ==> p % 2 == 0
  {
    if n == 0 then 1 else 2 * Pow2(n - 1)
  }

  lemma {:induction false} Pow2Sum(m: nat, n: nat)
    ensures Pow2(m + n) == Pow2(m) * Pow2(n)
  {
    if m == 0 {
    } else {
      Pow2Sum(m - 1, n);
      assert Pow2(m + n) == 2 * Pow2((m - 1) + n);
      DoubleProduct(Pow2(m - 1), Pow2(n));
    }
  }

  lemma DoubleProduct(a: int, b: int)
    ensures (2 * a) * b == 2 * (a * b)
  {
  }

  lemma {:induction false} Pow2Monotone(m: nat, n: nat)
    requires m <= n
    ensures Pow2(m) <= Pow2(n)
    decreases n - m
  {
    if m < n {
      Pow2Monotone(m + 1, n);
    }
  }

  lemma Pow2At64()
    ensures Pow2(64) == TWO64 && Pow2(63) == TWO63
  {
    var n := 15;
    assert Pow2(n) == 0x8000;
    Pow2Sum(n, n);
    assert Pow2(n + n) == 0x4000_0000;
    Pow2Sum(n + n, n + n);
    assert Pow2(60) == 0x1000_0000_0000_0000;
    assert Pow2(63) == 8 * Pow2(60) && Pow2(64) == 2 * Pow2(63);
  }

  // ----- bitwise operations, bit by bit from the least significant end -----

  function BitAnd(a: nat, b: nat): (r: nat)
    ensures r <= a && r <= b
    decreases a
  {
    if a == 0 || b == 0 then 0
    else (if a % 2 == 1 && b % 2 == 1 then 1 else 0) + 2 * BitAnd(a / 2, b / 2)
  }

  function BitOr(a: nat, b: nat): (r: nat)
    ensures r >= a && r >= b && r <= a + b
    decreases a
  {
    if a == 0 then b else if b == 0 then a
    else (if a % 2 == 1 || b % 2 == 1 then 1 else 0) + 2 * BitOr(a / 2, b / 2)
  }

  function BitXor(a: nat, b: nat): (r: nat)
    ensures r <= BitOr(a, b)
    decreases a
  {
    if a == 0 then b else if b == 0 then a
    else (if a % 2 != b % 2 then 1 else 0) + 2 * BitXor(a / 2, b / 2)
  }

  /** Bit n of a, the least significant one being bit 0. */
  predicate Bit(a: nat, n: nat)
  {
    a / Pow2(n) % 2 == 1
  }

  lemma QuotientTwice(a: nat, p: int)
    requires p >= 1
    ensures a / (2 * p) == a / 2 / p
  {
    var q, r := a / 2 / p, a / 2 % p;
    assert a / 2 == p * q + r;
    assert 2 * p * q == 2 * (p * q);
    var x := 2 * r + a % 2;
    assert a == (2 * p) * q + x && 0 <= x < 2 * p;
    QuotientIs(a, 2 * p, q, x);
  }

  lemma QuotientIs(a: int, d: int, q: int, r: int)
    requires a == d * q + r && 0 <= r < d
    ensures a / d == q && a % d == r
  {
    var e := a / d - q;
    assert a == d * (a / d) + a % d;
    assert d * e == r - a % d;
    if e >= 1 { MulAtLeastOne(d, e); } else if e <= -1 { MulAtLeastOne(d, -e); }
  }

  lemma MulAtLeastOne(d: int, e: int)
    requires d > 0 && e >= 1
    ensures d * e >= d && d * (-e) == -(d * e)
  {
  }

  lemma BitOfHalf(a: nat, n: nat)
    requires n > 0
    ensures Bit(a, n) <==> Bit(a / 2, n - 1)
  {
    QuotientTwice(a, Pow2(n - 1));
  }

  lemma BitZero(a: nat)
    ensures Bit(a, 0) <==> a % 2 == 1
  {
    assert Pow2(0) == 1 && a / 1 == a;
  }

  lemma NoBits(n: nat)
    ensures !Bit(0, n)
  {
  }

  lemma LastBits(a: nat, b: nat)
    ensures BitAnd(a, b) / 2 == BitAnd(a / 2, b / 2) && (BitAnd(a, b) % 2 == 1 <==> a % 2 == 1 && b % 2 == 1)
    ensures BitOr(a, b) / 2 == BitOr(a / 2, b / 2) && (BitOr(a, b) % 2 == 1 <==> a % 2 == 1 || b % 2 == 1)
    ensures BitXor(a, b) / 2 == BitXor(a / 2, b / 2) && (BitXor(a, b) % 2 == 1 <==> a % 2 != b % 2)
  {
    if a != 0 && b != 0 {
      LastAndRest(if a % 2 == 1 && b % 2 == 1 then 1 else 0, BitAnd(a / 2, b / 2));
      LastAndRest(if a % 2 == 1 || b % 2 == 1 then 1 else 0, BitOr(a / 2, b / 2));
      LastAndRest(if a % 2 != b % 2 then 1 else 0, BitXor(a / 2, b / 2));
    } else {
      NothingOnOneSide(a, b);
    }
  }

  lemma LastAndRest(last: nat, rest: nat)
    requires last <= 1
    ensures (last + 2 * rest) / 2 == rest && (last + 2 * rest) % 2 == last
  {
  }

  lemma NothingOnOneSide(a: nat, b: nat)
    requires a == 0 || b == 0
    ensures BitAnd(a, b) == 0 && BitAnd(a / 2, b / 2) == 0
    ensures BitOr(a, b) == a + b && BitOr(a / 2, b / 2) == a / 2 + b / 2
    ensures BitXor(a, b) == a + b && BitXor(a / 2, b / 2) == a / 2 + b / 2
  {
  }

  /** Every bit of a conjunction, a disjunction and an exclusive or is that of the operands' bits. */
  lemma {:induction false} BitsOf(a: nat, b: nat, n: nat)
    ensures Bit(BitAnd(a, b), n) <==> Bit(a, n) && Bit(b, n)
    ensures Bit(BitOr(a, b), n) <==> Bit(a, n) || Bit(b, n)
    ensures Bit(BitXor(a, b), n) <==> Bit(a, n) != Bit(b, n)
    decreases n
  {
    hide Bit;
    NoBits(n);
    if a != 0 && b != 0 {
      LastBits(a, b);
      var c, d, e := BitAnd(a, b), BitOr(a, b), BitXor(a, b);
      hide BitAnd, BitOr, BitXor;
      if n == 0 {
        BitZero(a); BitZero(b); BitZero(c); BitZero(d); BitZero(e);
      } else {
        BitOfHalf(a, n); BitOfHalf(b, n); BitOfHalf(c, n); BitOfHalf(d, n); BitOfHalf(e, n);
        BitsOf(a / 2, b / 2, n - 1);
      }
    }
  }

  /** Numbers with the same bits are the same. */
  lemma {:induction false} SameBits(a: nat, b: nat)
    requires forall n: nat :: Bit(a, n) <==> Bit(b, n)
    ensures a == b
    decreases a + b
  {
    hide Bit;
    BitZero(a);
    BitZero(b);
    assert Bit(a, 0) <==> Bit(b, 0);
    if a + b > 0 {
      forall n: nat ensures Bit(a / 2, n) <==> Bit(b / 2, n) {
        BitOfHalf(a, n + 1);
        BitOfHalf(b, n + 1);
      }
      SameBits(a / 2, b / 2);
    }
  }

  lemma {:induction false} BitOrBound(a: nat, b: nat, n: nat)
    requires a < Pow2(n) && b < Pow2(n)
    ensures BitOr(a, b) < Pow2(n)
    decreases n
  {
    if a == 0 || b == 0 {
    } else {
      BitOrBound(a / 2, b / 2, n - 1);
    }
  }

  /** Masking with n one bits keeps the low n bits. */
  lemma {:induction false} BitAndOnes(a: nat, n: nat)
    requires a < Pow2(n)
    ensures BitAnd(a, Pow2(n) - 1) == a
    decreases n
  {
    if a == 0 {
    } else {
      BitAndOnes(a / 2, n - 1);
      assert (Pow2(n) - 1) / 2 == Pow2(n - 1) - 1;
    }
  }

  lemma {:induction false} BitAndCommutes(a: nat, b: nat)
    ensures BitAnd(a, b) == BitAnd(b, a)
    decreases a
  {
    if a == 0 || b == 0 {
    } else {
      BitAndCommutes(a / 2, b / 2);
    }
  }

  lemma {:induction false} BitAndSelf(a: nat)
    ensures BitAnd(a, a) == a
    decreases a
  {
    if a > 0 {
      BitAndSelf(a / 2);
    }
  }

  /** Number of trailing zero bits (`__builtin_ctzll`), for a non-zero argument. */
  function TrailingZeros(k: nat): (n: nat)
    requires k > 0
    decreases k
  {
    if k % 2 == 1 then 0 else 1 + TrailingZeros(k / 2)
  }

  /** The test `(k & (k - 1)) == 0` singles out the powers of two, and ctz is then the exponent. */
  lemma {:induction false} PowerOfTwoTest(k: nat)
    requires k > 0
    ensures BitAnd(k, k - 1) == 0 <==> k == Pow2(TrailingZeros(k))
    decreases k
  {
    if k == 1 {
    } else if k % 2 == 1 {
      assert (k - 1) / 2 == k / 2;
      BitAndSelf(k / 2);
    } else {
      assert (k - 1) / 2 == k / 2 - 1;
      PowerOfTwoTest(k / 2);
      assert BitAnd(k, k - 1) == 2 * BitAnd(k / 2, k / 2 - 1);
    }
  }

  lemma {:induction false} TrailingZerosBound(k: nat, n: nat)
    requires 0 < k < Pow2(n)
    ensures TrailingZeros(k) < n
    decreases n
  {
    if k % 2 == 0 {
      TrailingZerosBound(k / 2, n - 1);
    }
  }

  // ----- modular arithmetic -----

  lemma ModShift(x: int, q: int)
    ensures (x + q * TWO64) % TWO64 == x % TWO64
  {
    var d, m := x / TWO64, x % TWO64;
    assert x + q * TWO64 == (d + q) * TWO64 + m;
  }

  lemma WrapAdd(a: int, b: int)
    ensures Wrap(Wrap(a) + Wrap(b)) == Wrap(a + b)
    ensures Wrap(Wrap(a) + b) == Wrap(a + b)
    ensures Wrap(a + Wrap(b)) == Wrap(a + b)
  {
    ModShift(a + b, -(a / TWO64) - (b / TWO64));
    ModShift(a + b, -(a / TWO64));
    ModShift(a + b, -(b / TWO64));
    assert Wrap(a) == a - (a / TWO64) * TWO64;
    assert Wrap(b) == b - (b / TWO64) * TWO64;
  }

  lemma WrapSub(a: int, b: int)
    ensures Wrap(Wrap(a) - Wrap(b)) == Wrap(a - b)
  {
    ModShift(a - b, -(a / TWO64) + (b / TWO64));
    assert Wrap(a) == a - (a / TWO64) * TWO64;
    assert Wrap(b) == b - (b / TWO64) * TWO64;
  }

  /** C division: the quotient is truncated toward zero. */
  function TruncDiv(a: int, b: int): (q: int)
    requires b != 0
  {
    if (a >= 0) == (b > 0) then Abs(a) / Abs(b) else -(Abs(a) / Abs(b))
  }

  function TruncRem(a: int, b: int): (r: int)
    requires b != 0
  {
    a - b * TruncDiv(a, b)
  }

  function Abs(a: int): (r: nat)
  {
    if a < 0 then -a else a
  }
}
