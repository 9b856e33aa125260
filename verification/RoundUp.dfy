/** roundUpToNextPowerOf2: the shift-and-or cascade computes the least power of two that is not smaller. */
module RoundUp {
  import opened Words
  import opened Arithmetic

  lemma QuotientNat(x: nat, d: nat)
    requires d > 0
    ensures x / d >= 0
  {
  }

  /** x | x >> w */
  function Smear(x: nat, w: nat): nat
  {
    QuotientNat(x, Pow2(w));
    BitOr(x, x / Pow2(w))
  }

  /** The cascade, with the wrap-around of unsigned decrement and increment. */
  function Rounded(v: Word): Word
  {
    var x := Wrap(v - 1);
    Wrap(Smear(Smear(Smear(Smear(Smear(Smear(x, 1), 2), 4), 8), 16), 32) + 1)
  }

  /** The top w of n bits are ones. */
  predicate TopOnes(x: int, n: nat, w: nat)
    requires w <= n
  {
    Pow2(n) - Pow2(n - w) <= x < Pow2(n)
  }

  function Min(a: nat, b: nat): nat { if a < b then a else b }

  lemma {:induction false} BitOrHigh(h: nat, r: nat, y: nat, m: nat)
    requires r < Pow2(m) && y < Pow2(m)
    ensures BitOr(h * Pow2(m) + r, y) == h * Pow2(m) + BitOr(r, y)
    decreases m
  {
    hide BitOr;
    if m > 0 {
      var q := h * Pow2(m - 1);
      Halve(h, m);
      BitOrHigh(h, r / 2, y / 2, m - 1);
      HalveSum(q, r);
      OrStep(2 * q + r, y);
      OrStep(r, y);
    }
  }

  lemma HalveSum(q: nat, r: nat)
    ensures (2 * q + r) / 2 == q + r / 2 && (2 * q + r) % 2 == r % 2
  {
  }

  lemma Halve(h: nat, m: nat)
    requires m > 0
    ensures h * Pow2(m) == 2 * (h * Pow2(m - 1))
  {
    assert h * (2 * Pow2(m - 1)) == 2 * (h * Pow2(m - 1));
  }

  lemma OrStep(a: nat, b: nat)
    ensures BitOr(a, b) == (if a % 2 == 1 || b % 2 == 1 then 1 else 0) + 2 * BitOr(a / 2, b / 2)
  {
  }

  lemma DivBounds(x: nat, d: nat, lo: nat, hi: nat)
    requires d > 0 && lo * d <= x < hi * d
    ensures lo <= x / d < hi
  {
    var q := x / d;
    assert q * d <= x < (q + 1) * d by { assert x == q * d + x % d; }
    MulLess(lo, q + 1, d);
    MulLess(q, hi, d);
  }

  lemma MulLess(a: nat, b: nat, d: nat)
    ensures a * d < b * d ==> a < b
  {
    if a >= b { assert a * d >= b * d; }
  }

  lemma Distribute(a: int, b: int, d: int)
    ensures (a - b) * d == a * d - b * d
  {
  }

  lemma Pow2Positive(n: nat)
    ensures Pow2(n) >= 1
  {
  }

  /** One step doubles the run of ones. */
  lemma SmearStep(x: nat, n: nat, w: nat)
    requires 1 <= w <= n && TopOnes(x, n, w)
    ensures TopOnes(Smear(x, w), n, Min(2 * w, n))
  {
    hide Pow2, BitOr;
    var m := n - w;
    var y := x / Pow2(w);
    Pow2Sum(w, m);
    Pow2Positive(w);
    var h := Pow2(w) - 1;
    Distribute(Pow2(w), 1, Pow2(m));
    var r := x - h * Pow2(m);
    Shifted(x, n, w);
    BitOrHigh(h, r, y, m);
    BitOrBound(r, y, m);
  }

  lemma Shifted(x: nat, n: nat, w: nat)
    requires 1 <= w <= n && TopOnes(x, n, w)
    ensures 0 <= x / Pow2(w) < Pow2(n - w) && x / Pow2(w) >= Pow2(n - w) - Pow2(n - Min(2 * w, n))
  {
    var m, d := n - w, Pow2(w);
    var k := n - Min(2 * w, n);
    Pow2Sum(m, w);
    Pow2Monotone(k, m);
    ShiftedLow(n, w);
    hide Pow2;
    DivBounds(x, d, Pow2(m) - Pow2(k), Pow2(m));
  }

  lemma ShiftedLow(n: nat, w: nat)
    requires 1 <= w <= n
    ensures (Pow2(n - w) - Pow2(n - Min(2 * w, n))) * Pow2(w) <= Pow2(n) - Pow2(n - w)
  {
    var m, d := n - w, Pow2(w);
    Pow2Sum(m, w);
    if 2 * w <= n {
      Pow2Sum(n - 2 * w, w);
    } else {
      Pow2Monotone(m, w);
      assert Pow2(0) == 1;
    }
    hide Pow2;
    Distribute(Pow2(m), Pow2(n - Min(2 * w, n)), d);
  }

  lemma {:induction false} BitLength(x: nat, bound: nat) returns (n: nat)
    requires 0 < x < Pow2(bound)
    ensures 1 <= n <= bound && Pow2(n - 1) <= x < Pow2(n)
    decreases bound
  {
    if x < Pow2(bound - 1) {
      n := BitLength(x, bound - 1);
    } else {
      n := bound;
    }
  }

  lemma CascadeFills(x: nat, n: nat)
    requires 1 <= n <= 64 && Pow2(n - 1) <= x < Pow2(n)
    ensures Smear(Smear(Smear(Smear(Smear(Smear(x, 1), 2), 4), 8), 16), 32) == Pow2(n) - 1
  {
    hide Smear, Pow2, TopOnes;
    TopBit(x, n);
    var x1 := Fill(x, n, 1);
    var x2 := Fill(x1, n, 2);
    var x3 := Fill(x2, n, 4);
    var x4 := Fill(x3, n, 8);
    var x5 := Fill(x4, n, 16);
    var x6 := Fill(x5, n, 32);
    AllOnes(x6, n);
  }

  lemma TopBit(x: nat, n: nat)
    requires 1 <= n && Pow2(n - 1) <= x < Pow2(n)
    ensures TopOnes(x, n, 1)
  {
  }

  lemma AllOnes(x: nat, n: nat)
    requires TopOnes(x, n, n)
    ensures x == Pow2(n) - 1
  {
  }

  /** A step whose run is already complete changes nothing. */
  lemma Fill(x: nat, n: nat, w: nat) returns (y: nat)
    requires 1 <= w && 1 <= n && TopOnes(x, n, Min(w, n))
    ensures y == Smear(x, w) && TopOnes(y, n, Min(2 * w, n))
  {
    y := Smear(x, w);
    if w <= n {
      SmearStep(x, n, w);
    } else {
      Pow2Monotone(n, w);
      hide Pow2;
      SmallQuotient(x, Pow2(w));
    }
  }

  /** Least power of two not below v, for every v from 1 to 2^63; 0 for the rest. */
  lemma RoundsUp(v: Word) returns (log: nat)
    ensures 1 <= v <= TWO63 ==>
      Rounded(v) == Pow2(log) && v <= Pow2(log) && log <= 63 && (log > 0 ==> Pow2(log - 1) < v)
    ensures v == 0 || v > TWO63 ==> Rounded(v) == 0
  {
    hide Smear, BitOr, Pow2, Wrap;
    Pow2At64();
    Decrement(v);
    var x := Wrap(v - 1);
    if x == 0 {
      log := 0;
      SmearZero();
      Increment(0);
      PowZero();
    } else {
      log := BitLength(x, 64);
      CascadeFills(x, log);
      Pow2Monotone(log - 1, 63);
      if log < 64 { Pow2Monotone(log, 63); }
      Increment(Pow2(log) - 1);
    }
  }

  lemma PowZero()
    ensures Pow2(0) == 1
  {
  }

  lemma Decrement(v: Word)
    ensures Wrap(v - 1) == if v == 0 then TWO64 - 1 else v - 1
  {
  }

  lemma Increment(x: Word)
    ensures Wrap(x + 1) == if x == TWO64 - 1 then 0 else x + 1
  {
  }

  lemma SmearZero()
    ensures Smear(Smear(Smear(Smear(Smear(Smear(0, 1), 2), 4), 8), 16), 32) == 0
  {
    assert forall w: nat :: Smear(0, w) == 0;
  }
}
