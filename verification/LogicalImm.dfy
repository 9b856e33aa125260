/**
 aarch64IsLogicalImm against the Arm Architecture Reference Manual's DecodeBitMasks: a logical immediate
 is an element of 2, 4, 8, 16, 32 or 64 bits, itself a rotated run of ones, repeated over the word.
 Words are sequences of bits, least significant first.
 */
module LogicalImm {
  import opened Arithmetic

  // ----- the architecture's definition -----

  /** Bit i of the run of s+1 ones rotated right by r in an element of n bits. */
  predicate RunBit(n: int, s: int, r: int, i: int)
    requires n > 0
  {
    (i + r) % n <= s
  }

  /** The element is a rotation of a run of ones, neither empty nor full. */
  ghost predicate RotatedRun(e: seq<bool>)
  {
    |e| > 0 && exists s, r :: Rotation(e, s, r)
  }

  predicate Rotation(e: seq<bool>, s: int, r: int)
    requires |e| > 0
  {
    0 <= s < |e| - 1 && 0 <= r < |e| && forall i :: 0 <= i < |e| ==> e[i] == RunBit(|e|, s, r, i)
  }

  predicate ElementSize(n: int)
  {
    n == 2 || n == 4 || n == 8 || n == 16 || n == 32 || n == 64
  }

  predicate Repeats(v: seq<bool>, n: int)
  {
    0 < n <= |v| && forall i :: 0 <= i < |v| ==> v[i] == v[i % n]
  }

  ghost predicate EncodableAt(v: seq<bool>, n: int)
  {
    ElementSize(n) && n <= |v| && Repeats(v, n) && RotatedRun(v[..n])
  }

  /** DecodeBitMasks can produce v. */
  ghost predicate Encodable(v: seq<bool>)
  {
    exists n :: EncodableAt(v, n)
  }

  // ----- counting and rotating -----

  function Ones(e: seq<bool>): (n: nat)
    ensures n <= |e|
  {
    if e == [] then 0 else (if e[0] then 1 else 0) + Ones(e[1..])
  }

  lemma {:induction false} OnesAppend(a: seq<bool>, b: seq<bool>)
    ensures Ones(a + b) == Ones(a) + Ones(b)
    decreases |a|
  {
    if a == [] {
      assert a + b == b;
    } else {
      OnesAppend(a[1..], b);
      assert (a + b)[1..] == a[1..] + b;
    }
  }

  /** Rotation right by k, and the word with the low n bits set. */
  function Rotate(e: seq<bool>, k: nat): seq<bool>
    requires k <= |e|
  {
    e[k..] + e[..k]
  }

  function Low(size: nat, n: nat): (r: seq<bool>)
    ensures |r| == size && forall i :: 0 <= i < size ==> r[i] == (i < n)
  {
    seq(size, i => i < n)
  }

  lemma {:induction false} RotateKeepsOnes(e: seq<bool>, k: nat)
    requires k <= |e|
    ensures Ones(Rotate(e, k)) == Ones(e)
  {
    hide Ones;
    OnesAppend(e[k..], e[..k]);
    OnesAppend(e[..k], e[k..]);
    assert e == e[..k] + e[k..];
  }

  lemma {:induction false} LowOnes(size: nat, n: nat)
    requires n <= size
    ensures Ones(Low(size, n)) == n
    decreases size
  {
    if size > 0 {
      LowOnes(size - 1, if n == 0 then 0 else n - 1);
      assert Low(size, n)[1..] == Low(size - 1, if n == 0 then 0 else n - 1);
    }
  }

  lemma ModSum(n: int, a: int, b: int)
    requires 0 <= a < n && 0 <= b < n
    ensures (a + b) % n == if a + b < n then a + b else a + b - n
  {
    if a + b < n {
      SmallQuotient(a + b, n);
    } else {
      SmallQuotient(a + b - n, n);
      assert (a + b - n + n) % n == (a + b - n) % n by { AddModulus(a + b - n, n); }
    }
  }

  lemma AddModulus(a: int, n: int)
    requires 0 <= a < n
    ensures (a + n) % n == a % n
  {
    Residue(1, n, a);
  }

  /** The rotation that undoes r. */
  function Back(n: nat, r: nat): nat
    requires r < n
  {
    if r == 0 then 0 else n - r
  }

  /** An element rotates to a low run exactly when it is a rotated run. */
  lemma RunIsRotation(e: seq<bool>, k: nat, s: nat)
    requires k < |e| && s < |e| - 1
    ensures Rotate(e, k) == Low(|e|, s + 1) <==> Rotation(e, s, Back(|e|, k))
  {
    var n, r := |e|, Back(|e|, k);
    if Rotate(e, k) == Low(n, s + 1) {
      forall i | 0 <= i < n ensures e[i] == RunBit(n, s, r, i) {
        ModSum(n, i, r);
        var j := if i >= k then i - k else i + n - k;
        assert Rotate(e, k)[j] == e[i];
      }
    }
    if Rotation(e, s, r) {
      forall j | 0 <= j < n ensures Rotate(e, k)[j] == (j < s + 1) {
        var i := if j + k < n then j + k else j + k - n;
        ModSum(n, i, r);
        assert Rotate(e, k)[j] == e[i] == RunBit(n, s, r, i);
      }
    }
  }

  /** The code's test for one element: with as many low ones as the element has, some rotation matches. */
  ghost predicate Matches(e: seq<bool>)
  {
    0 < Ones(e) < |e| && exists k :: 0 <= k < |e| && RotatesTo(e, k, Ones(e))
  }

  predicate RotatesTo(e: seq<bool>, k: int, ones: nat)
  {
    0 <= k <= |e| && Rotate(e, k) == Low(|e|, ones)
  }

  lemma MatchesExactly(e: seq<bool>)
    ensures Matches(e) <==> RotatedRun(e)
  {
    if Matches(e) {
      var k :| 0 <= k < |e| && RotatesTo(e, k, Ones(e));
      RunIsRotation(e, k, Ones(e) - 1);
      assert Rotation(e, Ones(e) - 1, Back(|e|, k));
    }
    if RotatedRun(e) {
      var s, r :| Rotation(e, s, r);
      var k := Back(|e|, r);
      assert Back(|e|, k) == r;
      RunIsRotation(e, k, s);
      RotateKeepsOnes(e, k);
      LowOnes(|e|, s + 1);
      assert RotatesTo(e, k, Ones(e));
    }
  }

  // ----- the loops -----

  /** Repeats the element over the width and compares. */
  method RepeatsElement(v: seq<bool>, size: nat) returns (ok: bool)
    requires 0 < size <= |v| && |v| % size == 0
    ensures ok <==> Repeats(v, size)
  {
    var e := v[..size];
    var r: seq<bool> := [];
    ghost var m := 0;
    while |r| < |v|
      invariant |r| == m * size && |r| <= |v|
      invariant forall i :: 0 <= i < |r| ==> r[i] == v[i % size]
    {
      NextMultiple(|v|, size, m);
      ghost var before := r;
      r := r + e;
      forall i | 0 <= i < |r| ensures r[i] == v[i % size] {
        if i >= |before| {
          Residue(m, size, i - |before|);
        }
      }
      m := m + 1;
    }
    ok := r == v;
  }

  lemma NextMultiple(w: nat, size: nat, m: nat)
    requires size > 0 && w % size == 0 && m * size < w
    ensures m * size + size == (m + 1) * size <= w
  {
    var q := w / size;
    assert w == q * size;
    MulMono(q, m, size);
    MulMono(m + 1, q, size);
  }

  lemma Residue(m: nat, size: nat, k: nat)
    requires k < size
    ensures (m * size + k) % size == k
  {
    var q, r := (m * size + k) / size, (m * size + k) % size;
    assert m * size + k == q * size + r;
    if q < m { MulMono(q + 1, m, size); } else if q > m { MulMono(m + 1, q, size); }
  }

  /** Adds up the low bit while shifting right. */
  method CountOnes(e: seq<bool>) returns (ones: nat)
    ensures ones == Ones(e)
  {
    ones := 0;
    var tmp := e;
    while exists i :: 0 <= i < |tmp| && tmp[i]
      invariant ones + Ones(tmp) == Ones(e)
      decreases |tmp|
    {
      ones := ones + (if tmp[0] then 1 else 0);
      tmp := tmp[1..];
    }
    NoneLeft(tmp);
  }

  lemma {:induction false} NoneLeft(e: seq<bool>)
    requires forall i :: 0 <= i < |e| ==> !e[i]
    ensures Ones(e) == 0
    decreases |e|
  {
    if e != [] { NoneLeft(e[1..]); }
  }

  /** Rotates the element one bit at a time until it is the low run. */
  method FindRotation(e0: seq<bool>, ones: nat) returns (found: bool)
    requires |e0| > 0
    ensures found <==> exists k :: 0 <= k < |e0| && RotatesTo(e0, k, ones)
  {
    var target, e := Low(|e0|, ones), e0;
    var rot := 0;
    while rot < |e0|
      invariant 0 <= rot <= |e0| && |e| == |e0| && e == Rotate(e0, rot)
      invariant forall k :: 0 <= k < rot ==> !RotatesTo(e0, k, ones)
    {
      if e == target {
        assert RotatesTo(e0, rot, ones);
        return true;
      }
      e := e[1..] + [e[0]];
      assert e == Rotate(e0, rot + 1);
      rot := rot + 1;
    }
    return false;
  }

  /** aarch64IsLogicalImm; in 32-bit mode only the low half counts. */
  method IsLogicalImm(imm: seq<bool>, is64: bool) returns (yes: bool)
    requires |imm| == 64
    ensures yes <==> Encodable(if is64 then imm else imm[..32])
  {
    hide Repeats, RotatedRun, Ones, Low;
    var v := if is64 then imm else imm[..32];
    if forall i :: 0 <= i < |imm| ==> !imm[i] {
      NotConstant(v, false);
      return false;
    }
    if is64 && forall i :: 0 <= i < |v| ==> v[i] {
      NotConstant(v, true);
      return false;
    }
    var size := 2;
    while size <= |v|
      invariant size == 128 || (ElementSize(size) && |v| % size == 0) || (size == 64 && |v| == 32)
      invariant forall n :: ElementSize(n) && n < size ==> !EncodableAt(v, n)
      decreases 128 - size
    {
      yes := TryElement(v, size);
      if yes { return; }
      size := size * 2;
    }
    yes := false;
  }

  method TryElement(v: seq<bool>, size: nat) returns (yes: bool)
    requires ElementSize(size) && size <= |v| && |v| % size == 0
    ensures yes <==> EncodableAt(v, size)
  {
    hide Ones;
    var e := v[..size];
    MatchesExactly(e);
    var repeats := RepeatsElement(v, size);
    if !repeats { return false; }
    var ones := CountOnes(e);
    if ones == 0 || ones == size { return false; }
    yes := FindRotation(e, ones);
  }

  /** A word of equal bits has no element that is a run. */
  lemma NotConstant(v: seq<bool>, b: bool)
    requires forall i :: 0 <= i < |v| ==> v[i] == b
    ensures !Encodable(v)
  {
    if n :| EncodableAt(v, n) {
      var e := v[..n];
      assert forall i :: 0 <= i < n ==> e[i] == b;
      MatchesExactly(e);
      if b { AllOnes(e); } else { NoneLeft(e); }
    }
  }

  lemma {:induction false} AllOnes(e: seq<bool>)
    requires forall i :: 0 <= i < |e| ==> e[i]
    ensures Ones(e) == |e|
    decreases |e|
  {
    if e != [] { AllOnes(e[1..]); }
  }
}
