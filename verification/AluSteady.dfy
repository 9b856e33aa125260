/**
 When an operation gives back one of its operands whatever the operands are: the identities the folder
 knows, the idempotent operations, shifts by multiples of 64, and operations that can only trap.
 */
module AluSteady {
  import opened Options
  import opened Words
  import opened Arithmetic
  import opened Ir
  import opened Evaluate

  /** An operand seen from one variable: the variable itself, something independent of it, or a constant. */
  datatype Arg = Itself | Other | Fixed(k: Word)

  function Value(x: Arg, w: Word, z: Word): Word
  {
    match x
    case Itself => w
    case Other => z
    case Fixed(k) => k
  }

  predicate IdentityRight(op: BinOp, k: Word)
  {
    match op
    case IAdd => k == 0
    case ISub => k == 0
    case Or => k == 0
    case Xor => k == 0
    case IMul => k == 1
    case IDiv => k == 1
    case UDiv => k == 1
    case And => k == TWO64 - 1
    case Shl => k % 64 == 0
    case Shr => k % 64 == 0
    case Sar => k % 64 == 0
    case _ => false
  }

  predicate IdentityLeft(op: BinOp, k: Word)
  {
    match op
    case IAdd => k == 0
    case Or => k == 0
    case Xor => k == 0
    case IMul => k == 1
    case And => k == TWO64 - 1
    case _ => false
  }

  predicate OnlyTraps(op: BinOp, x: Arg, y: Arg)
  {
    (Divides(op) && y == Fixed(0)) || (x.Fixed? && y.Fixed? && Alu(op, x.k, y.k).None?)
  }

  /** The result, if there is one, is the variable's own value. */
  predicate Steady(op: BinOp, x: Arg, y: Arg)
  {
    || OnlyTraps(op, x, y)
    || (x.Itself? && y.Itself? && (op.And? || op.Or?))
    || (x.Itself? && y.Fixed? && IdentityRight(op, y.k))
    || (x.Fixed? && y.Itself? && IdentityLeft(op, x.k))
  }

  predicate GivesBack(op: BinOp, x: Arg, y: Arg, w: Word, z: Word)
  {
    var r := Alu(op, Value(x, w, z), Value(y, w, z));
    r.None? || r.value == w
  }

  lemma {:induction false} BitOrSelf(a: nat)
    ensures BitOr(a, a) == a
    decreases a
  {
    if a > 0 { BitOrSelf(a / 2); }
  }

  lemma Ones(k: Word)
    ensures BitAnd(k, TWO64 - 1) == k && BitAnd(TWO64 - 1, k) == k
  {
    Pow2At64();
    BitAndOnes(k, 64);
    BitAndCommutes(k, TWO64 - 1);
  }

  lemma ShiftByNothing(op: BinOp, w: Word)
    requires op.Shl? || op.Shr? || op.Sar?
    ensures Alu(op, w, 0) == Some(w)
  {
    assert Pow2(0) == 1;
    assert w * 1 == w && w / 1 == w && ToSigned(w) / 1 == ToSigned(w);
  }

  lemma DivideByOne(op: BinOp, w: Word)
    requires op.IDiv? || op.UDiv?
    ensures Alu(op, w, 1) == Some(w)
  {
    assert ToSigned(1) == 1;
    QuotientByOne(if op.IDiv? then Abs(ToSigned(w)) else w);
  }

  lemma SteadyRight(op: BinOp, k: Word, w: Word)
    requires IdentityRight(op, k)
    ensures GivesBack(op, Itself, Fixed(k), w, 0)
  {
    if op.And? {
      Ones(w);
    } else if op.Shl? || op.Shr? || op.Sar? {
      hide Alu;
      ShiftByNothing(op, w);
    } else if op.IDiv? || op.UDiv? {
      hide Alu;
      DivideByOne(op, w);
    }
  }

  lemma SteadyGivesBack(op: BinOp, x: Arg, y: Arg, w: Word, z: Word)
    requires Steady(op, x, y)
    ensures GivesBack(op, x, y, w, z)
  {
    if OnlyTraps(op, x, y) {
    } else if x.Itself? && y.Itself? {
      BitAndSelf(w);
      BitOrSelf(w);
    } else if x.Itself? {
      SteadyRight(op, y.k, w);
    } else if op.And? {
      Ones(w);
    }
  }

  // ----- and nothing else does -----

  lemma SumTable()
    ensures Alu(IAdd, 0, 1) == Some(1) && Alu(IAdd, 1, 0) == Some(1) && Alu(IAdd, 1, 1) == Some(2)
    ensures Alu(ISub, 0, 1) == Some(TWO64 - 1) && Alu(ISub, 1, 0) == Some(1) && Alu(ISub, 1, 1) == Some(0)
    ensures Alu(IMul, 1, 2) == Some(2) && Alu(IMul, 2, 1) == Some(2) && Alu(IMul, 2, 2) == Some(4)
  {
  }

  lemma BitTable()
    ensures Alu(And, 0, 1) == Some(0) && Alu(And, 1, 0) == Some(0)
    ensures Alu(Or, 0, 1) == Some(1) && Alu(Or, 1, 0) == Some(1)
    ensures Alu(Xor, 0, 1) == Some(1) && Alu(Xor, 1, 0) == Some(1) && Alu(Xor, 1, 1) == Some(0)
  {
  }

  lemma QuotientTable()
    ensures Alu(UDiv, 2, 2) == Some(1) && Alu(URem, 2, 2) == Some(0) && Alu(URem, 1, 1) == Some(0)
    ensures Alu(IDiv, 2, 2) == Some(1) && Alu(IRem, 2, 2) == Some(0) && Alu(IRem, 1, 1) == Some(0)
  {
    assert 2 / 2 == 1 && 1 / 1 == 1;
    assert TruncDiv(2, 2) == 1 && TruncDiv(1, 1) == 1;
    assert TruncRem(2, 2) == 0 && TruncRem(1, 1) == 0;
    assert ToSigned(2) == 2 && ToSigned(1) == 1;
  }

  lemma ShiftTable()
    ensures Alu(Shl, 1, 1) == Some(2) && Alu(Shr, 1, 1) == Some(0) && Alu(Sar, 1, 1) == Some(0)
  {
    assert Pow2(1) == 2 && ToSigned(1) == 1;
  }

  lemma BothItself(op: BinOp) returns (w: Word)
    requires !op.And? && !op.Or?
    ensures !GivesBack(op, Itself, Itself, w, 0)
  {
    hide Alu;
    SumTable();
    BitTable();
    QuotientTable();
    ShiftTable();
    w := if op.IMul? || op.IDiv? || op.UDiv? then 2 else 1;
  }

  /** A value of the variable and one of the other operand that show the difference. */
  function Breaker(op: BinOp): (Word, Word)
  {
    if op.IMul? then (1, 2)
    else if op.And? then (1, 0)
    else if Divides(op) then (2, 2)
    else if op.Shl? || op.Shr? || op.Sar? then (1, 1)
    else (0, 1)
  }

  lemma ItselfOther(op: BinOp) returns (w: Word, z: Word)
    ensures !GivesBack(op, Itself, Other, w, z)
  {
    hide Alu;
    SumTable();
    BitTable();
    QuotientTable();
    ShiftTable();
    w, z := Breaker(op).0, Breaker(op).1;
  }

  lemma OtherItself(op: BinOp) returns (w: Word, z: Word)
    ensures !GivesBack(op, Other, Itself, w, z)
  {
    hide Alu;
    SumTable();
    BitTable();
    QuotientTable();
    ShiftTable();
    w, z := Breaker(op).0, Breaker(op).1;
  }

  /** A result that does not depend on the variable differs from some value of it. */
  lemma NotItself(op: BinOp, x: Arg, y: Arg) returns (w: Word)
    requires !x.Itself? && !y.Itself? && !OnlyTraps(op, x, y)
    ensures !GivesBack(op, x, y, w, 1)
  {
    ResultAtOne(op, x, y);
    hide Alu;
    var r := Alu(op, Value(x, 0, 1), Value(y, 0, 1)).value;
    w := if r == 0 then 1 else 0;
  }

  lemma ResultAtOne(op: BinOp, x: Arg, y: Arg)
    requires !x.Itself? && !y.Itself? && !OnlyTraps(op, x, y)
    ensures Alu(op, Value(x, 0, 1), Value(y, 0, 1)).Some?
  {
  }

  // ----- one constant -----

  lemma SumRight(op: BinOp, k: Word) returns (w: Word)
    requires (op.IAdd? || op.ISub? || op.IMul? || op.And? || op.Or? || op.Xor?) && !IdentityRight(op, k)
    ensures !GivesBack(op, Itself, Fixed(k), w, 0)
  {
    w := if op.IMul? then 1 else if op.And? then TWO64 - 1 else 0;
    if op.And? {
      Ones(k);
    } else if op.IMul? {
      assert 1 * k == k;
    } else if op.ISub? {
      assert Alu(op, 0, k) == Some(TWO64 - k);
    } else {
      assert Alu(op, 0, k) == Some(k);
    }
  }

  lemma QuotientRight(op: BinOp, k: Word) returns (w: Word)
    requires Divides(op) && k != 0 && !IdentityRight(op, k)
    ensures !GivesBack(op, Itself, Fixed(k), w, 0)
  {
    match op
    case IDiv => w := 2; SignedQuotient(ToSigned(k));
    case UDiv => w := 2; UnsignedQuotient(k);
    case IRem => w := k; SignedRemainder(ToSigned(k));
    case URem => w := k; assert k % k == 0;
  }

  lemma UnsignedQuotient(k: int)
    requires k > 1
    ensures 0 <= 2 / k <= 1
  {
    var q := 2 / k;
    assert 2 == q * k + 2 % k;
  }

  lemma SignedQuotient(k: Signed)
    requires k != 0 && k != 1
    ensures TruncDiv(2, k) != 2 && -2 <= TruncDiv(2, k) <= 1
  {
    if k == -1 {
      assert 2 / 1 == 2;
    } else {
      UnsignedQuotient(Abs(k));
    }
  }

  lemma SignedRemainder(k: Signed)
    requires k != 0
    ensures TruncRem(k, k) == 0
  {
    assert Abs(k) / Abs(k) == 1;
  }

  lemma ShiftRight(op: BinOp, k: Word)
    requires (op.Shl? || op.Shr? || op.Sar?) && k % 64 != 0
    ensures !GivesBack(op, Itself, Fixed(k), 1, 0)
  {
    var n := k % 64;
    Pow2At64();
    Pow2Monotone(1, n);
    Pow2Monotone(n, 63);
    hide Pow2;
    assert ToSigned(1) == 1;
    SmallQuotient(1, Pow2(n));
  }

  lemma SumLeft(op: BinOp, k: Word) returns (w: Word)
    requires (op.IAdd? || op.ISub? || op.IMul? || op.And? || op.Or? || op.Xor?) && !IdentityLeft(op, k)
    ensures !GivesBack(op, Fixed(k), Itself, w, 0)
  {
    Ones(k);
    w := if op.IMul? || (op.ISub? && k == 0) then 1 else if op.And? then TWO64 - 1 else 0;
    assert k * 1 == k;
    assert BitOr(k, 0) == k && BitXor(k, 0) == k;
  }

  lemma QuotientLeft(op: BinOp, k: Word) returns (w: Word)
    requires Divides(op)
    ensures !GivesBack(op, Fixed(k), Itself, w, 0)
  {
    w := if (op.IDiv? || op.UDiv?) && k == 1 then 2 else 1;
    QuotientByOne(k);
    QuotientByOne(Abs(ToSigned(k)));
    assert ToSigned(1) == 1 && ToSigned(2) == 2;
    assert k % 1 == 0 && 1 / 2 == 0;
    assert TruncDiv(ToSigned(k), 1) == ToSigned(k) && TruncDiv(1, 2) == 0;
    assert TruncRem(ToSigned(k), 1) == 0;
  }

  lemma ShiftLeft(op: BinOp, k: Word) returns (w: Word)
    requires op.Shl? || op.Shr? || op.Sar?
    ensures !GivesBack(op, Fixed(k), Itself, w, 0)
  {
    w := if k == 0 then 1 else 0;
    assert Pow2(0) == 1 && Pow2(1) == 2 && ToSigned(0) == 0;
    assert k * 1 == k && k / 1 == k && ToSigned(k) / 1 == ToSigned(k);
  }

  /** Exactly when the operation gives the variable back for all operands. */
  lemma SteadyIff(op: BinOp, x: Arg, y: Arg)
    ensures (forall w: Word, z: Word :: GivesBack(op, x, y, w, z)) <==> Steady(op, x, y)
  {
    hide GivesBack, OnlyTraps;
    if Steady(op, x, y) {
      forall w: Word, z: Word ensures GivesBack(op, x, y, w, z) {
        SteadyGivesBack(op, x, y, w, z);
      }
    } else {
      var w, z := Unsteady(op, x, y);
    }
  }

  /** Operands on which an unsteady operation gives something else. */
  lemma Unsteady(op: BinOp, x: Arg, y: Arg) returns (w: Word, z: Word)
    requires !Steady(op, x, y)
    ensures !GivesBack(op, x, y, w, z)
  {
    hide Alu;
    z := 0;
    if x.Itself? && y.Itself? {
      w := BothItself(op);
    } else if x.Itself? && y.Other? {
      w, z := ItselfOther(op);
    } else if x.Other? && y.Itself? {
      w, z := OtherItself(op);
    } else if x.Itself? {
      if Divides(op) {
        w := QuotientRight(op, y.k);
      } else if op.Shl? || op.Shr? || op.Sar? {
        ShiftRight(op, y.k);
        w := 1;
      } else {
        w := SumRight(op, y.k);
      }
    } else if y.Itself? {
      if Divides(op) {
        w := QuotientLeft(op, x.k);
      } else if op.Shl? || op.Shr? || op.Sar? {
        w := ShiftLeft(op, x.k);
      } else {
        w := SumLeft(op, x.k);
      }
    } else {
      w := NotItself(op, x, y);
      z := 1;
    }
  }

  predicate Shifts(op: BinOp)
  {
    op.Shl? || op.Shr? || op.Sar?
  }

  /** The folder's identities are all there are, but for shifts by non-zero multiples of 64. */
  lemma IdentitiesComplete(op: BinOp, k: Signed, side: Side)
    ensures (forall w: Word :: Apply(op, w, k, side) == Some(w))
            <==> IdentityFold(op, k, side, false) || (Shifts(op) && side.Right? && k % 64 == 0)
  {
    WrapOfSigned(k);
    var x := if side.Right? then Itself else Fixed(Wrap(k));
    var y := if side.Right? then Fixed(Wrap(k)) else Itself;
    var named := IdentityFold(op, k, side, false) || (Shifts(op) && side.Right? && k % 64 == 0);
    assert named <==> Steady(op, x, y) && !OnlyTraps(op, x, y) by { NamedIsSteady(op, k, side); }
    if named {
      forall w: Word ensures Apply(op, w, k, side) == Some(w) {
        SteadyGivesBack(op, x, y, w, 0);
        SteadyCompletes(op, k, side, w);
      }
    } else if OnlyTraps(op, x, y) {
      assert Apply(op, 1, k, side) == None;
    } else {
      var w, z := Unsteady(op, x, y);
      assert Apply(op, w, k, side) == Alu(op, Value(x, w, z), Value(y, w, z));
    }
  }

  lemma NamedIsSteady(op: BinOp, k: Signed, side: Side)
    ensures var x := if side.Right? then Itself else Fixed(Wrap(k));
            var y := if side.Right? then Fixed(Wrap(k)) else Itself;
            IdentityFold(op, k, side, false) || (Shifts(op) && side.Right? && k % 64 == 0)
            <==> Steady(op, x, y) && !OnlyTraps(op, x, y)
  {
    hide Alu;
    WrapOfSigned(k);
  }

  lemma SteadyCompletes(op: BinOp, k: Signed, side: Side, w: Word)
    requires IdentityFold(op, k, side, false) || (Shifts(op) && side.Right? && k % 64 == 0)
    ensures Apply(op, w, k, side).Some?
  {
    WrapOfSigned(k);
  }
}
