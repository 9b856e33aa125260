/**
 Constant folding with a function-wide resolver (irEvalBlock, irEvalConstantExpressions).

 The proof goes through an intermediate function in which operands are resolved but nothing is
 deleted yet: it reaches exactly the same states as the original, because an available temporary
 equals its defining expression; and nobody reads a folded temporary in it, so deleting the folded
 instructions is invisible.
 */
module ConstFold {
  import opened Options
  import opened Words
  import opened Ir
  import opened Liveness
  import opened Equivalence
  import opened Evaluate
  import opened Ssa

  type Resolver = map<nat, Operand>

  /** irResolveTmp */
  function Resolve(rho: Resolver, o: Operand): Operand
  {
    if IsTmp(o) && o.v.id in rho then rho[o.v.id] else o
  }

  function ResolveArgs(rho: Resolver, os: seq<Operand>): (r: seq<Operand>)
    ensures |r| == |os| && forall i :: 0 <= i < |os| ==> r[i] == Resolve(rho, os[i])
  {
    seq(|os|, i requires 0 <= i < |os| => Resolve(rho, os[i]))
  }

  function ResolvePairs(rho: Resolver, ps: seq<PhiPair>): (r: seq<PhiPair>)
    ensures |r| == |ps|
    ensures forall i :: 0 <= i < |ps| ==> r[i] == ps[i].(value := Resolve(rho, ps[i].value))
  {
    seq(|ps|, i requires 0 <= i < |ps| => ps[i].(value := Resolve(rho, ps[i].value)))
  }

  function ResolveInstr(rho: Resolver, I: Instr): Instr
  {
    I.(r1 := Resolve(rho, I.r1), r2 := Resolve(rho, I.r2),
       dst := if I.op.Br? || I.op.Ret? || I.op.StoreDeref? then Resolve(rho, I.dst) else I.dst,
       args := if I.op.Call? then ResolveArgs(rho, I.args) else I.args,
       pairs := if I.op.Phi? then ResolvePairs(rho, I.pairs) else I.pairs)
  }

  /** What becomes of an instruction whose operands have been resolved. */
  datatype Verdict = Same | Becomes(J: Instr) | Vanishes(value: Operand)

  function Evaluated(I: Instr): Option<Signed>
  {
    if I.r1.Const? && I.r2.Const? then
      match I.op
      case ICmp(c) => Some(EvalCmp(c, I.r1.k, I.r2.k))
      case Arith(op) => EvalBinop(op, I.r1.k, I.r2.k)
      case _ => None
    else None
  }

  function Decide(I: Instr): Verdict
  {
    var e := Evaluated(I);
    if e.Some? && IsTmp(I.dst) then Vanishes(Const(e.value, I.dst.size))
    else if e.Some? && I.dst.Ref? && I.dst.v.kind.Local? && !I.dst.byval then
      Becomes(I.(op := Store, r1 := Const(e.value, I.dst.size), r2 := Null))
    else if IsTmp(I.dst) && I.op.Arith? && I.r2.Const? && !I.r1.Null? then Simplify(I, I.r2.k, Right, I.r1)
    else if IsTmp(I.dst) && I.op.Arith? && !I.r2.Const? && I.r1.Const? && !I.r2.Null? then
      Simplify(I, I.r1.k, Left, I.r2)
    else Same
  }

  /** One operand is the constant k, the other is x. */
  function Simplify(I: Instr, k: Signed, side: Side, x: Operand): Verdict
    requires I.op.Arith? && IsTmp(I.dst) && (side.Right? ==> I.r2.Const?)
  {
    var op := I.op.bin;
    if IdentityFold(op, k, side, I.dst.byval) then Vanishes(x)
    else if (op.IMul? || op.And?) && k == 0 then Vanishes(Const(0, I.dst.size))
    else if op.IMul? && side.Right? && IsPositivePowerOfTwo(k) then
      MulIsShift(0, k);
      Becomes(I.(op := Arith(Shl), r2 := Const(TrailingZeros(k), I.r2.width)))
    else Same
  }

  function FoldStep(rho: Resolver, I: Instr): (Instr, Resolver)
  {
    var I1 := ResolveInstr(rho, I);
    match Decide(I1)
    case Same => (I1, rho)
    case Becomes(J) => (J, rho)
    case Vanishes(v) =>
      (I1.(op := Nop, r1 := Null, r2 := Null), if I.dst.v.id in rho then rho else rho[I.dst.v.id := v])
  }

  /** The same step without the deletion. */
  function HalfStep(rho: Resolver, I: Instr): Instr
  {
    var I1 := ResolveInstr(rho, I);
    match Decide(I1)
    case Becomes(J) => J
    case _ => I1
  }

  predicate Position(F: Func, b: nat, i: nat)
  {
    (b < |F| && i <= |F[b]|) || (b == |F| && i == 0)
  }

  /** The resolver when the pass arrives at instruction i of block b. */
  function Rho(F: Func, b: nat, i: nat): Resolver
    requires Position(F, b, i)
    decreases b, i
  {
    if i > 0 then FoldStep(Rho(F, b, i - 1), F[b][i - 1]).1
    else if b > 0 then Rho(F, b - 1, |F[b - 1]|)
    else map[]
  }

  function Fold(F: Func): (G: Func)
    ensures |G| == |F| && forall b :: 0 <= b < |F| ==> |G[b]| == |F[b]|
    ensures forall b, i :: InFunc(F, b, i) ==> G[b][i] == FoldStep(Rho(F, b, i), F[b][i]).0
  {
    seq(|F|, b requires 0 <= b < |F| =>
      seq(|F[b]|, i requires 0 <= i < |F[b]| => FoldStep(Rho(F, b, i), F[b][i]).0))
  }

  function Half(F: Func): (H: Func)
    ensures |H| == |F| && forall b :: 0 <= b < |F| ==> |H[b]| == |F[b]|
    ensures forall b, i :: InFunc(F, b, i) ==> H[b][i] == HalfStep(Rho(F, b, i), F[b][i])
  {
    seq(|F|, b requires 0 <= b < |F| =>
      seq(|F[b]|, i requires 0 <= i < |F[b]| => HalfStep(Rho(F, b, i), F[b][i])))
  }

  // ----- the value facts -----

  lemma SimplifiedValue(M: Machine, s: State, I: Instr, k: Signed, side: Side, x: Operand)
    requires I.op.Arith? && IsTmp(I.dst)
    requires if side.Right? then I.r2.Const? && I.r2.k == k && x == I.r1 else I.r1.Const? && I.r1.k == k && x == I.r2
    ensures Simplify(I, k, side, x).Vanishes? ==>
              ValueOf(M, s, I) == Some(Eval(M, s, Simplify(I, k, side, x).value))
    ensures Simplify(I, k, side, x).Becomes? ==> ValueOf(M, s, Simplify(I, k, side, x).J) == ValueOf(M, s, I)
  {
    var w := Eval(M, s, x);
    assert ValueOf(M, s, I) == Apply(I.op.bin, w, k, side);
    if IdentityFold(I.op.bin, k, side, I.dst.byval) {
      IdentityHolds(I.op.bin, w, k, side, I.dst.byval);
    } else if (I.op.bin.IMul? || I.op.bin.And?) && k == 0 {
      AbsorbingZero(I.op.bin, w, side);
    } else if I.op.bin.IMul? && side.Right? && IsPositivePowerOfTwo(k) {
      MulIsShift(w, k);
    }
  }

  /** A vanishing instruction computed the value its uses are redirected to, and did not trap. */
  lemma VanishedValue(M: Machine, s: State, I: Instr)
    requires Decide(I).Vanishes?
    ensures ValueOf(M, s, I) == Some(Eval(M, s, Decide(I).value))
    ensures !Decide(I).value.Null?
    ensures Decide(I).value.Const? || Decide(I).value == I.r1 || Decide(I).value == I.r2
  {
    var e := Evaluated(I);
    if e.Some? {
      match I.op
      case ICmp(c) => EvalCmpIsCompare(c, I.r1.k, I.r2.k);
      case Arith(op) => EvalBinopIsAlu(op, I.r1.k, I.r2.k);
    } else if I.r2.Const? {
      SimplifiedValue(M, s, I, I.r2.k, Right, I.r1);
    } else {
      SimplifiedValue(M, s, I, I.r1.k, Left, I.r2);
    }
  }

  lemma RewrittenStep(M: Machine, s: State, I: Instr)
    requires Decide(I).Becomes?
    ensures Step(M, Decide(I).J, s) == Step(M, I, s)
  {
    var e := Evaluated(I);
    if e.Some? {
      match I.op
      case ICmp(c) => EvalCmpIsCompare(c, I.r1.k, I.r2.k);
      case Arith(op) => EvalBinopIsAlu(op, I.r1.k, I.r2.k);
    } else if I.r2.Const? {
      SimplifiedValue(M, s, I, I.r2.k, Right, I.r1);
    }
  }

  lemma RewrittenShape(I: Instr)
    ensures Decide(I).Becomes? ==>
              var J := Decide(I).J; !J.op.Phi? && !J.op.Nop? && (I.op.Arith? || I.op.ICmp?) && Reads(J) <= Reads(I)
  {
  }

  // ----- where the pass is used -----

  /** Definitions precede uses in list order, phis included, and no temporary is defined twice. */
  function DefinedBy(I: Instr): set<nat>
  {
    if Produces(I.op) || I.op.Alloca? then Tmps(Vars(I.dst)) else {}
  }

  function Defined(F: Func, b: nat, i: nat): set<nat>
    requires Position(F, b, i)
    decreases b, i
  {
    if i > 0 then Defined(F, b, i - 1) + DefinedBy(F[b][i - 1])
    else if b > 0 then Defined(F, b - 1, |F[b - 1]|)
    else {}
  }

  ghost predicate ListOrder(F: Func)
  {
    forall b, i :: InFunc(F, b, i) ==>
      Tmps(Reads(F[b][i])) <= Defined(F, b, i) && DefinedBy(F[b][i]) !! Defined(F, b, i)
  }

  predicate Precedes(b: nat, i: nat, x: nat, y: nat)
  {
    b < x || (b == x && i < y)
  }

  /** What is defined at one place is among the defined at every later one. */
  lemma {:induction false} DefinedLater(F: Func, b: nat, i: nat, x: nat, y: nat)
    requires InFunc(F, b, i) && Position(F, x, y) && Precedes(b, i, x, y)
    ensures Defined(F, b, i) + DefinedBy(F[b][i]) <= Defined(F, x, y)
    decreases x, y
  {
    hide DefinedBy;
    if y > 0 {
      if Precedes(b, i, x, y - 1) { DefinedLater(F, b, i, x, y - 1); }
    } else if b < x - 1 || i < |F[x - 1]| {
      DefinedLater(F, b, i, x - 1, |F[x - 1]|);
    }
  }

  lemma NotAgain(F: Func, t: nat, b: nat, i: nat, x: nat, y: nat)
    requires ListOrder(F) && InFunc(F, b, i) && InFunc(F, x, y) && t in DefinedBy(F[b][i]) && t in DefinedBy(F[x][y])
    ensures !Precedes(b, i, x, y)
  {
    hide DefinedBy;
    assert DefinedBy(F[x][y]) !! Defined(F, x, y);
    if Precedes(b, i, x, y) { DefinedLater(F, b, i, x, y); }
  }

  /** A relied-on definition is tied to its operands. */
  predicate Tied(cert: Cert, I: Instr)
  {
    I.op.Arith? && IsTmp(I.dst) && I.dst.v.id in cert.defs ==> Operands(I) <= Sup(cert, I.dst.v.id)
  }

  /**
   What a vanishing instruction computes is a whole word and either a constant or tied to the variable its uses are
   redirected to. Stores keep their width, and only buffers are stored to or have their address taken.
   */
  predicate SafeAt(cert: Cert, rho: Resolver, I: Instr)
  {
    var I1 := ResolveInstr(rho, I);
    && Tied(cert, I)
    && (Decide(I1).Vanishes? ==>
          I.dst.v.id !in cert.buffers && I.dst.size >= 8 && (Decide(I1).value.Const? || I.dst.v.id in cert.defs))
    && (I.op.Store? ==> (IsTmp(I.dst) ==> I.dst.v.id in cert.buffers)
                        && Min(ByteSize(I1.dst), ByteSize(I1.r1)) == Min(ByteSize(I.dst), ByteSize(I.r1)))
    && (I.op.Lea? ==> I1.r1 == I.r1)
  }

  ghost predicate FoldSafe(cert: Cert, F: Func)
  {
    forall b, i :: InFunc(F, b, i) ==> SafeAt(cert, Rho(F, b, i), F[b][i])
  }

  ghost predicate Foldable(cert: Cert, F: Func)
  {
    && Certified(cert, F) && WellShaped(F) && ListOrder(F) && FoldSafe(cert, F)
    && forall b, i :: InFunc(F, b, i) ==> Unfused(F[b][i])
  }

  // ----- what the resolver redirects to -----

  /** Every temporary is tied to the variable it is redirected to. */
  predicate Grounded(cert: Cert, rho: Resolver)
  {
    forall t :: t in rho ==> t !in cert.buffers && !rho[t].Null? && NonParams(rho[t]) <= Sup(cert, t)
  }

  function NonParams(o: Operand): set<Var>
  {
    set v | v in Vars(o) && !v.kind.Param?
  }

  lemma ResolvedTied(cert: Cert, rho: Resolver, t: nat, o: Operand)
    requires CertShape(cert) && Grounded(cert, rho) && NonParams(o) <= Sup(cert, t)
    ensures NonParams(Resolve(rho, o)) <= Sup(cert, t)
  {
    if IsTmp(o) && o.v.id in rho {
      var u := o.v.id;
      assert o.v in NonParams(o);
      assert u in Tracked(cert, Sup(cert, t));
    }
  }

  lemma OperandParts(I: Instr)
    ensures Operands(I) == NonParams(I.r1) + NonParams(I.r2)
  {
  }

  lemma GroundedStep(cert: Cert, rho: Resolver, I: Instr)
    requires CertShape(cert) && Grounded(cert, rho) && SafeAt(cert, rho, I)
    ensures Grounded(cert, FoldStep(rho, I).1)
  {
    hide CertShape, Decide, Operands, NonParams;
    var I1 := ResolveInstr(rho, I);
    if Decide(I1).Vanishes? {
      VanishedShape(I1);
      var t, v := I.dst.v.id, Decide(I1).value;
      NotNullValue(I1);
      if v.Const? {
        assert NonParams(v) == {} by { ConstHasNone(v); }
      } else {
        ArithAlias(I1);
        OperandParts(I);
        ResolvedTied(cert, rho, t, I.r1);
        ResolvedTied(cert, rho, t, I.r2);
      }
    }
  }

  lemma ConstHasNone(o: Operand)
    requires o.Const?
    ensures NonParams(o) == {}
  {
  }

  lemma NotNullValue(I: Instr)
    requires Decide(I).Vanishes?
    ensures !Decide(I).value.Null?
  {
  }

  lemma ArithAlias(I: Instr)
    requires Decide(I).Vanishes? && !Decide(I).value.Const?
    ensures I.op.Arith?
  {
  }

  lemma {:induction false} RhoGrounded(cert: Cert, F: Func, b: nat, i: nat)
    requires CertShape(cert) && FoldSafe(cert, F) && Position(F, b, i)
    ensures Grounded(cert, Rho(F, b, i))
    decreases b, i
  {
    hide CertShape, Grounded, FoldStep, SafeAt;
    if i > 0 {
      RhoGrounded(cert, F, b, i - 1);
      assert InFunc(F, b, i - 1);
      GroundedStep(cert, Rho(F, b, i - 1), F[b][i - 1]);
    } else if b > 0 {
      RhoGrounded(cert, F, b - 1, |F[b - 1]|);
    } else {
      assert Grounded(cert, map[]) by { NothingGrounded(cert); }
    }
  }

  lemma NothingGrounded(cert: Cert)
    ensures Grounded(cert, map[])
  {
  }

  /** Where a temporary was folded. */
  lemma {:induction false} FoldedWhere(F: Func, b: nat, i: nat, t: nat) returns (x: nat, y: nat)
    requires Position(F, b, i) && t in Rho(F, b, i)
    ensures InFunc(F, x, y) && Precedes(x, y, b, i)
    ensures var I1 := ResolveInstr(Rho(F, x, y), F[x][y]);
            Decide(I1).Vanishes? && IsTmp(F[x][y].dst) && F[x][y].dst.v.id == t && Decide(I1).value == Rho(F, b, i)[t]
    decreases b, i
  {
    hide Decide;
    if i > 0 {
      if t in Rho(F, b, i - 1) {
        x, y := FoldedWhere(F, b, i - 1, t);
      } else {
        x, y := b, i - 1;
        VanishedShape(ResolveInstr(Rho(F, b, i - 1), F[b][i - 1]));
      }
    } else if b > 0 {
      x, y := FoldedWhere(F, b - 1, |F[b - 1]|, t);
    }
  }

  lemma {:induction false} RhoStays(F: Func, b: nat, i: nat, t: nat)
    requires Position(F, b, i) && t in Rho(F, b, i)
    ensures t in Final(F) && Final(F)[t] == Rho(F, b, i)[t]
    decreases |F| - b, if b < |F| then |F[b]| - i else 0
  {
    hide Decide, ResolveInstr;
    if b < |F| {
      if i < |F[b]| {
        assert Rho(F, b, i + 1) == FoldStep(Rho(F, b, i), F[b][i]).1;
        RhoStays(F, b, i + 1, t);
      } else {
        assert Rho(F, b + 1, 0) == Rho(F, b, i);
        RhoStays(F, b + 1, 0, t);
      }
    }
  }

  // ----- the facts folding relies on: a folded temporary equals what it is redirected to -----

  function EqualTo(t: nat, o: Operand): Instr
  {
    NopInstr().(op := Arith(IAdd), dst := Ref(Var(Tmp, t), 8, None, false), r1 := o, r2 := Const(0, 8))
  }

  lemma EqualToHolds(M: Machine, s: State, t: nat, o: Operand)
    ensures Holds(M, s, EqualTo(t, o)) <==> Get(M, s, Var(Tmp, t)) == Eval(M, s, o)
  {
    assert Wrap(0) == 0;
    WrapWord(Eval(M, s, o));
  }

  function FoldFacts(F: Func): Facts
  {
    map t | t in Final(F) :: EqualTo(t, Final(F)[t])
  }

  lemma FoldedOnce(F: Func, t: nat, b: nat, i: nat)
    requires ListOrder(F) && t in Final(F) && InFunc(F, b, i) && t in DefinedBy(F[b][i])
    ensures var I1 := ResolveInstr(Rho(F, b, i), F[b][i]);
            Decide(I1).Vanishes? && IsTmp(F[b][i].dst) && F[b][i].dst.v.id == t && Decide(I1).value == Final(F)[t]
  {
    hide Decide, ListOrder, ResolveInstr;
    var x, y := FoldedWhere(F, |F|, 0, t);
    assert t in DefinedBy(F[x][y]) by { FoldedIsDefined(Rho(F, x, y), F[x][y]); }
    NotAgain(F, t, b, i, x, y);
    NotAgain(F, t, x, y, b, i);
  }

  lemma FoldedIsDefined(rho: Resolver, I: Instr)
    requires Decide(ResolveInstr(rho, I)).Vanishes? && IsTmp(I.dst)
    ensures I.dst.v.id in DefinedBy(I)
  {
    VanishedShape(ResolveInstr(rho, I));
    assert I.dst.v in Vars(I.dst);
  }

  lemma FoldFactsFit(cert: Cert, F: Func)
    requires Foldable(cert, F)
    ensures FactsFit(cert, F, FoldFacts(F))
  {
    hide FoldSafe, WellShaped, CodeOk, Decide;
    RhoGrounded(cert, F, |F|, 0);
    forall b, i | InFunc(F, b, i) && F[b][i].op.Phi? && IsTmp(F[b][i].dst) ensures F[b][i].dst.v.id !in FoldFacts(F) {
      PhiNotFolded(F, b, i);
    }
    forall t | t in FoldFacts(F) ensures Fits(cert, t, FoldFacts(F)[t]) {
      OperandParts(EqualTo(t, Final(F)[t]));
    }
  }

  lemma PhiNotFolded(F: Func, b: nat, i: nat)
    requires ListOrder(F) && InFunc(F, b, i) && F[b][i].op.Phi? && IsTmp(F[b][i].dst)
    ensures F[b][i].dst.v.id !in Final(F)
  {
    hide Decide, ListOrder;
    var t := F[b][i].dst.v.id;
    assert t in DefinedBy(F[b][i]) by { assert F[b][i].dst.v in Vars(F[b][i].dst); }
    if t in Final(F) {
      FoldedOnce(F, t, b, i);
      VanishedShape(ResolveInstr(Rho(F, b, i), F[b][i]));
    }
  }

  // ----- resolving is sound wherever the facts hold -----

  lemma ResolveSame(M: Machine, s: State, cert: Cert, F: Func, A: set<nat>, b: nat, i: nat, o: Operand)
    requires Position(F, b, i) && Grounded(cert, Rho(F, b, i)) && FactInv(M, s, FoldFacts(F), A)
    requires Tracked(cert, Vars(o)) <= A
    ensures Eval(M, s, Resolve(Rho(F, b, i), o)) == Eval(M, s, o)
  {
    hide Holds, Rho, Final;
    var rho := Rho(F, b, i);
    if IsTmp(o) && o.v.id in rho {
      var u := o.v.id;
      assert o.v == Var(Tmp, u) && o.v in Vars(o);
      assert u in Tracked(cert, Vars(o));
      RhoStays(F, b, i, u);
      assert Holds(M, s, FoldFacts(F)[u]);
      EqualToHolds(M, s, u, Final(F)[u]);
    }
  }

  /** The values an instruction consumes agree with those another form of it consumes. */
  predicate SameOperands(M: Machine, s: State, I: Instr, J: Instr)
  {
    && J.op == I.op && J.idx == I.idx && J.scale == I.scale && J.disp == I.disp
    && (I.op.Br? || I.op.Ret? || I.op.StoreDeref? || J.dst == I.dst)
    && match I.op
       case Nop => true
       case Alloca => true
       case Phi => true
       case Jmp(_) => true
       case Lea => J.r1 == I.r1
       case Br(_, _) => Eval(M, s, J.dst) == Eval(M, s, I.dst)
       case Ret => Eval(M, s, J.dst) == Eval(M, s, I.dst)
       case Call(_) => EvalAll(M, s, J.args) == EvalAll(M, s, I.args) && Eval(M, s, J.r2) == Eval(M, s, I.r2)
       case Load => Eval(M, s, J.r1) == Eval(M, s, I.r1)
       case Store =>
         Eval(M, s, J.r1) == Eval(M, s, I.r1)
         && Min(ByteSize(I.dst), ByteSize(J.r1)) == Min(ByteSize(I.dst), ByteSize(I.r1))
       case LoadDeref => Eval(M, s, J.r1) == Eval(M, s, I.r1)
       case StoreDeref => Eval(M, s, J.r1) == Eval(M, s, I.r1) && Eval(M, s, J.dst) == Eval(M, s, I.dst)
       case RmwDeref(_) => J.r1 == I.r1
       case _ => Eval(M, s, J.r1) == Eval(M, s, I.r1) && Eval(M, s, J.r2) == Eval(M, s, I.r2)
  }

  lemma SameOperandsSameStep(M: Machine, s: State, I: Instr, J: Instr)
    requires SameOperands(M, s, I, J)
    ensures Step(M, J, s) == Step(M, I, s)
  {
    hide Alu, Compare, Assign, WriteThrough;
  }

  lemma ReadSame(M: Machine, s: State, cert: Cert, F: Func, A: set<nat>, b: nat, i: nat, I: Instr, o: Operand)
    requires Position(F, b, i) && Grounded(cert, Rho(F, b, i)) && FactInv(M, s, FoldFacts(F), A)
    requires Tracked(cert, Reads(I)) <= A && Vars(o) <= Reads(I)
    ensures Eval(M, s, Resolve(Rho(F, b, i), o)) == Eval(M, s, o)
  {
    hide Grounded, FactInv, Reads;
    assert Tracked(cert, Vars(o)) <= Tracked(cert, Reads(I));
    ResolveSame(M, s, cert, F, A, b, i, o);
  }

  /** An instruction and its resolved form act alike where the facts hold. */
  lemma ResolvedStep(M: Machine, s: State, cert: Cert, F: Func, A: set<nat>, b: nat, i: nat)
    requires InFunc(F, b, i) && Grounded(cert, Rho(F, b, i)) && FactInv(M, s, FoldFacts(F), A)
    requires ReadsHere(cert, F[b][i]) <= A && SafeAt(cert, Rho(F, b, i), F[b][i]) && Unfused(F[b][i])
    ensures SameOperands(M, s, F[b][i], ResolveInstr(Rho(F, b, i), F[b][i]))
  {
    hide Grounded, FactInv, Eval, Rho, Resolve, Decide, Tied;
    var rho, I := Rho(F, b, i), F[b][i];
    var J, op := ResolveInstr(rho, I), I.op;
    if op.Nop? || op.Alloca? || op.Phi? || op.Jmp? || op.Lea? {
    } else if op.Br? || op.Ret? {
      ReadSame(M, s, cert, F, A, b, i, I, I.dst);
    } else if op.Call? {
      forall k | 0 <= k < |I.args| ensures EvalAll(M, s, J.args)[k] == EvalAll(M, s, I.args)[k] {
        assert Vars(I.args[k]) <= Reads(I);
        ReadSame(M, s, cert, F, A, b, i, I, I.args[k]);
      }
      assert EvalAll(M, s, J.args) == EvalAll(M, s, I.args);
      ReadSame(M, s, cert, F, A, b, i, I, I.r2);
    } else {
      ReadSame(M, s, cert, F, A, b, i, I, I.r1);
      if op.StoreDeref? {
        ReadSame(M, s, cert, F, A, b, i, I, I.dst);
      } else if op.Arith? || op.ICmp? || op.Opaque? || op.CmpBr? {
        ReadSame(M, s, cert, F, A, b, i, I, I.r2);
      }
    }
  }

  // ----- the definitions make the facts true -----

  /** The operand a vanished definition is redirected to has the value the temporary gets. */
  lemma RedirectedValue(M: Machine, s: State, cert: Cert, F: Func, A: set<nat>, b: nat, i: nat)
    requires InFunc(F, b, i) && Grounded(cert, Rho(F, b, i)) && FactInv(M, s, FoldFacts(F), A)
    requires ReadsHere(cert, F[b][i]) <= A && Decide(ResolveInstr(Rho(F, b, i), F[b][i])).Vanishes?
    ensures ValueOf(M, s, F[b][i]) == Some(Eval(M, s, Decide(ResolveInstr(Rho(F, b, i), F[b][i])).value))
  {
    hide Decide, Alu, Compare, Grounded, FactInv, Rho, Eval, Resolve;
    var I := F[b][i];
    var I1 := ResolveInstr(Rho(F, b, i), I);
    VanishedValue(M, s, I1);
    VanishedShape(I1);
    ReadSame(M, s, cert, F, A, b, i, I, I.r1);
    ReadSame(M, s, cert, F, A, b, i, I, I.r2);
    assert ValueOf(M, s, I1) == ValueOf(M, s, I);
  }

  lemma AssignedValue(M: Machine, s: State, I: Instr, w: Word)
    requires (I.op.Arith? || I.op.ICmp?) && I.dst.Ref? && I.dst.size >= 8 && ValueOf(M, s, I) == Some(w)
    ensures Step(M, I, s) == Next(Set(M, s, I.dst.v, w)) && Written(I) == {I.dst.v}
  {
    hide Alu, Compare;
  }

  lemma FoldEstablished(M: Machine, cert: Cert, F: Func, b: nat, i: nat, A: set<nat>, s: State)
    requires Foldable(cert, F) && Plain(M, cert) && InFunc(F, b, i)
    ensures Established(M, cert, F, FoldFacts(F), b, i, A, s)
  {
    hide WellShaped, CodeOk, Decide, FactInv, Closed, Step, Rho;
    var I := F[b][i];
    if ReadsHere(cert, I) <= A && FactInv(M, s, FoldFacts(F), A) && !I.op.Phi? && Step(M, I, s).Next? {
      RhoGrounded(cert, F, b, i);
      RhoGrounded(cert, F, |F|, 0);
      forall t | t in Tracked(cert, Written(I)) && t in FoldFacts(F)
        ensures Holds(M, Step(M, I, s).s, FoldFacts(F)[t])
      {
        assert SafeAt(cert, Rho(F, b, i), I);
        assert t in DefinedBy(I) by { WrittenDefines(cert, Rho(F, b, i), I, t); }
        FoldedOnce(F, t, b, i);
        RedirectedValue(M, s, cert, F, A, b, i);
        FactMade(M, s, cert, Rho(F, b, i), I, Final(F)[t]);
      }
    }
  }

  lemma WrittenDefines(cert: Cert, rho: Resolver, I: Instr, t: nat)
    requires t in Tracked(cert, Written(I)) && SafeAt(cert, rho, I)
    ensures t in DefinedBy(I)
  {
    hide Decide;
  }

  lemma FactMade(M: Machine, s: State, cert: Cert, rho: Resolver, I: Instr, v: Operand)
    requires CertShape(cert) && Plain(M, cert) && SafeAt(cert, rho, I)
    requires Decide(ResolveInstr(rho, I)).Vanishes? && IsTmp(I.dst) && NonParams(v) <= Sup(cert, I.dst.v.id)
    requires ValueOf(M, s, I) == Some(Eval(M, s, v))
    ensures Step(M, I, s).Next? && Holds(M, Step(M, I, s).s, EqualTo(I.dst.v.id, v))
  {
    VanishedShape(ResolveInstr(rho, I));
    hide Decide, Holds, Step, ValueOf;
    var t, w := I.dst.v.id, Eval(M, s, v);
    AssignedValue(M, s, I, w);
    var s' := Set(M, s, I.dst.v, w);
    assert I.dst.v == Var(Tmp, t) && !Resident(M, I.dst.v);
    assert Get(M, s', I.dst.v) == w;
    assert Eval(M, s', v) == Eval(M, s, v) by {
      if v.Ref? && !v.v.kind.Param? { assert v.v in NonParams(v); }
    }
    EqualToHolds(M, s', t, v);
  }

  lemma FoldSustained(M: Machine, cert: Cert, F: Func)
    requires Foldable(cert, F) && Plain(M, cert)
    ensures Sustained(M, cert, F, FoldFacts(F))
  {
    FoldFactsFit(cert, F);
    forall b, i, A: set<nat>, s: State | 0 <= b < |F| && 0 <= i < |F[b]|
      ensures Established(M, cert, F, FoldFacts(F), b, i, A, s)
    {
      FoldEstablished(M, cert, F, b, i, A, s);
    }
  }

  // ----- the half-folded function reaches the same states -----

  lemma HalfStepSame(M: Machine, s: State, rho: Resolver, I: Instr)
    requires SameOperands(M, s, I, ResolveInstr(rho, I))
    ensures Step(M, HalfStep(rho, I), s) == Step(M, I, s)
  {
    hide Decide, ResolveInstr, SameOperands, Step;
    var I1 := ResolveInstr(rho, I);
    SameOperandsSameStep(M, s, I, I1);
    if Decide(I1).Becomes? { RewrittenStep(M, s, I1); }
  }

  lemma HalfStepAt(M: Machine, s: State, cert: Cert, F: Func, b: nat, i: nat, A: set<nat>)
    requires Foldable(cert, F) && InFunc(F, b, i) && FactInv(M, s, FoldFacts(F), A) && ReadsHere(cert, F[b][i]) <= A
    ensures Step(M, HalfStep(Rho(F, b, i), F[b][i]), s) == Step(M, F[b][i], s)
  {
    hide WellShaped, CodeOk, ListOrder, SafeAt, Unfused, FactInv, ReadsHere, Step, HalfStep, SameOperands, Rho;
    RhoGrounded(cert, F, b, i);
    assert SafeAt(cert, Rho(F, b, i), F[b][i]) && Unfused(F[b][i]);
    ResolvedStep(M, s, cert, F, A, b, i);
    HalfStepSame(M, s, Rho(F, b, i), F[b][i]);
  }

  lemma {:induction false} HalfExec(M: Machine, s: State, cert: Cert, F: Func, b: nat, i: nat, A: set<nat>)
    requires Foldable(cert, F) && Plain(M, cert) && b < |F| && i <= |F[b]|
    requires CodeOk(cert, F, b, F[b][i..], A) && Closed(cert, A) && FactInv(M, s, FoldFacts(F), A)
    ensures Exec(M, Half(F)[b][i..], s) == Exec(M, F[b][i..], s)
    decreases |F[b]| - i
  {
    assert Certified(cert, F) && CertShape(cert);
    hide Closed, FactInv, WritesOk, CertShape, Certified, Foldable, Step, HalfStep, Plain, Rho, ReadsHere, EdgeOk;
    hide AfterInstr;
    if i < |F[b]| {
      var code, half := F[b][i..], Half(F)[b][i..];
      var I := F[b][i];
      assert InFunc(F, b, i);
      assert code[0] == I && half[0] == HalfStep(Rho(F, b, i), I);
      assert code[1..] == F[b][i + 1..] && half[1..] == Half(F)[b][i + 1..];
      HalfStepAt(M, s, cert, F, b, i, A);
      if Step(M, I, s).Next? {
        FoldFactsFit(cert, F);
        FoldEstablished(M, cert, F, b, i, A, s);
        StepKeepsFacts(M, cert, F, FoldFacts(F), b, i, s, A);
        HalfExec(M, Step(M, I, s).s, cert, F, b, i + 1, AfterInstr(cert, A, I));
      }
    }
  }

  /** Moves with the same destinations and, in state s, the same values. */
  predicate SameMoves(M: Machine, s: State, m1: seq<Move>, m2: seq<Move>)
  {
    && |m1| == |m2|
    && forall i :: 0 <= i < |m1| ==> m1[i].dst == m2[i].dst && Eval(M, s, m1[i].src) == Eval(M, s, m2[i].src)
  }

  lemma {:induction false} SameMovesSameState(M: Machine, before: State, s: State, m1: seq<Move>, m2: seq<Move>)
    requires SameMoves(M, before, m1, m2)
    ensures AssignAll(M, before, s, m1) == AssignAll(M, before, s, m2)
    decreases |m1|
  {
    if m1 != [] {
      assert SameMoves(M, before, m1[1..], m2[1..]);
      SameMovesSameState(M, before, Assign(M, s, m1[0].dst, Eval(M, before, m1[0].src)), m1[1..], m2[1..]);
    }
  }

  lemma IncomingResolved(rho: Resolver, ps: seq<PhiPair>, from: nat)
    ensures Incoming(ResolvePairs(rho, ps), from) ==
              match Incoming(ps, from) case None => None case Some(v) => Some(Resolve(rho, v))
  {
    if ps != [] {
      assert ResolvePairs(rho, ps)[1..] == ResolvePairs(rho, ps[1..]);
      IncomingResolved(rho, ps[1..], from);
    }
  }

  lemma HalfShape(rho: Resolver, I: Instr)
    ensures HalfStep(rho, I).op.Nop? <==> I.op.Nop?
    ensures HalfStep(rho, I).op.Phi? <==> I.op.Phi?
    ensures I.op.Phi? || I.op.Nop? ==> HalfStep(rho, I) == ResolveInstr(rho, I)
  {
    RewrittenShape(ResolveInstr(rho, I));
  }

  lemma HeadMove(code: Code, from: nat)
    requires code != [] && (code[0].op.Phi? || code[0].op.Nop?)
    ensures PhiMoves(code, from) == MoveOf(code[0], from) + PhiMoves(code[1..], from)
  {
  }

  lemma SameMovesAppend(M: Machine, s: State, a1: seq<Move>, a2: seq<Move>, b1: seq<Move>, b2: seq<Move>)
    requires SameMoves(M, s, a1, a2) && SameMoves(M, s, b1, b2)
    ensures SameMoves(M, s, a1 + b1, a2 + b2)
  {
    hide Eval;
  }

  lemma HalfMove(M: Machine, s: State, cert: Cert, F: Func, A: set<nat>, b: nat, i: nat, from: nat)
    requires InFunc(F, b, i) && Grounded(cert, Rho(F, b, i)) && FactInv(M, s, FoldFacts(F), A)
    requires F[b][i].op.Phi? || F[b][i].op.Nop?
    requires forall m :: m in MoveOf(F[b][i], from) ==> Tracked(cert, Vars(m.src)) <= A
    ensures SameMoves(M, s, MoveOf(HalfStep(Rho(F, b, i), F[b][i]), from), MoveOf(F[b][i], from))
  {
    var rho, I := Rho(F, b, i), F[b][i];
    HalfShape(rho, I);
    hide Grounded, FactInv, HalfStep, Tracked, Vars, Eval, Rho;
    if I.op.Phi? {
      IncomingResolved(rho, I.pairs, from);
      match Incoming(I.pairs, from)
      case None =>
      case Some(v) =>
        if !v.Null? {
          assert Move(I.dst, v) in MoveOf(I, from);
          ResolveSame(M, s, cert, F, A, b, i, v);
          StillThere(cert, rho, v);
        }
    }
  }

  lemma StillThere(cert: Cert, rho: Resolver, v: Operand)
    requires Grounded(cert, rho) && !v.Null?
    ensures !Resolve(rho, v).Null?
  {
  }

  lemma {:induction false} HalfMoves(M: Machine, s: State, cert: Cert, F: Func, b: nat, i: nat, from: nat, A: set<nat>)
    requires Foldable(cert, F) && FactInv(M, s, FoldFacts(F), A) && b < |F| && i <= |F[b]|
    requires forall m :: m in PhiMoves(F[b][i..], from) ==> Tracked(cert, Vars(m.src)) <= A
    ensures SameMoves(M, s, PhiMoves(Half(F)[b][i..], from), PhiMoves(F[b][i..], from))
    decreases |F[b]| - i
  {
    hide FactInv, HalfStep, Tracked, Vars, Rho, Eval, MoveOf, Grounded, Certified, FoldSafe, ListOrder, WellShaped;
    hide Unfused;
    if i < |F[b]| {
      var code, half, rho := F[b][i..], Half(F)[b][i..], Rho(F, b, i);
      assert InFunc(F, b, i);
      assert code[1..] == F[b][i + 1..] && half[1..] == Half(F)[b][i + 1..];
      HalfShape(rho, F[b][i]);
      if F[b][i].op.Nop? || F[b][i].op.Phi? {
        HeadMove(code, from);
        HeadMove(half, from);
        hide PhiMoves;
        HalfMoves(M, s, cert, F, b, i + 1, from, A);
        GroundedAt(cert, F, b, i);
        HalfMove(M, s, cert, F, A, b, i, from);
        var rest, halfRest := PhiMoves(code[1..], from), PhiMoves(half[1..], from);
        SameMovesAppend(M, s, MoveOf(half[0], from), MoveOf(code[0], from), halfRest, rest);
      }
    }
  }

  lemma GroundedAt(cert: Cert, F: Func, b: nat, i: nat)
    requires Foldable(cert, F) && Position(F, b, i)
    ensures Grounded(cert, Rho(F, b, i))
  {
    hide FoldSafe, CodeOk, ListOrder, WellShaped, Unfused, Rho;
    RhoGrounded(cert, F, b, i);
  }

  lemma HalfBlock(M: Machine, cert: Cert, F: Func, c: Config)
    requires Foldable(cert, F) && Plain(M, cert) && ConfigOk(M, cert, F, FoldFacts(F), c)
    ensures StepBlock(M, Half(F), c) == StepBlock(M, F, c)
  {
    FoldFactsFit(cert, F);
    hide Closed, FactInv, CodeOk, Plain, FoldSafe, ListOrder, WellShaped, Unfused, FactsFit, CertShape, HalfStep, Rho;
    if c.At? && c.block < |F| {
      var b := c.block;
      var A :| Closed(cert, A) && EdgeOk(cert, F, c.from, b, A) && FactInv(M, c.s, FoldFacts(F), A);
      assert F[b][0..] == F[b] && Half(F)[b][0..] == Half(F)[b];
      HalfMoves(M, c.s, cert, F, b, 0, c.from, A);
      SameMovesSameState(M, c.s, c.s, PhiMoves(Half(F)[b], c.from), PhiMoves(F[b], c.from));
      EnterKeepsFacts(M, cert, F, FoldFacts(F), c.from, b, A, c.s);
      HalfExec(M, Enter(M, F[b], c.from, c.s), cert, F, b, 0, cert.avail[b]);
    }
  }

  lemma OneSetPerBlock(cert: Cert, F: Func)
    requires Foldable(cert, F)
    ensures |cert.avail| == |F|
  {
    hide FoldSafe, CodeOk, ListOrder, WellShaped, Unfused;
  }

  lemma {:induction false} HalfRun(M: Machine, cert: Cert, F: Func, c: Config, n: nat)
    requires Foldable(cert, F) && Plain(M, cert) && Initial(cert, F, c)
    ensures Run(M, Half(F), c, n) == Run(M, F, c, n)
  {
    hide Foldable, Plain, Initial, StepBlock, Sustained, ConfigOk, FoldFacts, Half;
    if n > 0 {
      assert |cert.avail| == |F| by { OneSetPerBlock(cert, F); }
      HalfRun(M, cert, F, c, n - 1);
      FoldSustained(M, cert, F);
      RunKeepsFacts(M, cert, F, FoldFacts(F), c, n - 1);
      HalfBlock(M, cert, F, Run(M, F, c, n - 1));
    }
  }

  // ----- nobody reads a folded temporary -----

  /** The resolver holds defined temporaries only, and redirects to operands that stay. */
  predicate RhoShape(rho: Resolver, D: set<nat>)
  {
    forall t :: t in rho ==> t in D && Tmps(Vars(rho[t])) <= D - rho.Keys
  }

  lemma RhoShapeStep(rho: Resolver, I: Instr, D: set<nat>)
    requires RhoShape(rho, D) && Tmps(Reads(I)) <= D && DefinedBy(I) !! D
    ensures RhoShape(FoldStep(rho, I).1, D + DefinedBy(I))
    ensures FoldStep(rho, I).1.Keys <= rho.Keys + DefinedBy(I)
  {
    var I1 := ResolveInstr(rho, I);
    if Decide(I1).Vanishes? && I.dst.v.id !in rho {
      VanishedShape(I1);
      var t, v := I.dst.v.id, Decide(I1).value;
      assert Tmps(Vars(I.r1)) <= Tmps(Reads(I)) && Tmps(Vars(I.r2)) <= Tmps(Reads(I));
      ResolvedTmps(rho, I.r1, D);
      ResolvedTmps(rho, I.r2, D);
      assert t in DefinedBy(I);
      assert Tmps(Vars(v)) <= D - rho.Keys;
    }
  }

  lemma VanishedShape(I: Instr)
    requires Decide(I).Vanishes?
    ensures (I.op.Arith? || I.op.ICmp?) && IsTmp(I.dst) && Pure(I)
    ensures Decide(I).value.Const? || Decide(I).value == I.r1 || Decide(I).value == I.r2
  {
  }

  lemma ResolvedTmps(rho: Resolver, o: Operand, D: set<nat>)
    requires RhoShape(rho, D) && Tmps(Vars(o)) <= D
    ensures Tmps(Vars(Resolve(rho, o))) <= D - rho.Keys
  {
    if IsTmp(o) {
      assert o.v.id in Tmps(Vars(o));
    } else {
      assert Tmps(Vars(o)) == {};
    }
  }

  lemma {:induction false} RhoShapeAt(F: Func, b: nat, i: nat)
    requires ListOrder(F) && Position(F, b, i)
    ensures RhoShape(Rho(F, b, i), Defined(F, b, i))
    decreases b, i
  {
    hide FoldStep, RhoShape, Tmps, Reads, DefinedBy;
    if i > 0 {
      RhoShapeAt(F, b, i - 1);
      assert InFunc(F, b, i - 1);
      RhoShapeStep(Rho(F, b, i - 1), F[b][i - 1], Defined(F, b, i - 1));
    } else if b > 0 {
      RhoShapeAt(F, b - 1, |F[b - 1]|);
    } else {
      EmptyShape();
    }
  }

  lemma EmptyShape()
    ensures RhoShape(map[], {})
  {
  }

  function Final(F: Func): Resolver
  {
    Rho(F, |F|, 0)
  }

  /** A temporary already defined when the pass gets to (b, i) is not folded later on. */
  lemma {:induction false} LateFolds(F: Func, b: nat, i: nat)
    requires ListOrder(F) && Position(F, b, i)
    ensures Rho(F, b, i).Keys <= Final(F).Keys
    ensures Final(F).Keys * Defined(F, b, i) <= Rho(F, b, i).Keys
    ensures Defined(F, b, i) <= Defined(F, |F|, 0)
    decreases |F| - b, if b < |F| then |F[b]| - i else 0
  {
    hide FoldStep, DefinedBy, Reads;
    if b < |F| {
      if i < |F[b]| {
        assert InFunc(F, b, i);
        RhoShapeAt(F, b, i);
        RhoShapeStep(Rho(F, b, i), F[b][i], Defined(F, b, i));
        FoldStepGrows(Rho(F, b, i), F[b][i]);
        LateFolds(F, b, i + 1);
      } else {
        LateFolds(F, b + 1, 0);
      }
    }
  }

  lemma FoldStepGrows(rho: Resolver, I: Instr)
    ensures rho.Keys <= FoldStep(rho, I).1.Keys
  {
  }

  lemma VarsTmps(o: Operand, D: set<nat>)
    requires Tmps(Vars(o)) <= D
    ensures forall v :: v in Vars(o) && v.kind.Tmp? ==> v.id in D
  {
    forall v | v in Vars(o) && v.kind.Tmp? ensures v.id in D {
      assert v.id in Tmps(Vars(o));
    }
  }

  lemma ReadTmps(rho: Resolver, I: Instr, D: set<nat>, o: Operand)
    requires RhoShape(rho, D) && Tmps(Reads(I)) <= D && Vars(o) <= Reads(I)
    ensures forall v :: v in Vars(Resolve(rho, o)) && v.kind.Tmp? ==> v.id in D - rho.Keys
  {
    assert Tmps(Vars(o)) <= Tmps(Reads(I));
    ResolvedTmps(rho, o, D);
    VarsTmps(Resolve(rho, o), D - rho.Keys);
  }

  lemma ResolvedReads(rho: Resolver, I: Instr, D: set<nat>)
    requires RhoShape(rho, D) && Tmps(Reads(I)) <= D && Unfused(I)
    ensures forall v :: v in Reads(ResolveInstr(rho, I)) && v.kind.Tmp? ==> v.id in D - rho.Keys
  {
    hide RhoShape, Tmps, Resolve;
    var J := ResolveInstr(rho, I);
    var op := I.op;
    if op.Phi? {
      forall v | v in Reads(J) && v.kind.Tmp? ensures v.id in D - rho.Keys {
        var p :| p in J.pairs && p.value.Ref? && p.value.v == v;
        var k :| 0 <= k < |J.pairs| && J.pairs[k] == p;
        assert I.pairs[k] in I.pairs;
        assert Vars(I.pairs[k].value) <= Reads(I);
        ReadTmps(rho, I, D, I.pairs[k].value);
        assert v in Vars(p.value);
      }
    } else if op.Call? {
      ReadTmps(rho, I, D, I.r2);
      forall v | v in VarsOf(J.args) && v.kind.Tmp? ensures v.id in D - rho.Keys {
        var o :| o in J.args && o.Ref? && o.v == v;
        var k :| 0 <= k < |J.args| && J.args[k] == o;
        assert I.args[k] in I.args;
        assert Vars(I.args[k]) <= Reads(I);
        ReadTmps(rho, I, D, I.args[k]);
        assert v in Vars(o);
      }
    } else if op.Br? || op.Ret? {
      ReadTmps(rho, I, D, I.dst);
    } else if op.Nop? || op.Alloca? || op.Lea? || op.Jmp? {
    } else {
      ReadTmps(rho, I, D, I.r1);
      if op.StoreDeref? { ReadTmps(rho, I, D, I.dst); }
      if op.Arith? || op.ICmp? || op.Opaque? || op.CmpBr? { ReadTmps(rho, I, D, I.r2); }
    }
  }

  function Folded(F: Func): Dead
  {
    Dead(set t | t in Final(F) :: Var(Tmp, t), {})
  }

  lemma KeptReads(cert: Cert, F: Func, b: nat, i: nat)
    requires Foldable(cert, F) && InFunc(F, b, i)
    ensures Reads(HalfStep(Rho(F, b, i), F[b][i])) !! Folded(F).All()
  {
    hide Decide, Certified, FoldSafe, WellShaped, Reads, RhoShape;
    var rho, I := Rho(F, b, i), F[b][i];
    RhoShapeAt(F, b, i);
    LateFolds(F, b, i);
    ResolvedReads(rho, I, Defined(F, b, i));
    RewrittenShape(ResolveInstr(rho, I));
    forall v | v in Reads(HalfStep(rho, I)) ensures v !in Folded(F).All() {
      assert v in Reads(ResolveInstr(rho, I));
      if v.kind.Tmp? { assert v.id in Defined(F, b, i) - rho.Keys; }
    }
  }

  lemma FoldedIsFinal(cert: Cert, F: Func, b: nat, i: nat)
    requires Foldable(cert, F) && InFunc(F, b, i) && Decide(ResolveInstr(Rho(F, b, i), F[b][i])).Vanishes?
    ensures F[b][i].dst.Ref? && F[b][i].dst.v.id in Final(F) && F[b][i].dst.v.id !in cert.buffers
  {
    hide Decide, ListOrder, Certified, WellShaped, Unfused, ResolveInstr;
    var rho, I := Rho(F, b, i), F[b][i];
    VanishedDst(rho, I);
    assert SafeAt(cert, rho, I);
    assert Rho(F, b, i + 1) == FoldStep(rho, I).1;
    RhoStays(F, b, i + 1, I.dst.v.id);
  }

  lemma VanishedDst(rho: Resolver, I: Instr)
    requires Decide(ResolveInstr(rho, I)).Vanishes?
    ensures IsTmp(I.dst)
  {
    VanishedShape(ResolveInstr(rho, I));
  }

  lemma VanishedDeletable(M: Machine, cert: Cert, F: Func, b: nat, i: nat)
    requires Foldable(cert, F) && Plain(M, cert) && InFunc(F, b, i)
    requires Decide(ResolveInstr(Rho(F, b, i), F[b][i])).Vanishes?
    ensures Deletable(M, Folded(F), ResolveInstr(Rho(F, b, i), F[b][i]))
  {
    hide Decide, Foldable, Rho, Final;
    var rho, I := Rho(F, b, i), F[b][i];
    FoldedIsFinal(cert, F, b, i);
    VanishedShape(ResolveInstr(rho, I));
    assert I.dst.v == Var(Tmp, I.dst.v.id);
    assert I.dst.v in Folded(F).temps;
  }

  lemma FoldIsPruned(M: Machine, cert: Cert, F: Func)
    requires Foldable(cert, F) && Plain(M, cert)
    ensures Pruned(M, Folded(F), Half(F), Fold(F))
  {
    hide Decide, Certified, FoldSafe, ListOrder, Deletable, Rho, Plain;
    forall b | 0 <= b < |F| ensures PhisFirst(Half(F)[b]) && CodePruned(M, Folded(F), Half(F)[b], Fold(F)[b]) {
      forall i | 0 <= i < |F[b]| ensures Kept(M, Folded(F), Half(F)[b][i], Fold(F)[b][i]) {
        assert InFunc(F, b, i);
        if Decide(ResolveInstr(Rho(F, b, i), F[b][i])).Vanishes? {
          VanishedDeletable(M, cert, F, b, i);
        } else {
          KeptReads(cert, F, b, i);
        }
      }
      HalfPhisFirst(F, b);
    }
  }

  lemma HalfPhisFirst(F: Func, b: nat)
    requires b < |F| && PhisFirst(F[b])
    ensures PhisFirst(Half(F)[b])
  {
    hide HalfStep, Rho;
    forall i | 0 <= i < |F[b]|
      ensures (Half(F)[b][i].op.Phi? <==> F[b][i].op.Phi?) && (Half(F)[b][i].op.Nop? <==> F[b][i].op.Nop?)
    {
      assert InFunc(F, b, i);
      HalfShape(Rho(F, b, i), F[b][i]);
    }
  }

  /**
   Constant folding preserves meaning: in every run from the entry, after any number of blocks, the
   folded function has made the same calls and stores, taken the same branches, trapped where the
   original trapped, and holds the same value in every slot and every surviving temporary.
   */
  lemma FoldPreservesRuns(M: Machine, cert: Cert, F: Func, c: Config, n: nat)
    requires Foldable(cert, F) && Plain(M, cert) && Initial(cert, F, c)
    ensures SameConfig(Folded(F), Run(M, F, c, n), Run(M, Fold(F), c, n))
  {
    hide Foldable, Plain, Initial, Run, Pruned, Folded, SameConfig, Private;
    HalfRun(M, cert, F, c, n);
    FoldIsPruned(M, cert, F);
    FoldedStart(M, F, c);
    RunPruned(M, Folded(F), Half(F), Fold(F), c, c, n);
  }

  lemma FoldedStart(M: Machine, F: Func, c: Config)
    ensures Private(M, Folded(F).slots) && SameConfig(Folded(F), c, c)
  {
    NothingIsPrivate(M);
  }

  // ----- a condition that can be read off the function -----

  predicate Calculates(op: Op)
  {
    op.Arith? || op.ICmp?
  }

  /** Comparisons, and arithmetic with a constant that is no identity: folded to constants only. */
  predicate Idle(I: Instr)
  {
    || I.op.ICmp?
    || (I.op.Arith? && I.dst.Ref?
        && if I.r2.Const? then I.r1.Const? || !IdentityFold(I.op.bin, I.r2.k, Right, I.dst.byval)
           else I.r1.Const? && !IdentityFold(I.op.bin, I.r1.k, Left, I.dst.byval))
  }

  /** Words only; arithmetic that may be folded away to a variable is relied on and tied to its operands. */
  predicate WholeWord(cert: Cert, I: Instr)
  {
    && Tied(cert, I)
    && (Calculates(I.op) && IsTmp(I.dst) ==>
          && I.dst.v.id !in cert.buffers && (Idle(I) || I.dst.v.id in cert.defs)
          && I.dst.size == 8 && ByteSize(I.r1) == 8 && ByteSize(I.r2) == 8)
    && (Calculates(I.op) && I.dst.Ref? && I.dst.v.kind.Local? ==> I.dst.size == 8)
    && (I.op.Store? ==>
          && I.dst.Ref? && I.dst.size == 8 && (IsTmp(I.dst) ==> I.dst.v.id in cert.buffers)
          && !I.r1.Null? && ByteSize(I.r1) == 8)
    && (I.op.Lea? && IsTmp(I.r1) ==> I.r1.v.id in cert.buffers)
  }

  ghost predicate WholeWords(cert: Cert, F: Func)
  {
    forall b, i :: InFunc(F, b, i) ==> WholeWord(cert, F[b][i])
  }

  predicate EightWide(rho: Resolver)
  {
    forall t :: t in rho ==> !rho[t].Null? && ByteSize(rho[t]) == 8
  }

  predicate NoBuffers(cert: Cert, rho: Resolver)
  {
    rho.Keys !! cert.buffers
  }

  lemma EightValue(I: Instr)
    requires Decide(I).Vanishes? && IsTmp(I.dst) && I.dst.size == 8 && ByteSize(I.r1) == 8 && ByteSize(I.r2) == 8
    ensures ByteSize(Decide(I).value) == 8 && !Decide(I).value.Null?
  {
  }

  lemma EightStep(cert: Cert, rho: Resolver, I: Instr)
    requires EightWide(rho) && NoBuffers(cert, rho) && WholeWord(cert, I)
    ensures EightWide(FoldStep(rho, I).1) && NoBuffers(cert, FoldStep(rho, I).1)
  {
    hide Decide, Idle, Tied;
    var I1 := ResolveInstr(rho, I);
    if Decide(I1).Vanishes? {
      VanishedShape(I1);
      EightValue(I1);
    }
  }

  lemma {:induction false} RhoEight(cert: Cert, F: Func, b: nat, i: nat)
    requires WholeWords(cert, F) && Position(F, b, i)
    ensures EightWide(Rho(F, b, i)) && NoBuffers(cert, Rho(F, b, i))
    decreases b, i
  {
    hide FoldStep, WholeWord;
    if i > 0 {
      RhoEight(cert, F, b, i - 1);
      assert InFunc(F, b, i - 1);
      EightStep(cert, Rho(F, b, i - 1), F[b][i - 1]);
    } else if b > 0 {
      RhoEight(cert, F, b - 1, |F[b - 1]|);
    }
  }

  /** An idle instruction is never redirected to a variable. */
  lemma IdleIsConst(rho: Resolver, I: Instr)
    requires Idle(I) && Decide(ResolveInstr(rho, I)).Vanishes?
    ensures Decide(ResolveInstr(rho, I)).value.Const?
  {
  }

  lemma WholeWordIsSafe(cert: Cert, rho: Resolver, I: Instr)
    requires EightWide(rho) && NoBuffers(cert, rho) && WholeWord(cert, I)
    ensures SafeAt(cert, rho, I)
  {
    hide Decide, Idle, Tied;
    var I1 := ResolveInstr(rho, I);
    if Decide(I1).Vanishes? {
      VanishedShape(I1);
      if Idle(I) { IdleIsConst(rho, I); }
    }
  }

  /** On whole words, what can be folded to a variable being tied to it is all that folding needs. */
  lemma WholeWordsAreSafe(cert: Cert, F: Func)
    requires WholeWords(cert, F)
    ensures FoldSafe(cert, F)
  {
    hide Rho, WholeWord, SafeAt;
    forall b, i | InFunc(F, b, i) ensures SafeAt(cert, Rho(F, b, i), F[b][i]) {
      RhoEight(cert, F, b, i);
      WholeWordIsSafe(cert, Rho(F, b, i), F[b][i]);
    }
  }
}
