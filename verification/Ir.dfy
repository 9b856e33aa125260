/**
 The intermediate representation the optimiser works on, and what it means to execute it.

 A function is a list of blocks; a block is a list of instructions; branch targets are positions
 in the block list (position 0 is the entry). Instructions have the one record shape of the
 source: an opcode, a destination, two sources and the addressing fields.

 Everything outside the function is a parameter of the semantics: how memory answers a load, what a
 store through a pointer changes, what a callee does. These are arbitrary functions, so a theorem
 about every `Machine` covers every aliasing pattern and every callee.
 */
module Ir {
  import opened Options
  import opened Words

  /** LOCAL is a frame slot, PARAM a value in its arrival register, TMP a temporary. */
  datatype Kind = Local | Param | Tmp

  datatype Var = Var(kind: Kind, id: nat)

  /** `reg` is the register a value is pinned to, if any. */
  datatype Operand =
    | Null
    | Const(k: Signed, width: nat)
    | Ref(v: Var, size: nat, reg: Option<Reg>, byval: bool)

  datatype Reg = X(n: nat) | D(m: nat)

  datatype BinOp = IAdd | ISub | IMul | And | Or | Xor | IDiv | UDiv | IRem | URem | Shl | Shr | Sar

  datatype CmpKind = Eq | Ne | Lt | Le | Gt | Ge | Ult | Ule | Ugt | Uge

  /** `Opaque` stands for the pure operations whose value the passes never look into: conversions,
      negations and all floating point. */
  datatype Op =
    | Nop | Alloca | Load | Store | LoadDeref | StoreDeref | RmwDeref(rmw: BinOp) | Lea
    | Arith(bin: BinOp) | ICmp(cmp: CmpKind) | Opaque(code: nat)
    | Ret | Br(target: nat, fall: nat) | CmpBr(kind: CmpKind, target: nat, fall: nat) | Jmp(target: nat)
    | Call(callee: nat) | Phi

  datatype PhiPair = PhiPair(value: Operand, block: nat)

  datatype Instr = Instr(
    op: Op, dst: Operand, r1: Operand, r2: Operand,
    idx: Operand, scale: nat, disp: int,
    args: seq<Operand>, pairs: seq<PhiPair>)

  type Code = seq<Instr>
  type Func = seq<Code>

  function NopInstr(): Instr
  {
    Instr(Nop, Null, Null, Null, Null, 0, 0, [], [])
  }

  // ----- state -----

  /** What pointers can reach: the frame slots and the rest of memory. */
  datatype Mem = Mem(slots: map<Var, Word>, heap: map<int, int>)

  datatype Event =
    | Called(callee: nat, target: Word, args: seq<Word>)
    | Stored(address: Word, value: Word)

  datatype State = State(temps: map<Var, Word>, mem: Mem, log: seq<Event>)

  datatype Machine = Machine(
    load: (Word, Mem) -> Option<Word>,
    store: (Word, Word, Mem) -> Option<Mem>,
    call: (nat, Word, seq<Word>, Mem) -> Option<(Mem, Word)>,
    address: Var -> Word,
    compute: (nat, Word, Word) -> Word,
    narrow: (nat, Word) -> Word,
    allocas: set<nat>)

  /** Frame slots and alloca'd temporaries live in memory; everything else is a value. */
  predicate Resident(M: Machine, v: Var)
  {
    v.kind.Local? || (v.kind.Tmp? && v.id in M.allocas)
  }

  function Lookup(m: map<Var, Word>, v: Var): Word
  {
    if v in m then m[v] else 0
  }

  function Get(M: Machine, s: State, v: Var): Word
  {
    if Resident(M, v) then Lookup(s.mem.slots, v) else Lookup(s.temps, v)
  }

  function Set(M: Machine, s: State, v: Var, w: Word): State
  {
    if Resident(M, v) then s.(mem := s.mem.(slots := s.mem.slots[v := w]))
    else s.(temps := s.temps[v := w])
  }

  function Eval(M: Machine, s: State, o: Operand): Word
  {
    match o
    case Null => 0
    case Const(k, _) => Wrap(k)
    case Ref(v, _, _, _) => Get(M, s, v)
  }

  function ByteSize(o: Operand): nat
  {
    match o
    case Null => 8
    case Const(_, width) => width
    case Ref(_, size, _, _) => size
  }

  function Narrowed(M: Machine, width: nat, w: Word): Word
  {
    if width >= 8 then w else M.narrow(width, w)
  }

  function Put(M: Machine, s: State, dst: Operand, width: nat, w: Word): State
  {
    match dst
    case Ref(v, size, _, _) => Set(M, s, v, Narrowed(M, width, w))
    case _ => s
  }

  function Assign(M: Machine, s: State, dst: Operand, w: Word): State
  {
    Put(M, s, dst, ByteSize(dst), w)
  }

  // ----- arithmetic -----

  /** The target's integer unit; None is a trap. */
  function Alu(op: BinOp, a: Word, b: Word): Option<Word>
  {
    match op
    case IAdd => Some(Wrap(a + b))
    case ISub => Some(Wrap(a - b))
    case IMul => Some(Wrap(a * b))
    case And => Some(BitAnd(a, b))
    case Or => Some(WordOr(a, b))
    case Xor => Some(WordXor(a, b))
    case IDiv =>
      if b == 0 || (a == TWO63 && b == TWO64 - 1) then None
      else Some(Wrap(TruncDiv(ToSigned(a), ToSigned(b))))
    case UDiv => if b == 0 then None else Some(Wrap(a / b))
    case IRem =>
      if b == 0 || (a == TWO63 && b == TWO64 - 1) then None
      else Some(Wrap(TruncRem(ToSigned(a), ToSigned(b))))
    case URem => if b == 0 then None else Some(Wrap(a % b))
    case Shl => Some(Wrap(a * Pow2(b % 64)))
    case Shr => Some(Wrap(a / Pow2(b % 64)))
    case Sar => Some(Wrap(ToSigned(a) / Pow2(b % 64)))
  }

  function WordOr(a: Word, b: Word): Word
  {
    Pow2At64(); BitOrBound(a, b, 64);
    BitOr(a, b)
  }

  function WordXor(a: Word, b: Word): Word
  {
    Pow2At64(); BitOrBound(a, b, 64);
    BitXor(a, b)
  }

  predicate Divides(op: BinOp)
  {
    op.IDiv? || op.UDiv? || op.IRem? || op.URem?
  }

  function Compare(c: CmpKind, a: Word, b: Word): bool
  {
    match c
    case Eq => a == b
    case Ne => a != b
    case Lt => ToSigned(a) < ToSigned(b)
    case Le => ToSigned(a) <= ToSigned(b)
    case Gt => ToSigned(a) > ToSigned(b)
    case Ge => ToSigned(a) >= ToSigned(b)
    case Ult => a < b
    case Ule => a <= b
    case Ugt => a > b
    case Uge => a >= b
  }

  // ----- execution -----

  datatype Outcome =
    | Next(s: State)
    | Goto(block: nat, s: State)
    | Return(value: Word, s: State)
    | Trap(s: State)

  /** The effective address of a memory operation, modulo 2^64. */
  function Address(M: Machine, s: State, base: Operand, I: Instr): Word
  {
    Wrap(Eval(M, s, base) + I.scale * Eval(M, s, I.idx) + I.disp)
  }

  function EvalAll(M: Machine, s: State, os: seq<Operand>): seq<Word>
  {
    seq(|os|, i requires 0 <= i < |os| => Eval(M, s, os[i]))
  }

  function Min(a: nat, b: nat): nat
  {
    if a < b then a else b
  }

  function WriteThrough(M: Machine, s: State, a: Word, w: Word): Outcome
  {
    match M.store(a, w, s.mem)
    case None => Trap(s)
    case Some(mem) => Next(s.(mem := mem, log := s.log + [Stored(a, w)]))
  }

  function Step(M: Machine, I: Instr, s: State): Outcome
  {
    match I.op
    case Nop => Next(s)
    case Alloca => Next(s)
    case Phi => Next(s)
    case Load => Next(Assign(M, s, I.dst, Eval(M, s, I.r1)))
    case Store => Next(Put(M, s, I.dst, Min(ByteSize(I.dst), ByteSize(I.r1)), Eval(M, s, I.r1)))
    case LoadDeref =>
      (match M.load(Address(M, s, I.r1, I), s.mem)
       case None => Trap(s)
       case Some(w) => Next(Assign(M, s, I.dst, w)))
    case StoreDeref => WriteThrough(M, s, Address(M, s, I.dst, I), Eval(M, s, I.r1))
    case RmwDeref(op) =>
      (match M.load(Address(M, s, I.dst, I), s.mem)
       case None => Trap(s)
       case Some(w) =>
         match Alu(op, w, Eval(M, s, I.r1))
         case None => Trap(s)
         case Some(x) => WriteThrough(M, s, Address(M, s, I.dst, I), x))
    case Lea => Next(Assign(M, s, I.dst, if I.r1.Ref? then M.address(I.r1.v) else 0))
    case Arith(op) =>
      (match Alu(op, Eval(M, s, I.r1), Eval(M, s, I.r2))
       case None => Trap(s)
       case Some(w) => Next(Assign(M, s, I.dst, w)))
    case ICmp(c) =>
      Next(Assign(M, s, I.dst, if Compare(c, Eval(M, s, I.r1), Eval(M, s, I.r2)) then 1 else 0))
    case Opaque(code) =>
      Next(Assign(M, s, I.dst, M.compute(code, Eval(M, s, I.r1), Eval(M, s, I.r2))))
    case Ret => Return(Eval(M, s, I.dst), s)
    case Br(t, f) => Goto(if Eval(M, s, I.dst) != 0 then t else f, s)
    case CmpBr(c, t, f) => Goto(if Compare(c, Eval(M, s, I.r1), Eval(M, s, I.r2)) then t else f, s)
    case Jmp(t) => Goto(t, s)
    case Call(f) =>
      var args := EvalAll(M, s, I.args);
      var target := Eval(M, s, I.r2);
      var s1 := s.(log := s.log + [Called(f, target, args)]);
      match M.call(f, target, args, s.mem)
      case None => Trap(s1)
      case Some((mem, w)) => Next(Assign(M, s1.(mem := mem), I.dst, w))
  }

  /** Runs a block from its first instruction; running off the end is an error. */
  function Exec(M: Machine, code: Code, s: State): Outcome
  {
    if code == [] then Trap(s)
    else
      match Step(M, code[0], s)
      case Next(s1) => Exec(M, code[1..], s1)
      case o => o
  }

  // ----- phis take effect together, on the edge into the block -----

  datatype Move = Move(dst: Operand, src: Operand)

  function Incoming(pairs: seq<PhiPair>, from: nat): Option<Operand>
  {
    if pairs == [] then None
    else if pairs[0].block == from then Some(pairs[0].value)
    else Incoming(pairs[1..], from)
  }

  function PhiMoves(code: Code, from: nat): seq<Move>
  {
    if code == [] then []
    else if code[0].op.Nop? then PhiMoves(code[1..], from)
    else if code[0].op.Phi? then
      var rest := PhiMoves(code[1..], from);
      match Incoming(code[0].pairs, from)
      case Some(v) => if v.Null? then rest else [Move(code[0].dst, v)] + rest
      case None => rest
    else []
  }

  /** What a single instruction contributes. */
  function MoveOf(I: Instr, from: nat): seq<Move>
  {
    if !I.op.Phi? then []
    else match Incoming(I.pairs, from)
      case Some(v) => if v.Null? then [] else [Move(I.dst, v)]
      case None => []
  }

  /** Writes every move's value as it was in `before`. */
  function AssignAll(M: Machine, before: State, s: State, moves: seq<Move>): State
    decreases |moves|
  {
    if moves == [] then s
    else AssignAll(M, before, Assign(M, s, moves[0].dst, Eval(M, before, moves[0].src)), moves[1..])
  }

  function Enter(M: Machine, code: Code, from: nat, s: State): State
  {
    AssignAll(M, s, s, PhiMoves(code, from))
  }

  // ----- whole runs -----

  datatype Config = At(from: nat, block: nat, s: State) | Finished(out: Outcome)

  function StepBlock(M: Machine, F: Func, c: Config): Config
  {
    match c
    case Finished(_) => c
    case At(from, b, s) =>
      if b >= |F| then Finished(Trap(s))
      else
        match Exec(M, F[b], Enter(M, F[b], from, s))
        case Goto(t, s1) => At(b, t, s1)
        case o => Finished(o)
  }

  /** The configuration after n blocks; a finished run stays finished. */
  function Run(M: Machine, F: Func, c: Config, n: nat): Config
  {
    if n == 0 then c else StepBlock(M, F, Run(M, F, c, n - 1))
  }
}
