/**
 AArch64 calls: the sizing pre-pass and the argument loop of a64EmitCall, and the callee's
 a64EmitParamPrologue. The emitted primitives act on registers and memory, so that what the three loops
 agree on can be stated as bytes arriving where the callee looks for them.
 */
module CallLowering {
  import opened Regions

  // ----- parameters -----

  datatype Class = Scalar(isFloat: bool) | Hfa(elem: nat, count: nat) | Integer | Indirect
  datatype Param = Param(cls: Class, size: nat)

  /** What astAapcsClassify can answer. */
  predicate Classified(p: Param)
  {
    match p.cls
    case Scalar(_) => p.size <= 8
    case Hfa(elem, count) => 1 <= count <= 4 && 1 <= elem <= 8 && p.size == elem * count
    case Integer => p.size <= 16
    case Indirect => p.size > 16
  }

  predicate AllClassified(ps: seq<Param>)
  {
    forall i :: 0 <= i < |ps| ==> Classified(ps[i])
  }

  // ----- where an argument goes -----

  /** Next integer register, next vector register, next stack byte, next byte of the copy area. */
  datatype Cursor = Cursor(g: nat, s: nat, nsaa: nat, copy: nat)

  /** Offsets are relative to the lowered stack pointer. */
  datatype Placement =
    | Regs(isFp: bool, first: nat, width: nat, count: nat)
    | Stack(off: nat)
    | PtrReg(reg: nat, copy: nat)
    | PtrStack(off: nat, copy: nat)

  function Words(size: nat): nat
  {
    (size + 7) / 8
  }

  function Advance(c: Cursor, p: Param): Cursor
  {
    match p.cls
    case Scalar(true) => if c.s < 8 then c.(s := c.s + 1) else c.(nsaa := c.nsaa + 8)
    case Scalar(false) => if c.g < 8 then c.(g := c.g + 1) else c.(nsaa := c.nsaa + 8)
    case Hfa(_, count) =>
      if c.s + count <= 8 then c.(s := c.s + count) else c.(nsaa := c.nsaa + Round8(p.size), s := 8)
    case Integer =>
      if c.g + Words(p.size) <= 8 then c.(g := c.g + Words(p.size)) else c.(nsaa := c.nsaa + Round8(p.size), g := 8)
    case Indirect =>
      var d := c.(copy := c.copy + Round16(p.size));
      if c.g < 8 then d.(g := c.g + 1) else d.(nsaa := c.nsaa + 8)
  }

  /** The cursors in front of argument n. */
  function Cursors(ps: seq<Param>, n: nat): Cursor
    requires n <= |ps|
  {
    if n == 0 then Cursor(0, 0, 0, 0) else Advance(Cursors(ps, n - 1), ps[n - 1])
  }

  function Place(c: Cursor, p: Param, copyBase: nat): Placement
  {
    match p.cls
    case Scalar(true) => if c.s < 8 then Regs(true, c.s, 8, 1) else Stack(c.nsaa)
    case Scalar(false) => if c.g < 8 then Regs(false, c.g, 8, 1) else Stack(c.nsaa)
    case Hfa(elem, count) => if c.s + count <= 8 then Regs(true, c.s, elem, count) else Stack(c.nsaa)
    case Integer => if c.g + Words(p.size) <= 8 then Regs(false, c.g, 8, Words(p.size)) else Stack(c.nsaa)
    case Indirect => if c.g < 8 then PtrReg(c.g, copyBase + c.copy) else PtrStack(c.nsaa, copyBase + c.copy)
  }

  // ----- machine -----

  /** A byte of memory or of a register; pointers are eight cells that say where they point. */
  datatype Cell = Byte(b: int) | ArgPtr(arg: nat, k: int) | StackPtr(addr: int, k: int)

  /** `buf` is the destination buffer of an aggregate return, which lies outside the call area. */
  datatype Machine = Machine(sp: int, x: int -> seq<Cell>, v: int -> seq<Cell>, mem: int -> Cell, buf: int -> Cell)
  {
    function Reg(isFp: bool, r: int): seq<Cell>
    {
      if isFp then v(r) else x(r)
    }

    function SetReg(isFp: bool, r: int, c: seq<Cell>): Machine
    {
      if isFp then this.(v := Put(v, r, c)) else this.(x := Put(x, r, c))
    }

    function Store(at: int, c: seq<Cell>): Machine
    {
      this.(mem := Write(mem, at, c))
    }
  }

  function Put<T>(f: int -> T, i: int, t: T): int -> T
  {
    j => if j == i then t else f(j)
  }

  function Write(m: int -> Cell, at: int, c: seq<Cell>): int -> Cell
  {
    a => if at <= a < at + |c| then c[a - at] else m(a)
  }

  function Read(m: int -> Cell, at: int, n: nat): (c: seq<Cell>)
    ensures |c| == n && forall k :: 0 <= k < n ==> c[k] == m(at + k)
  {
    seq(n, k requires 0 <= k < n => m(at + k))
  }

  function ArgAddr(i: nat): (c: seq<Cell>)
    ensures |c| == 8 && c[0] == ArgPtr(i, 0)
  {
    seq(8, k => ArgPtr(i, k))
  }

  function StackAddr(a: int): (c: seq<Cell>)
    ensures |c| == 8 && c[0] == StackPtr(a, 0)
  {
    seq(8, k => StackPtr(a, k))
  }

  /** n cells of s from `off`; anything outside s is zero. */
  function Slice(s: seq<Cell>, off: nat, n: nat): (c: seq<Cell>)
    ensures |c| == n
  {
    if off + n <= |s| then s[off..off + n] else seq(n, k => Byte(0))
  }

  /** A load of fewer than eight bytes clears the rest of the register. */
  function Widen(c: seq<Cell>): (r: seq<Cell>)
    ensures |r| >= |c| && r[..|c|] == c
  {
    if |c| < 8 then c + seq(8 - |c|, k => Byte(0)) else c
  }

  /** The contents of the argument a register points to. */
  function Pointee(vals: seq<seq<Cell>>, r: seq<Cell>): seq<Cell>
  {
    if |r| == 8 && r[0].ArgPtr? && r[0].arg < |vals| then vals[r[0].arg] else []
  }

  // ----- the caller -----

  datatype CallOp =
    | SubSp(n: nat)
    | AddSp(n: nat)
    | StructAddr(arg: nat)
    | CopyToSp(size: nat, off: nat)
    | AggLoad(isFp: bool, reg: nat, off: nat, size: nat)
    | PtrInReg(reg: nat, off: nat)
    | PtrToStack(off: nat, nsaa: nat)
    | ScalarToReg(arg: nat, isFp: bool, reg: nat)
    | ScalarToStack(arg: nat, isFp: bool, size: nat, nsaa: nat)
    | StashDest(off: nat)
    | UnstashDest(off: nat)
    | RetChunk(isFp: bool, reg: nat, off: nat, size: nat)

  /** One emitted primitive. An overflowing float goes through vector register 0, an integer through x9. */
  function Step(vals: seq<seq<Cell>>, st: Machine, op: CallOp): Machine
  {
    match op
    case SubSp(n) => st.(sp := st.sp - n)
    case AddSp(n) => st.(sp := st.sp + n)
    case StructAddr(i) => st.SetReg(false, 9, ArgAddr(i))
    case CopyToSp(size, off) => st.Store(st.sp + off, Slice(Pointee(vals, st.x(9)), 0, size))
    case AggLoad(isFp, r, off, size) => st.SetReg(isFp, r, Widen(Slice(Pointee(vals, st.x(9)), off, size)))
    case PtrInReg(r, off) => st.SetReg(false, r, StackAddr(st.sp + off))
    case PtrToStack(off, nsaa) => st.Store(st.sp + nsaa, StackAddr(st.sp + off))
    case ScalarToReg(i, isFp, r) => st.SetReg(isFp, r, if i < |vals| then vals[i] else [])
    case ScalarToStack(i, isFp, size, nsaa) =>
      var val := if i < |vals| then vals[i] else [];
      st.SetReg(isFp, if isFp then 0 else 9, val).Store(st.sp + nsaa, Slice(val, 0, if isFp then size else 8))
    case StashDest(off) => st.Store(st.sp + off, st.x(9))
    case UnstashDest(off) => st.SetReg(false, 9, Read(st.mem, st.sp + off, 8))
    case RetChunk(isFp, r, off, size) =>
      if st.x(9) == ArgAddr(0) then st.(buf := Write(st.buf, off, Slice(st.Reg(isFp, r), 0, size))) else st
  }

  function Exec(vals: seq<seq<Cell>>, st: Machine, ops: seq<CallOp>): Machine
  {
    if ops == [] then st else Step(vals, Exec(vals, st, ops[..|ops| - 1]), ops[|ops| - 1])
  }

  lemma {:induction false} ExecAppend(vals: seq<seq<Cell>>, st: Machine, a: seq<CallOp>, b: seq<CallOp>)
    ensures Exec(vals, st, a + b) == Exec(vals, Exec(vals, st, a), b)
    decreases |b|
  {
    hide Step;
    if b == [] {
      assert a + b == a;
    } else {
      var c := b[..|b| - 1];
      ExecAppend(vals, st, a, c);
      assert (a + b)[..|a + b| - 1] == a + c;
    }
  }

  function Times(k: nat, width: nat): nat
  {
    k * width
  }

  /** Width of chunk k of an aggregate spread over registers. */
  function ChunkSize(size: nat, width: nat, k: nat): nat
  {
    if size < Times(k, width) then 0 else if size - Times(k, width) >= width then width else size - Times(k, width)
  }

  function Chunks(isFp: bool, first: nat, width: nat, size: nat, n: nat): seq<CallOp>
  {
    if n == 0 then []
    else Chunks(isFp, first, width, size, n - 1)
         + [AggLoad(isFp, first + n - 1, Times(n - 1, width), ChunkSize(size, width, n - 1))]
  }

  function ArgOps(i: nat, p: Param, c: Cursor, copyBase: nat): seq<CallOp>
  {
    match (p.cls, Place(c, p, copyBase))
    case (Scalar(_), Regs(isFp, first, _, _)) => [ScalarToReg(i, isFp, first)]
    case (Scalar(isFloat), Stack(off)) => [ScalarToStack(i, isFloat, p.size, off)]
    case (_, Regs(isFp, first, width, count)) => [StructAddr(i)] + Chunks(isFp, first, width, p.size, count)
    case (_, Stack(off)) => [StructAddr(i), CopyToSp(p.size, off)]
    case (_, PtrReg(r, copy)) => [StructAddr(i), CopyToSp(p.size, copy), PtrInReg(r, copy)]
    case (_, PtrStack(off, copy)) => [StructAddr(i), CopyToSp(p.size, copy), PtrToStack(copy, off)]
  }

  function ArgsOps(a0: nat, ps: seq<Param>, n: nat, copyBase: nat): seq<CallOp>
    requires n <= |ps|
  {
    if n == 0 then []
    else ArgsOps(a0, ps, n - 1, copyBase) + ArgOps(a0 + n - 1, ps[n - 1], Cursors(ps, n - 1), copyBase)
  }

  // ----- what an argument's placement means -----

  /** Scalars are held as eight bytes, aggregates as their own size. */
  predicate Values(a0: nat, ps: seq<Param>, vals: seq<seq<Cell>>)
  {
    && |vals| == a0 + |ps|
    && forall i :: 0 <= i < |ps| ==> |vals[a0 + i]| == ValueSize(ps[i])
  }

  predicate HoldsChunk(r: seq<Cell>, val: seq<Cell>, width: nat, k: nat)
  {
    var n := ChunkSize(|val|, width, k);
    Times(k, width) + n <= |val| && Slice(r, 0, n) == Slice(val, Times(k, width), n)
  }

  predicate ChunkAt(st: Machine, isFp: bool, first: nat, val: seq<Cell>, width: nat, k: int)
  {
    0 <= k ==> HoldsChunk(st.Reg(isFp, first + k), val, width, k)
  }

  /** The argument's bytes are where its placement says, seen by a callee entered with this machine. */
  predicate Holds(st: Machine, pl: Placement, size: nat, val: seq<Cell>)
  {
    match pl
    case Regs(isFp, first, width, count) =>
      forall k :: 0 <= k < count ==> ChunkAt(st, isFp, first, val, width, k)
    case Stack(off) => Read(st.mem, st.sp + off, size) == Slice(val, 0, size)
    case PtrReg(r, copy) =>
      st.x(r) == StackAddr(st.sp + copy) && Read(st.mem, st.sp + copy, size) == Slice(val, 0, size)
    case PtrStack(off, copy) =>
      Read(st.mem, st.sp + off, 8) == StackAddr(st.sp + copy) && Read(st.mem, st.sp + copy, size) == Slice(val, 0, size)
  }

  /** The placement lies entirely in what the cursors have already handed out. */
  predicate Below(pl: Placement, size: nat, c: Cursor, base: nat)
  {
    match pl
    case Regs(isFp, first, _, count) => first + count <= if isFp then c.s else c.g
    case Stack(off) => off + size <= c.nsaa
    case PtrReg(r, copy) => r < c.g && base <= copy && copy + size <= base + c.copy
    case PtrStack(off, copy) => off + 8 <= c.nsaa && base <= copy && copy + size <= base + c.copy
  }

  predicate AtMost(c: Cursor, d: Cursor)
  {
    c.g <= d.g && c.s <= d.s && c.nsaa <= d.nsaa && c.copy <= d.copy
  }

  predicate InRange(c: Cursor)
  {
    c.g <= 8 && c.s <= 8 && c.nsaa % 8 == 0 && c.copy % 16 == 0
  }

  lemma AdvanceGrows(c: Cursor, p: Param)
    requires InRange(c)
    ensures InRange(Advance(c, p)) && AtMost(c, Advance(c, p))
  {
    hide Words, Round8, Round16;
    Add8(c.nsaa, Round8(p.size));
    Add8(c.nsaa, 8);
    Add16(c.copy, Round16(p.size));
  }

  lemma Add8(a: nat, b: nat)
    requires a % 8 == 0 && b % 8 == 0
    ensures (a + b) % 8 == 0
  {
  }

  lemma Add16(a: nat, b: nat)
    requires a % 16 == 0 && b % 16 == 0
    ensures (a + b) % 16 == 0
  {
  }

  lemma {:induction false} CursorsGrow(ps: seq<Param>, i: nat, j: nat)
    requires i <= j <= |ps|
    ensures AtMost(Cursors(ps, i), Cursors(ps, j)) && InRange(Cursors(ps, j))
    decreases j
  {
    hide Advance, InRange;
    if i < j {
      CursorsGrow(ps, i, j - 1);
      AdvanceGrows(Cursors(ps, j - 1), ps[j - 1]);
    } else if j > 0 {
      CursorsGrow(ps, j - 1, j - 1);
      AdvanceGrows(Cursors(ps, j - 1), ps[j - 1]);
    } else {
      StartInRange(ps);
    }
  }

  lemma StartInRange(ps: seq<Param>)
    ensures InRange(Cursors(ps, 0))
  {
  }

  lemma PlaceBelowAdvance(c: Cursor, p: Param, base: nat)
    requires Classified(p)
    ensures Below(Place(c, p, base), p.size, Advance(c, p), base)
  {
    hide Words;
  }

  lemma BelowGrows(pl: Placement, size: nat, c: Cursor, d: Cursor, base: nat)
    requires Below(pl, size, c, base) && AtMost(c, d)
    ensures Below(pl, size, d, base)
  {
  }

  /** Each argument takes its place from what no earlier one had. */
  lemma PlacedBelow(ps: seq<Param>, i: nat, j: nat, base: nat)
    requires AllClassified(ps) && i < j <= |ps|
    ensures Below(Place(Cursors(ps, i), ps[i], base), ps[i].size, Cursors(ps, j), base)
  {
    hide Place, Advance, Below, InRange, AtMost, Classified;
    PlaceBelowAdvance(Cursors(ps, i), ps[i], base);
    CursorsGrow(ps, i + 1, j);
    BelowGrows(Place(Cursors(ps, i), ps[i], base), ps[i].size, Cursors(ps, i + 1), Cursors(ps, j), base);
  }

  // ----- one argument -----

  /** Nothing the cursors had handed out has changed, nor anything outside the call area, nor x8. */
  ghost predicate Keeps(st: Machine, st': Machine, c: Cursor, base: nat, top: nat)
  {
    && st'.sp == st.sp && st'.buf == st.buf
    && (forall r: int :: r < c.g || r == 8 ==> st'.x(r) == st.x(r))
    && (forall r: int :: r < c.s ==> st'.v(r) == st.v(r))
    && (forall a: int :: Settled(a - st.sp, c, base, top) ==> st'.mem(a) == st.mem(a))
  }

  predicate Settled(off: int, c: Cursor, base: nat, top: nat)
  {
    off < c.nsaa || base <= off < base + c.copy || top <= off
  }

  lemma KeepsBytes(st: Machine, st': Machine, off: nat, size: nat, c: Cursor, base: nat, top: nat)
    requires Keeps(st, st', c, base, top)
    requires off + size <= c.nsaa || (base <= off && off + size <= base + c.copy)
    ensures Read(st'.mem, st.sp + off, size) == Read(st.mem, st.sp + off, size)
  {
    forall a | st.sp + off <= a < st.sp + off + size ensures st'.mem(a) == st.mem(a) {
      assert Settled(a - st.sp, c, base, top);
    }
  }

  lemma KeepsHolds(st: Machine, st': Machine, pl: Placement, size: nat, val: seq<Cell>, c: Cursor, base: nat, top: nat)
    requires Keeps(st, st', c, base, top) && Below(pl, size, c, base) && Holds(st, pl, size, val)
    ensures Holds(st', pl, size, val)
  {
    hide HoldsChunk, Slice, Read, Settled;
    match pl
    case Regs(isFp, first, width, count) =>
      forall k | 0 <= k < count ensures ChunkAt(st', isFp, first, val, width, k) {
        assert ChunkAt(st, isFp, first, val, width, k);
        assert st'.Reg(isFp, first + k) == st.Reg(isFp, first + k);
      }
    case Stack(off) => KeepsBytes(st, st', off, size, c, base, top);
    case PtrReg(r, copy) => KeepsBytes(st, st', copy, size, c, base, top);
    case PtrStack(off, copy) =>
      KeepsBytes(st, st', off, 8, c, base, top);
      KeepsBytes(st, st', copy, size, c, base, top);
  }

  lemma ReadSame(m: int -> Cell, m': int -> Cell, at: int, n: nat)
    requires forall a :: at <= a < at + n ==> m(a) == m'(a)
    ensures Read(m, at, n) == Read(m', at, n)
  {
  }

  lemma WriteFrame(m: int -> Cell, at: int, c: seq<Cell>)
    ensures forall a: int :: !(at <= a < at + |c|) ==> Write(m, at, c)(a) == m(a)
  {
  }

  lemma ReadBack(m: int -> Cell, at: int, c: seq<Cell>)
    ensures Read(Write(m, at, c), at, |c|) == c
  {
  }

  lemma WriteExtends(m: int -> Cell, to: int, val: seq<Cell>, at: nat, n: nat)
    requires at + n <= |val| && Read(m, to, at) == val[..at]
    ensures Read(Write(m, to + at, val[at..at + n]), to, at + n) == val[..at + n]
  {
    var m' := Write(m, to + at, val[at..at + n]);
    forall k | 0 <= k < at + n ensures m'(to + k) == val[k] {
      if k < at {
        assert m(to + k) == Read(m, to, at)[k];
      }
    }
  }

  lemma WriteNothing(m: int -> Cell, to: int, at: int, c: seq<Cell>, n: nat)
    requires c == []
    ensures Read(Write(m, at, c), to, n) == Read(m, to, n)
  {
  }

  /** Loading the chunks of an aggregate fills its registers and touches no other. */
  lemma {:induction false} ChunksLoad(vals: seq<seq<Cell>>, st: Machine, i: nat, isFp: bool, first: nat, width: nat,
                                      n: nat)
    requires i < |vals| && st.x(9) == ArgAddr(i) && first + n <= 8
    requires forall k :: 0 <= k < n ==> Times(k, width) + ChunkSize(|vals[i]|, width, k) <= |vals[i]|
    ensures var st' := Exec(vals, st, Chunks(isFp, first, width, |vals[i]|, n));
            && st'.sp == st.sp && st'.buf == st.buf && st'.mem == st.mem && st'.x(9) == st.x(9)
            && (forall k :: 0 <= k < n ==> ChunkAt(st', isFp, first, vals[i], width, k))
            && (forall r: int :: !(first <= r < first + n) || isFp ==> st'.x(r) == st.x(r))
            && (forall r: int :: !(first <= r < first + n) || !isFp ==> st'.v(r) == st.v(r))
    decreases n
  {
    hide Times, ChunkSize, Step, HoldsChunk;
    if n > 0 {
      ChunksLoad(vals, st, i, isFp, first, width, n - 1);
      var ops := Chunks(isFp, first, width, |vals[i]|, n - 1);
      var size := ChunkSize(|vals[i]|, width, n - 1);
      var op := AggLoad(isFp, first + n - 1, Times(n - 1, width), size);
      ChunkLoads(vals, Exec(vals, st, ops), i, isFp, first + n - 1, width, n - 1);
      assert (ops + [op])[..|ops|] == ops;
      var st1, st2 := Exec(vals, st, ops), Exec(vals, st, ops + [op]);
      assert st2 == Step(vals, st1, op);
      forall k | 0 <= k < n ensures ChunkAt(st2, isFp, first, vals[i], width, k) {
        if k < n - 1 {
          assert ChunkAt(st1, isFp, first, vals[i], width, k);
          assert st2.Reg(isFp, first + k) == st1.Reg(isFp, first + k);
        }
      }
    }
  }

  lemma ChunkLoads(vals: seq<seq<Cell>>, st: Machine, i: nat, isFp: bool, r: nat, width: nat, k: nat)
    requires i < |vals| && st.x(9) == ArgAddr(i) && r < 8
    requires Times(k, width) + ChunkSize(|vals[i]|, width, k) <= |vals[i]|
    ensures var st' := Step(vals, st, AggLoad(isFp, r, Times(k, width), ChunkSize(|vals[i]|, width, k)));
            && st'.sp == st.sp && st'.buf == st.buf && st'.mem == st.mem && st'.x(9) == st.x(9)
            && HoldsChunk(st'.Reg(isFp, r), vals[i], width, k)
            && (forall q: int :: q != r || isFp ==> st'.x(q) == st.x(q))
            && (forall q: int :: q != r || !isFp ==> st'.v(q) == st.v(q))
  {
    hide ChunkSize, Times;
    var c := Slice(vals[i], Times(k, width), ChunkSize(|vals[i]|, width, k));
    assert Widen(c)[..|c|] == c;
  }

  lemma ChunksFit(p: Param, c: Cursor, base: nat, k: nat)
    requires Classified(p) && !p.cls.Scalar?
    ensures var pl := Place(c, p, base);
            pl.Regs? && k < pl.count ==> Times(k, pl.width) + ChunkSize(p.size, pl.width, k) <= p.size
  {
    var pl := Place(c, p, base);
    if pl.Regs? && k < pl.count && p.cls.Hfa? {
      assert k == 0 || k == 1 || k == 2 || k == 3;
    }
  }

  /** The overflowing scalar floats are exactly the arguments sent through vector register 0. */
  predicate Overflows(p: Param, c: Cursor)
  {
    p.cls == Scalar(true) && c.s >= 8
  }

  /** Room for this argument's stack bytes and copy. */
  predicate Room(c: Cursor, p: Param, base: nat, top: nat)
  {
    InRange(c) && Advance(c, p).nsaa <= base && base + Advance(c, p).copy <= top
  }

  lemma RoomFacts(c: Cursor, p: Param, base: nat, top: nat)
    requires Room(c, p, base, top)
    ensures c.g <= 8 && c.s <= 8 && c.nsaa <= base <= top
    ensures Place(c, p, base).Stack? && !p.cls.Scalar? ==> c.nsaa + p.size <= base
    ensures Place(c, p, base).Stack? && p.cls.Scalar? ==> c.nsaa + 8 <= base
    ensures p.cls.Indirect? ==> base + c.copy + p.size <= top
    ensures p.cls.Indirect? && c.g == 8 ==> c.nsaa + 8 <= base
  {
    hide Words;
  }

  lemma ScalarInReg(vals: seq<seq<Cell>>, st: Machine, i: nat, p: Param, c: Cursor, base: nat, top: nat)
    requires i < |vals| && p.cls.Scalar? && |vals[i]| == 8 && InRange(c) && Place(c, p, base).Regs?
    ensures var st' := Exec(vals, st, ArgOps(i, p, c, base));
            Holds(st', Place(c, p, base), p.size, vals[i]) && Keeps(st, st', c, base, top)
  {
    assert c.g <= 8 && c.s <= 8;
    hide InRange, ArgAddr, StackAddr;
    var pl := Place(c, p, base);
    var op := ScalarToReg(i, pl.isFp, pl.first);
    ExecOne(vals, st, op);
    var st' := Step(vals, st, op);
    assert st'.Reg(pl.isFp, pl.first) == vals[i];
    assert ChunkAt(st', pl.isFp, pl.first, vals[i], 8, 0);
  }

  lemma ScalarStored(vals: seq<seq<Cell>>, st: Machine, i: nat, isFp: bool, size: nat, off: nat)
    requires i < |vals| && |vals[i]| == 8 && size <= 8
    ensures var st' := Step(vals, st, ScalarToStack(i, isFp, size, off));
            && st'.sp == st.sp && st'.buf == st.buf
            && (if isFp then st'.x == st.x && st'.v == Put(st.v, 0, vals[i])
                else st'.v == st.v && st'.x == Put(st.x, 9, vals[i]))
            && Read(st'.mem, st.sp + off, size) == Slice(vals[i], 0, size)
            && forall a: int :: !(off <= a - st.sp < off + 8) ==> st'.mem(a) == st.mem(a)
  {
    var st' := Step(vals, st, ScalarToStack(i, isFp, size, off));
    var w := Slice(vals[i], 0, if isFp then size else 8);
    assert st'.mem == Write(st.mem, st.sp + off, w);
    ReadBack(st.mem, st.sp + off, w);
    WriteFrame(st.mem, st.sp + off, w);
    assert Read(st'.mem, st.sp + off, |w|)[..size] == w[..size];
    assert Read(st'.mem, st.sp + off, size) == Read(st'.mem, st.sp + off, |w|)[..size];
  }

  lemma ScalarOnStack(vals: seq<seq<Cell>>, st: Machine, i: nat, p: Param, c: Cursor, base: nat, top: nat)
    requires i < |vals| && Classified(p) && p.cls.Scalar? && |vals[i]| == 8 && Room(c, p, base, top)
    requires Place(c, p, base).Stack?
    ensures var st' := Exec(vals, st, ArgOps(i, p, c, base));
            && Holds(st', Place(c, p, base), p.size, vals[i])
            && (if Overflows(p, c) then st'.v(0) == vals[i] && Keeps(st, st', c.(s := 0), base, top)
                else Keeps(st, st', c, base, top))
  {
    hide InRange, ArgAddr, StackAddr, Step, Write, Slice, Room, Advance, Words, Round8, Round16, ChunkAt;
    RoomFacts(c, p, base, top);
    var op := ScalarToStack(i, p.cls.isFloat, p.size, c.nsaa);
    ExecOne(vals, st, op);
    ScalarStored(vals, st, i, p.cls.isFloat, p.size, c.nsaa);
  }

  lemma ExecOne(vals: seq<seq<Cell>>, st: Machine, op: CallOp)
    ensures Exec(vals, st, [op]) == Step(vals, st, op)
  {
    assert [op][..0] == [];
    assert Exec(vals, st, []) == st;
  }

  lemma AggregateInRegs(vals: seq<seq<Cell>>, st: Machine, i: nat, p: Param, c: Cursor, base: nat, top: nat)
    requires i < |vals| && Classified(p) && !p.cls.Scalar? && |vals[i]| == p.size && InRange(c)
    requires Place(c, p, base).Regs?
    ensures var st' := Exec(vals, st, ArgOps(i, p, c, base));
            Holds(st', Place(c, p, base), p.size, vals[i]) && Keeps(st, st', c, base, top)
  {
    hide Words, Round8, Round16, ChunkSize, Times, Chunks, Step, StackAddr;
    var pl := Place(c, p, base);
    var ops := Chunks(pl.isFp, pl.first, pl.width, p.size, pl.count);
    ExecAppend(vals, st, [StructAddr(i)], ops);
    ExecOne(vals, st, StructAddr(i));
    forall k: nat | k < pl.count ensures Times(k, pl.width) + ChunkSize(p.size, pl.width, k) <= p.size {
      ChunksFit(p, c, base, k);
    }
    var st1 := Step(vals, st, StructAddr(i));
    AddressLoaded(vals, st, i);
    ChunksLoad(vals, st1, i, pl.isFp, pl.first, pl.width, pl.count);
  }

  lemma AddressLoaded(vals: seq<seq<Cell>>, st: Machine, i: nat)
    ensures var st' := Step(vals, st, StructAddr(i));
            && st'.sp == st.sp && st'.buf == st.buf && st'.mem == st.mem && st'.v == st.v
            && st'.x(9) == ArgAddr(i) && forall r: int :: r != 9 ==> st'.x(r) == st.x(r)
  {
  }

  lemma Copied(vals: seq<seq<Cell>>, st: Machine, i: nat, size: nat, to: nat)
    requires i < |vals| && |vals[i]| == size
    ensures var st' := Exec(vals, st, [StructAddr(i), CopyToSp(size, to)]);
            && st'.sp == st.sp && st'.buf == st.buf && st'.v == st.v
            && (forall r: int :: r != 9 ==> st'.x(r) == st.x(r))
            && Read(st'.mem, st.sp + to, size) == Slice(vals[i], 0, size)
            && forall a: int :: !(to <= a - st.sp < to + size) ==> st'.mem(a) == st.mem(a)
  {
    hide Step, Write, Read, Slice;
    ExecOne(vals, st, StructAddr(i));
    AddressLoaded(vals, st, i);
    var st1 := Step(vals, st, StructAddr(i));
    ExecAppend(vals, st, [StructAddr(i)], [CopyToSp(size, to)]);
    ExecOne(vals, st1, CopyToSp(size, to));
    StructCopied(vals, st1, i, size, to);
    assert [StructAddr(i)] + [CopyToSp(size, to)] == [StructAddr(i), CopyToSp(size, to)];
  }

  lemma AggregateOnStack(vals: seq<seq<Cell>>, st: Machine, i: nat, p: Param, c: Cursor, base: nat, top: nat)
    requires i < |vals| && !p.cls.Scalar? && |vals[i]| == p.size && Room(c, p, base, top)
    requires Place(c, p, base).Stack?
    ensures var st' := Exec(vals, st, ArgOps(i, p, c, base));
            Holds(st', Place(c, p, base), p.size, vals[i]) && Keeps(st, st', c, base, top)
  {
    hide InRange, Exec, Step, Read, Slice, Room, Words, Round8, Round16, Advance, Widen, ChunkAt;
    RoomFacts(c, p, base, top);
    Copied(vals, st, i, p.size, c.nsaa);
  }

  lemma IndirectPassed(vals: seq<seq<Cell>>, st: Machine, i: nat, p: Param, c: Cursor, base: nat, top: nat)
    requires i < |vals| && p.cls.Indirect? && |vals[i]| == p.size && Room(c, p, base, top)
    ensures var st' := Exec(vals, st, ArgOps(i, p, c, base));
            Holds(st', Place(c, p, base), p.size, vals[i]) && Keeps(st, st', c, base, top)
  {
    hide InRange, Exec, Step, Read, Slice, Room, Advance, Words, Round8, Round16, ChunkAt;
    RoomFacts(c, p, base, top);
    var to := base + c.copy;
    var ops := [StructAddr(i), CopyToSp(p.size, to)];
    var st1 := Exec(vals, st, ops);
    Copied(vals, st, i, p.size, to);
    if c.g < 8 {
      var op := PtrInReg(c.g, to);
      ExecAppend(vals, st, ops, [op]);
      ExecOne(vals, st1, op);
      PointerLoaded(vals, st1, c.g, to);
      assert ArgOps(i, p, c, base) == ops + [op];
    } else {
      var op := PtrToStack(to, c.nsaa);
      ExecAppend(vals, st, ops, [op]);
      ExecOne(vals, st1, op);
      PointerStored(vals, st1, to, c.nsaa, p.size);
      assert ArgOps(i, p, c, base) == ops + [op];
    }
  }

  lemma StructCopied(vals: seq<seq<Cell>>, st: Machine, i: nat, size: nat, off: nat)
    requires i < |vals| && st.x(9) == ArgAddr(i) && |vals[i]| == size
    ensures var st' := Step(vals, st, CopyToSp(size, off));
            && st'.sp == st.sp && st'.buf == st.buf && st'.v == st.v && st'.x == st.x
            && Read(st'.mem, st.sp + off, size) == Slice(vals[i], 0, size)
            && forall a: int :: !(off <= a - st.sp < off + size) ==> st'.mem(a) == st.mem(a)
  {
    hide Write, Read;
    assert Slice(vals[i], 0, size) == vals[i];
    WriteFrame(st.mem, st.sp + off, vals[i]);
    ReadBack(st.mem, st.sp + off, vals[i]);
  }

  lemma PointerLoaded(vals: seq<seq<Cell>>, st: Machine, r: nat, off: nat)
    ensures var st' := Step(vals, st, PtrInReg(r, off));
            && st'.sp == st.sp && st'.buf == st.buf && st'.v == st.v && st'.mem == st.mem
            && st'.x(r) == StackAddr(st.sp + off) && forall q: int :: q != r ==> st'.x(q) == st.x(q)
  {
  }

  lemma PointerStored(vals: seq<seq<Cell>>, st: Machine, copy: nat, off: nat, size: nat)
    requires off + 8 <= copy
    ensures var st' := Step(vals, st, PtrToStack(copy, off));
            && st'.sp == st.sp && st'.buf == st.buf && st'.v == st.v && st'.x == st.x
            && Read(st'.mem, st.sp + off, 8) == StackAddr(st.sp + copy)
            && Read(st'.mem, st.sp + copy, size) == Read(st.mem, st.sp + copy, size)
            && forall a: int :: !(off <= a - st.sp < off + 8) ==> st'.mem(a) == st.mem(a)
  {
    ReadBack(st.mem, st.sp + off, StackAddr(st.sp + copy));
  }

  /** One argument: it ends up in its place and nothing placed before is disturbed, vector register 0 apart. */
  lemma ArgPassed(vals: seq<seq<Cell>>, st: Machine, i: nat, p: Param, c: Cursor, base: nat, top: nat)
    requires i < |vals| && Classified(p) && |vals[i]| == (if p.cls.Scalar? then 8 else p.size) && Room(c, p, base, top)
    ensures var st' := Exec(vals, st, ArgOps(i, p, c, base));
            && Holds(st', Place(c, p, base), p.size, vals[i])
            && (if Overflows(p, c) then st'.v(0) == vals[i] && Keeps(st, st', c.(s := 0), base, top)
                else Keeps(st, st', c, base, top))
  {
    hide Exec, ArgOps, Keeps, Holds, Advance;
    if p.cls.Scalar? {
      if Place(c, p, base).Regs? {
        ScalarInReg(vals, st, i, p, c, base, top);
      } else {
        ScalarOnStack(vals, st, i, p, c, base, top);
      }
    } else if p.cls.Indirect? {
      IndirectPassed(vals, st, i, p, c, base, top);
    } else if Place(c, p, base).Regs? {
      AggregateInRegs(vals, st, i, p, c, base, top);
    } else {
      AggregateOnStack(vals, st, i, p, c, base, top);
    }
  }

  // ----- all arguments -----

  ghost predicate Arrived(st: Machine, a0: nat, ps: seq<Param>, n: nat, base: nat, vals: seq<seq<Cell>>)
    requires n <= |ps| && |vals| == a0 + |ps|
  {
    forall i :: 0 <= i < n ==> ArrivedAt(st, a0, ps, i, base, vals)
  }

  predicate ArrivedAt(st: Machine, a0: nat, ps: seq<Param>, i: int, base: nat, vals: seq<seq<Cell>>)
    requires 0 <= i < |ps| && |vals| == a0 + |ps|
  {
    Holds(st, Place(Cursors(ps, i), ps[i], base), ps[i].size, vals[a0 + i])
  }

  predicate OverflowsAt(ps: seq<Param>, i: int)
    requires 0 <= i < |ps|
  {
    Overflows(ps[i], Cursors(ps, i))
  }

  /** No scalar float is left over once the vector registers are used up. */
  predicate FloatsFit(ps: seq<Param>, n: nat)
    requires n <= |ps|
  {
    forall i :: 0 <= i < n ==> !OverflowsAt(ps, i)
  }

  lemma HasRoom(ps: seq<Param>, i: nat, base: nat, top: nat)
    requires i < |ps| && Cursors(ps, |ps|).nsaa <= base && base + Cursors(ps, |ps|).copy <= top
    ensures Room(Cursors(ps, i), ps[i], base, top)
  {
    hide Advance, InRange;
    CursorsGrow(ps, i, i);
    CursorsGrow(ps, i + 1, |ps|);
  }

  lemma KeepsTrans(a: Machine, b: Machine, d: Machine, c0: Cursor, c1: Cursor, base: nat, top: nat)
    requires Keeps(a, b, c0, base, top) && Keeps(b, d, c1, base, top) && AtMost(c0, c1)
    ensures Keeps(a, d, c0, base, top)
  {
    forall x: int | Settled(x - a.sp, c0, base, top) ensures d.mem(x) == a.mem(x) {
      assert Settled(x - b.sp, c1, base, top);
    }
  }

  const Start: Cursor := Cursor(0, 0, 0, 0)

  /** Running the whole argument loop places every argument, and leaves everything above the call area alone. */
  lemma {:induction false} ArgsPassed(vals: seq<seq<Cell>>, st: Machine, a0: nat, ps: seq<Param>, n: nat, base: nat,
                                      top: nat)
    requires n <= |ps| && AllClassified(ps) && Values(a0, ps, vals)
    requires Cursors(ps, |ps|).nsaa <= base && base + Cursors(ps, |ps|).copy <= top
    ensures var st' := Exec(vals, st, ArgsOps(a0, ps, n, base));
            Keeps(st, st', Start, base, top) && (FloatsFit(ps, n) ==> Arrived(st', a0, ps, n, base, vals))
    decreases n
  {
    hide Step, Place, Advance, Holds, Keeps, ArgOps, Room, AtMost, Below, Classified, Overflows, Exec, Cursors;
    if n == 0 {
      NothingPassed(vals, st, a0, ps, base, top);
    } else {
      var m := n - 1;
      ArgsPassed(vals, st, a0, ps, m, base, top);
      ArgsOpsStep(a0, ps, n, base);
      var st1 := Exec(vals, st, ArgsOps(a0, ps, m, base));
      var ops := ArgOps(a0 + m, ps[m], Cursors(ps, m), base);
      var st2 := Exec(vals, st1, ops);
      ExecAppend(vals, st, ArgsOps(a0, ps, m, base), ops);
      HasRoom(ps, m, base, top);
      ArgPassed(vals, st1, a0 + m, ps[m], Cursors(ps, m), base, top);
      AllAtLeastStart(Cursors(ps, m));
      var c := if OverflowsAt(ps, m) then Cursors(ps, m).(s := 0) else Cursors(ps, m);
      KeepsTrans(st, st1, st2, Start, c, base, top);
      if FloatsFit(ps, n) {
        assert !OverflowsAt(ps, m);
        assert FloatsFit(ps, m);
        ArrivedKept(vals, st1, st2, a0, ps, m, base, top);
      }
    }
  }

  lemma AllAtLeastStart(c: Cursor)
    ensures AtMost(Start, c) && AtMost(Start, c.(s := 0))
  {
  }

  lemma ArgsOpsStep(a0: nat, ps: seq<Param>, n: nat, base: nat)
    requires 0 < n <= |ps|
    ensures ArgsOps(a0, ps, n, base) ==
              ArgsOps(a0, ps, n - 1, base) + ArgOps(a0 + n - 1, ps[n - 1], Cursors(ps, n - 1), base)
  {
  }

  lemma NothingPassed(vals: seq<seq<Cell>>, st: Machine, a0: nat, ps: seq<Param>, base: nat, top: nat)
    ensures Keeps(st, Exec(vals, st, ArgsOps(a0, ps, 0, base)), Start, base, top)
  {
  }

  lemma ArrivedKept(vals: seq<seq<Cell>>, st: Machine, st': Machine, a0: nat, ps: seq<Param>, n: nat, base: nat,
                    top: nat)
    requires n < |ps| && AllClassified(ps) && |vals| == a0 + |ps|
    requires Arrived(st, a0, ps, n, base, vals) && Keeps(st, st', Cursors(ps, n), base, top)
    requires ArrivedAt(st', a0, ps, n, base, vals)
    ensures Arrived(st', a0, ps, n + 1, base, vals)
  {
    hide Place, Cursors, Holds, Keeps, Classified;
    forall i | 0 <= i < n ensures ArrivedAt(st', a0, ps, i, base, vals) {
      assert ArrivedAt(st, a0, ps, i, base, vals);
      PlacedBelow(ps, i, n, base);
      KeepsHolds(st, st', Place(Cursors(ps, i), ps[i], base), ps[i].size, vals[a0 + i], Cursors(ps, n), base, top);
    }
  }

  // ----- too many floats -----

  /** Once a float overflows, vector register 0 holds the last one that did. */
  lemma {:induction false} LastFloatWins(vals: seq<seq<Cell>>, st: Machine, a0: nat, ps: seq<Param>, n: nat, base: nat,
                                         top: nat)
    requires n <= |ps| && AllClassified(ps) && Values(a0, ps, vals) && !FloatsFit(ps, n)
    requires Cursors(ps, |ps|).nsaa <= base && base + Cursors(ps, |ps|).copy <= top
    ensures var st' := Exec(vals, st, ArgsOps(a0, ps, n, base));
            exists j :: 0 <= j < n && OverflowsAt(ps, j) && st'.v(0) == vals[a0 + j]
    decreases n
  {
    hide Step, Place, Advance, Holds, ArgOps, Room, Below, Classified, Exec, Cursors;
    var m := n - 1;
    ArgsOpsStep(a0, ps, n, base);
    var st1 := Exec(vals, st, ArgsOps(a0, ps, m, base));
    var ops := ArgOps(a0 + m, ps[m], Cursors(ps, m), base);
    ExecAppend(vals, st, ArgsOps(a0, ps, m, base), ops);
    HasRoom(ps, m, base, top);
    ArgPassed(vals, st1, a0 + m, ps[m], Cursors(ps, m), base, top);
    if !OverflowsAt(ps, m) {
      LastFloatWins(vals, st, a0, ps, m, base, top);
      var j :| 0 <= j < m && OverflowsAt(ps, j) && st1.v(0) == vals[a0 + j];
      CursorsGrow(ps, j, m);
      assert Cursors(ps, m).s > 0;
    }
  }

  predicate UsesVectors(p: Param)
  {
    p.cls == Scalar(true) || p.cls.Hfa?
  }

  /** Whoever uses vector registers at all starts with register 0. */
  lemma {:induction false} FirstVector(ps: seq<Param>, n: nat, base: nat) returns (i: nat)
    requires n <= |ps| && AllClassified(ps) && Cursors(ps, n).s > 0
    ensures i < n && Cursors(ps, i).s == 0 && ps[i].size + (if ps[i].cls.Scalar? then 1 else 0) > 0
    ensures UsesVectors(ps[i])
    ensures var pl := Place(Cursors(ps, i), ps[i], base);
            pl.Regs? && pl.isFp && pl.first == 0 && pl.width > 0 && pl.count > 0
    decreases n
  {
    i := n - 1;
    if Cursors(ps, i).s > 0 {
      i := FirstVector(ps, i, base);
    } else {
      assert Classified(ps[i]);
      if ps[i].cls.Hfa? { Product(ps[i].cls.elem, ps[i].cls.count); }
    }
  }

  lemma Product(a: nat, b: nat)
    requires a > 0 && b > 0
    ensures a * b > 0
  {
  }

  predicate AllBytes(vals: seq<seq<Cell>>, j: int, b: int)
  {
    0 <= j < |vals| && forall k :: 0 <= k < |vals[j]| ==> vals[j][k] == Byte(b)
  }

  function Fill(n: nat, b: int): (c: seq<Cell>)
    ensures |c| == n && forall k :: 0 <= k < n ==> c[k] == Byte(b)
  {
    seq(n, k => Byte(b))
  }

  function ValueSize(p: Param): nat
  {
    if p.cls.Scalar? then 8 else p.size
  }

  /** All bytes of argument i are 1, those of the others 0. */
  function Marked(a0: nat, ps: seq<Param>, i: nat): (vals: seq<seq<Cell>>)
    ensures |vals| == a0 + |ps|
    ensures forall j :: a0 <= j < |vals| ==> vals[j] == Fill(ValueSize(ps[j - a0]), if j == a0 + i then 1 else 0)
  {
    seq(a0 + |ps|, j requires 0 <= j < a0 + |ps| =>
      if j < a0 then [] else Fill(ValueSize(ps[j - a0]), if j == a0 + i then 1 else 0))
  }

  /** Every argument arrives, whatever its value, exactly when no scalar float overflows the registers. */
  lemma ArrivalExact(st: Machine, a0: nat, ps: seq<Param>, base: nat, top: nat)
    requires AllClassified(ps) && Cursors(ps, |ps|).nsaa <= base && base + Cursors(ps, |ps|).copy <= top
    ensures (forall vals :: Values(a0, ps, vals) ==>
               Arrived(Exec(vals, st, ArgsOps(a0, ps, |ps|, base)), a0, ps, |ps|, base, vals))
            <==> FloatsFit(ps, |ps|)
  {
    hide Exec, ArgsOps, Cursors, Arrived, Classified;
    if FloatsFit(ps, |ps|) {
      forall vals | Values(a0, ps, vals)
        ensures Arrived(Exec(vals, st, ArgsOps(a0, ps, |ps|, base)), a0, ps, |ps|, base, vals)
      {
        ArgsPassed(vals, st, a0, ps, |ps|, base, top);
      }
    } else {
      var i, vals := Spoiled(st, a0, ps, base, top);
      LostMeansNotArrived(Exec(vals, st, ArgsOps(a0, ps, |ps|, base)), a0, ps, i, base, vals);
    }
  }

  /** When a scalar float overflows, some values make the first vector argument arrive wrong. */
  lemma Spoiled(st: Machine, a0: nat, ps: seq<Param>, base: nat, top: nat) returns (i: nat, vals: seq<seq<Cell>>)
    requires AllClassified(ps) && Cursors(ps, |ps|).nsaa <= base && base + Cursors(ps, |ps|).copy <= top
    requires !FloatsFit(ps, |ps|)
    ensures Values(a0, ps, vals) && i < |ps| && UsesVectors(ps[i]) && Cursors(ps, i).s == 0
    ensures !ArrivedAt(Exec(vals, st, ArgsOps(a0, ps, |ps|, base)), a0, ps, i, base, vals)
  {
    hide Exec, ArgsOps, Cursors, Place, Advance, Step, Holds, Marked, InRange;
    var j0 :| 0 <= j0 < |ps| && OverflowsAt(ps, j0);
    CursorsGrow(ps, j0, |ps|);
    i := FirstVector(ps, |ps|, base);
    vals := Marked(a0, ps, i);
    assert Values(a0, ps, vals);
    LastFloatWins(vals, st, a0, ps, |ps|, base, top);
    var st' := Exec(vals, st, ArgsOps(a0, ps, |ps|, base));
    var j :| 0 <= j < |ps| && OverflowsAt(ps, j) && st'.v(0) == vals[a0 + j];
    var pl := Place(Cursors(ps, i), ps[i], base);
    assert AllBytes(vals, a0 + i, 1) && AllBytes(vals, a0 + j, 0);
    NotHeld(st', pl, ps[i].size, vals[a0 + i], vals[a0 + j]);
  }

  lemma LostMeansNotArrived(st: Machine, a0: nat, ps: seq<Param>, i: nat, base: nat, vals: seq<seq<Cell>>)
    requires i < |ps| && |vals| == a0 + |ps| && !ArrivedAt(st, a0, ps, i, base, vals)
    ensures !Arrived(st, a0, ps, |ps|, base, vals)
  {
  }

  lemma NotHeld(st: Machine, pl: Placement, size: nat, val: seq<Cell>, other: seq<Cell>)
    requires pl.Regs? && pl.isFp && pl.first == 0 && pl.width > 0 && pl.count > 0
    requires st.v(0) == other && |val| > 0 && val[0] == Byte(1)
    requires forall k :: 0 <= k < |other| ==> other[k] == Byte(0)
    ensures !Holds(st, pl, size, val)
  {
    var n := ChunkSize(|val|, pl.width, 0);
    assert Times(0, pl.width) == 0 && n > 0;
    assert Slice(val, 0, n)[0] == Byte(1) && Slice(other, 0, n)[0] == Byte(0);
    assert !ChunkAt(st, true, 0, val, pl.width, 0);
  }

  /** An 8-byte aggregate in front of nine floats. */
  function StructThenFloats(): (ps: seq<Param>)
    ensures |ps| == 10 && ps[0] == Param(Integer, 8) && forall i :: 1 <= i < 10 ==> ps[i] == Param(Scalar(true), 8)
  {
    seq(10, k => if k == 0 then Param(Integer, 8) else Param(Scalar(true), 8))
  }

  lemma {:induction false} StructThenFloatCursors(n: nat)
    requires 1 <= n <= 9
    ensures Cursors(StructThenFloats(), n) == Cursor(1, n - 1, 0, 0)
    decreases n
  {
    hide StructThenFloats;
    if n == 1 {
      assert Cursors(StructThenFloats(), 0) == Cursor(0, 0, 0, 0);
    } else {
      StructThenFloatCursors(n - 1);
    }
  }

  /** For that call, which goes through this loop, some values make the first float arrive wrong. */
  lemma NinthFloatOverwritesFirst(st: Machine) returns (vals: seq<seq<Cell>>)
    ensures AllClassified(StructThenFloats()) && Cursors(StructThenFloats(), 10).nsaa == 8
    ensures Values(0, StructThenFloats(), vals)
    ensures !ArrivedAt(Exec(vals, st, ArgsOps(0, StructThenFloats(), 10, 8)), 0, StructThenFloats(), 1, 8, vals)
  {
    hide StructThenFloats, Exec, ArgsOps, ArrivedAt;
    var ps := StructThenFloats();
    StructThenFloatCursors(9);
    assert Cursors(ps, 10) == Cursor(1, 8, 8, 0);
    assert OverflowsAt(ps, 9);
    var i;
    i, vals := Spoiled(st, 0, ps, 8, 8);
    if 2 <= i < 9 { StructThenFloatCursors(i); }
  }
}
