/**
 Materialising 64-bit immediates (aarch64EmitMovImm) and adding or subtracting a constant of any size
 (aarch64EmitAddSubImm), against a machine that executes the emitted instructions.
 */
module Immediates {
  import opened Words

  type Reg = nat

  datatype Insn =
    | MovImm16(rd: Reg, imm: nat)
    | Movn(rd: Reg, imm: nat)
    | Movz(rd: Reg, imm: nat, half: nat)
    | Movk(rd: Reg, imm: nat, half: nat)
    | Imm12(add: bool, rd: Reg, rn: Reg, imm: nat, shifted: bool)
    | Register(add: bool, rd: Reg, rn: Reg, rm: Reg)

  /** Immediates fit their fields: 16 bits with a shift of 0..3 halfwords, or 12 bits. */
  predicate Encodes(i: Insn)
  {
    match i
    case MovImm16(_, imm) => imm < 0x1_0000
    case Movn(_, imm) => imm < 0x1_0000
    case Movz(_, imm, half) => imm < 0x1_0000 && half < 4
    case Movk(_, imm, half) => imm < 0x1_0000 && half < 4
    case Imm12(_, _, _, imm, _) => imm < 0x1000
    case Register(_, _, _, _) => true
  }

  function Unit(half: nat): (u: int)
    ensures u > 0
  {
    if half == 0 then 1 else if half == 1 then 0x1_0000 else if half == 2 then 0x1_0000_0000 else 0x1_0000_0000_0000
  }

  /** Halfword number `half` of u. */
  function Half(u: int, half: nat): (h: nat)
    ensures h < 0x1_0000
  {
    u / Unit(half) % 0x1_0000
  }

  function PlusMinus(add: bool, a: int, b: int): int
  {
    if add then a + b else a - b
  }

  function Step(rf: Reg -> Word, i: Insn): Reg -> Word
  {
    match i
    case MovImm16(rd, imm) => Put(rf, rd, Wrap(imm))
    case Movn(rd, imm) => Put(rf, rd, Wrap(0 - imm - 1))
    case Movz(rd, imm, half) => Put(rf, rd, Wrap(imm * Unit(half)))
    case Movk(rd, imm, half) => Put(rf, rd, Wrap(rf(rd) + (imm - Half(rf(rd), half)) * Unit(half)))
    case Imm12(add, rd, rn, imm, shifted) =>
      Put(rf, rd, Wrap(PlusMinus(add, rf(rn), if shifted then imm * 0x1000 else imm)))
    case Register(add, rd, rn, rm) => Put(rf, rd, Wrap(PlusMinus(add, rf(rn), rf(rm))))
  }

  function Put(rf: Reg -> Word, rd: Reg, w: Word): Reg -> Word
  {
    r => if r == rd then w else rf(r)
  }

  function Run(rf: Reg -> Word, code: seq<Insn>): Reg -> Word
  {
    if code == [] then rf else Run(Step(rf, code[0]), code[1..])
  }

  // ----- immediates -----

  /** One halfword of the general sequence: skipped when zero, movz if it is the first one emitted. */
  function Piece(rd: Reg, u: Word, half: nat, emitted: bool): seq<Insn>
  {
    var w := Half(u, half);
    if w == 0 then [] else if emitted then [Movk(rd, w, half)] else [Movz(rd, w, half)]
  }

  function EmitMovImm(rd: Reg, imm: Signed): (code: seq<Insn>)
  {
    var u := Wrap(imm);
    if u <= 0xFFFF then [MovImm16(rd, u)]
    else if -65536 <= imm < 0 then [Movn(rd, 0 - imm - 1)]
    else
      var c0 := Piece(rd, u, 0, false);
      var c1 := Piece(rd, u, 1, c0 != []);
      var c2 := Piece(rd, u, 2, c0 != [] || c1 != []);
      var c3 := Piece(rd, u, 3, c0 != [] || c1 != [] || c2 != []);
      c0 + c1 + c2 + c3
  }

  /** What the first `n` halfwords of u are worth. */
  function Part(u: Word, n: nat): int
  {
    if n == 0 then 0 else Part(u, n - 1) + Half(u, n - 1) * Unit(n - 1)
  }

  lemma PartIsAll(u: Word)
    ensures Part(u, 4) == u && 0 <= Part(u, 3) < 0x1_0000_0000_0000 && 0 <= Part(u, 2) < 0x1_0000_0000
    ensures 0 <= Part(u, 1) < 0x1_0000
  {
    var a := u / 0x1_0000;
    var b := a / 0x1_0000;
    var c := b / 0x1_0000;
    assert b == u / 0x1_0000_0000 && c == u / 0x1_0000_0000_0000;
    assert Part(u, 1) == u % 0x1_0000;
    assert Part(u, 2) == u % 0x1_0000 + a % 0x1_0000 * 0x1_0000;
    assert Part(u, 3) == Part(u, 2) + b % 0x1_0000 * 0x1_0000_0000;
    assert Part(u, 4) == Part(u, 3) + c % 0x1_0000 * 0x1_0000_0000_0000;
  }

  /** The register holds the halfwords so far; nothing has been emitted only while they are all zero. */
  ghost predicate Loaded(rf0: Reg -> Word, rf: Reg -> Word, rd: Reg, u: Word, n: nat, emitted: bool)
  {
    && (forall r :: r != rd ==> rf(r) == rf0(r))
    && if emitted then rf(rd) == Part(u, n) else Part(u, n) == 0
  }

  lemma PartBelow(u: Word, n: nat)
    requires n < 4
    ensures 0 <= Part(u, n) < Unit(n) && Part(u, n + 1) == Part(u, n) + Half(u, n) * Unit(n) < TWO64
  {
    PartIsAll(u);
    if n == 0 {
    } else if n == 1 {
    } else if n == 2 {
    } else {
    }
  }

  lemma HalfOfSmall(x: int, n: nat)
    requires n < 4 && 0 <= x < Unit(n)
    ensures Half(x, n) == 0
  {
  }

  lemma RunPiece(rf0: Reg -> Word, rf: Reg -> Word, rd: Reg, u: Word, n: nat, emitted: bool)
    requires n < 4 && Loaded(rf0, rf, rd, u, n, emitted)
    ensures var c := Piece(rd, u, n, emitted); Loaded(rf0, Run(rf, c), rd, u, n + 1, emitted || c != [])
  {
    hide Half, Unit, Part;
    PartBelow(u, n);
    var w, c := Half(u, n), Piece(rd, u, n, emitted);
    if w != 0 {
      assert Run(rf, c) == Step(rf, c[0]) by { assert c[1..] == []; }
      var x := w * Unit(n);
      if emitted {
        HalfOfSmall(rf(rd), n);
        assert (w - Half(rf(rd), n)) * Unit(n) == x;
        assert Wrap(Part(u, n + 1)) == Part(u, n + 1);
      } else {
        assert Wrap(x) == x;
      }
    }
  }

  lemma {:induction false} RunAppend(rf: Reg -> Word, a: seq<Insn>, b: seq<Insn>)
    ensures Run(rf, a + b) == Run(Run(rf, a), b)
    decreases |a|
  {
    if a == [] {
      assert a + b == b;
    } else {
      RunAppend(Step(rf, a[0]), a[1..], b);
      assert (a + b)[1..] == a[1..] + b;
    }
  }

  /** For every immediate: the sequence leaves exactly that value in the register and changes no other. */
  lemma MovImmLoads(rf: Reg -> Word, rd: Reg, imm: Signed)
    ensures var rf' := Run(rf, EmitMovImm(rd, imm));
            rf'(rd) == Wrap(imm) && forall r :: r != rd ==> rf'(r) == rf(r)
  {
    var u := Wrap(imm);
    var code := EmitMovImm(rd, imm);
    if u <= 0xFFFF || -65536 <= imm < 0 {
      assert Run(rf, code) == Step(rf, code[0]) by { assert code[1..] == []; }
    } else {
      GeneralLoads(rf, rd, u);
    }
  }

  lemma GeneralLoads(rf: Reg -> Word, rd: Reg, u: Word)
    requires u > 0
    ensures var c0 := Piece(rd, u, 0, false);
            var c1 := Piece(rd, u, 1, c0 != []);
            var c2 := Piece(rd, u, 2, c0 != [] || c1 != []);
            var c3 := Piece(rd, u, 3, c0 != [] || c1 != [] || c2 != []);
            var rf' := Run(rf, c0 + c1 + c2 + c3);
            rf'(rd) == u && forall r :: r != rd ==> rf'(r) == rf(r)
  {
    hide Piece, Run;
    StartsEmpty(rf, rd, u);
    var c0 := Piece(rd, u, 0, false);
    RunPiece(rf, rf, rd, u, 0, false);
    var c1 := Piece(rd, u, 1, c0 != []);
    RunPiece(rf, Run(rf, c0), rd, u, 1, c0 != []);
    RunAppend(rf, c0, c1);
    var c2 := Piece(rd, u, 2, c0 != [] || c1 != []);
    RunPiece(rf, Run(rf, c0 + c1), rd, u, 2, c0 != [] || c1 != []);
    RunAppend(rf, c0 + c1, c2);
    var c3 := Piece(rd, u, 3, c0 != [] || c1 != [] || c2 != []);
    RunPiece(rf, Run(rf, c0 + c1 + c2), rd, u, 3, c0 != [] || c1 != [] || c2 != []);
    RunAppend(rf, c0 + c1 + c2, c3);
    PartIsAll(u);
  }

  lemma StartsEmpty(rf: Reg -> Word, rd: Reg, u: Word)
    ensures Loaded(rf, rf, rd, u, 0, false)
  {
  }

  /** Every emitted field is in range, and at most four instructions are used. */
  lemma MovImmEncodes(rd: Reg, imm: Signed)
    ensures var code := EmitMovImm(rd, imm);
            1 <= |code| <= 4 && forall i :: 0 <= i < |code| ==> Encodes(code[i])
  {
    hide Half;
    var u := Wrap(imm);
    if !(u <= 0xFFFF || -65536 <= imm < 0) { SomeHalf(u); }
  }

  /** The halfwords that are not zero. */
  function Halves(u: Word): nat
  {
    (if Half(u, 0) > 0 then 1 else 0) + (if Half(u, 1) > 0 then 1 else 0)
    + (if Half(u, 2) > 0 then 1 else 0) + (if Half(u, 3) > 0 then 1 else 0)
  }

  /** One instruction where one is enough, otherwise one for each halfword that is not zero. */
  lemma MovImmLength(rd: Reg, imm: Signed)
    ensures |EmitMovImm(rd, imm)| == if -65536 <= imm <= 65535 then 1 else Halves(Wrap(imm))
  {
    hide Half;
    WrapOfSigned(imm);
  }

  lemma SomeHalf(u: Word)
    requires u > 0
    ensures Half(u, 0) > 0 || Half(u, 1) > 0 || Half(u, 2) > 0 || Half(u, 3) > 0
  {
    hide Half;
    PartIsAll(u);
    assert Part(u, 4) == Half(u, 0) * Unit(0) + Half(u, 1) * Unit(1) + Half(u, 2) * Unit(2) + Half(u, 3) * Unit(3);
  }

  // ----- adding and subtracting a magnitude -----

  const X9: Reg := 9

  datatype Emission = Panic | Code(code: seq<Insn>)

  /** aarch64EmitAddSubImm. A negative magnitude stops the compiler. */
  function EmitAddSubImm(add: bool, rd: Reg, rn: Reg, v: Signed): (e: Emission)
    ensures e.Panic? <==> v < 0
  {
    if v < 0 then Panic
    else if v <= 0xFFF then Code([Imm12(add, rd, rn, v, false)])
    else if v / 0x1000 <= 0xFFF then
      Code([Imm12(add, rd, rn, v / 0x1000, true)]
           + if v % 0x1000 != 0 then [Imm12(add, rd, rd, v % 0x1000, false)] else [])
    else Code(EmitMovImm(X9, v) + [Register(add, rd, rn, X9)])
  }

  /** Above 16 MB the constant goes through x9. */
  predicate UsesScratch(v: Signed)
  {
    v >= 0x100_0000
  }

  lemma WrapTwice(add: bool, a: int, b: int, c: int)
    ensures Wrap(PlusMinus(add, Wrap(PlusMinus(add, a, b)), c)) == Wrap(PlusMinus(add, a, b + c))
  {
    var x := PlusMinus(add, a, b);
    WrapAdd(x, if add then c else 0 - c);
  }

  /** The destination receives the source plus or minus v; only x9 may change besides, above 16 MB. */
  lemma AddSubImmAdds(rf: Reg -> Word, add: bool, rd: Reg, rn: Reg, v: Signed)
    requires v >= 0 && (UsesScratch(v) ==> rn != X9)
    ensures var rf' := Run(rf, EmitAddSubImm(add, rd, rn, v).code);
            && rf'(rd) == Wrap(PlusMinus(add, rf(rn), v))
            && forall r :: r != rd && (UsesScratch(v) ==> r != X9) ==> rf'(r) == rf(r)
  {
    hide EmitMovImm, Wrap;
    if UsesScratch(v) {
      MovImmLoads(rf, X9, v);
      var last := [Register(add, rd, rn, X9)];
      RunAppend(rf, EmitMovImm(X9, v), last);
      RunOne(Run(rf, EmitMovImm(X9, v)), last[0]);
      assert Wrap(v) == v by { WrapOfSigned(v); }
    } else if v <= 0xFFF {
      RunOne(rf, Imm12(add, rd, rn, v, false));
    } else {
      SplitAdds(rf, add, rd, rn, v);
    }
  }

  lemma RunOne(rf: Reg -> Word, i: Insn)
    ensures Run(rf, [i]) == Step(rf, i)
  {
    assert [i][1..] == [];
  }

  lemma SplitAdds(rf: Reg -> Word, add: bool, rd: Reg, rn: Reg, v: Signed)
    requires v >= 0 && !UsesScratch(v)
    ensures var hi := [Imm12(add, rd, rn, v / 0x1000, true)];
            var lo := if v % 0x1000 != 0 then [Imm12(add, rd, rd, v % 0x1000, false)] else [];
            var rf' := Run(rf, hi + lo);
            rf'(rd) == Wrap(PlusMinus(add, rf(rn), v)) && forall r :: r != rd ==> rf'(r) == rf(r)
  {
    hide Wrap;
    var hi := Imm12(add, rd, rn, v / 0x1000, true);
    RunOne(rf, hi);
    if v % 0x1000 != 0 {
      var lo := Imm12(add, rd, rd, v % 0x1000, false);
      RunAppend(rf, [hi], [lo]);
      RunOne(Step(rf, hi), lo);
      WrapTwice(add, rf(rn), v / 0x1000 * 0x1000, v % 0x1000);
    } else {
      assert [hi] + [] == [hi];
    }
  }

  /** With x9 as the source of a large constant, x9 is overwritten first. */
  lemma ScratchSource(rf: Reg -> Word, add: bool, rd: Reg, v: Signed)
    requires UsesScratch(v)
    ensures Run(rf, EmitAddSubImm(add, rd, X9, v).code)(rd) == Wrap(PlusMinus(add, v, v))
  {
    MovImmLoads(rf, X9, v);
    var last := [Register(add, rd, X9, X9)];
    RunAppend(rf, EmitMovImm(X9, v), last);
    var rf1 := Run(rf, EmitMovImm(X9, v));
    assert Run(rf1, last) == Step(rf1, last[0]) by { assert last[1..] == []; }
    assert Wrap(v) == v;
  }

  lemma DoubledIsWrong(add: bool, v: Signed)
    requires v > 0
    ensures Wrap(PlusMinus(add, v, v)) != Wrap(PlusMinus(add, 0, v))
  {
  }

  /** Right for every register file exactly when x9 is not the source of a large constant. */
  lemma AddSubImmExact(add: bool, rd: Reg, rn: Reg, v: Signed)
    requires v >= 0
    ensures (forall rf: Reg -> Word ::
               Run(rf, EmitAddSubImm(add, rd, rn, v).code)(rd) == Wrap(PlusMinus(add, rf(rn), v)))
            <==> !(UsesScratch(v) && rn == X9)
  {
    hide Run, EmitMovImm;
    if UsesScratch(v) && rn == X9 {
      var rf: Reg -> Word := r => 0;
      ScratchSource(rf, add, rd, v);
      DoubledIsWrong(add, v);
      assert rf(rn) == 0;
    } else {
      forall rf: Reg -> Word
        ensures Run(rf, EmitAddSubImm(add, rd, rn, v).code)(rd) == Wrap(PlusMinus(add, rf(rn), v))
      {
        AddSubImmAdds(rf, add, rd, rn, v);
      }
    }
  }
}
