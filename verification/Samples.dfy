/** Building blocks of the small programs on which a pass is seen to go right or wrong. */
module Samples {
  import opened Options
  import opened Words
  import opened Ir

  function Word8(v: Var): Operand
  {
    Ref(v, 8, None, false)
  }

  function WordSlot(id: nat): Operand
  {
    Word8(Var(Local, id))
  }

  function StoreOf(dst: Operand, src: Operand): Instr
  {
    NopInstr().(op := Store, dst := dst, r1 := src)
  }

  function Add(dst: Operand, a: Operand, b: Operand): Instr
  {
    NopInstr().(op := Arith(IAdd), dst := dst, r1 := a, r2 := b)
  }

  function LoadFrom(dst: Operand, base: Operand): Instr
  {
    NopInstr().(op := LoadDeref, dst := dst, r1 := base)
  }

  function RetOf(o: Operand): Instr
  {
    NopInstr().(op := Ret, dst := o)
  }

  function JmpTo(b: nat): Instr
  {
    NopInstr().(op := Jmp(b))
  }

  /** Both blocks return, and the same value. */
  ghost predicate SameReturn(M: Machine, s: State, c1: Code, c2: Code)
  {
    Exec(M, c1, s).Return? && Exec(M, c2, s).Return? && Exec(M, c1, s).value == Exec(M, c2, s).value
  }

  /** Memory that answers nothing, and a chosen way of narrowing. */
  function Inert(narrow: (nat, Word) -> Word): Machine
  {
    Machine((a, m) => None, (a, w, m) => None, (f, t, ws, m) => None, v => 0, (c, a, b) => 0, narrow, {})
  }
}
