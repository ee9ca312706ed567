/** The instruction entity of the Custom Unit Compiler and the meaning of one
    operation.  An operand's kind and value (`opt[j]`, `op[j]`) are one `Operand`;
    the fifth operand slot is never used by the compiler and is left out. */
module CucInsn {
  import opened Words

  const MAX_INSNS: nat := 0x10000
  const FLAG_REG := 32

  datatype Opcode =
    | Add | Sub | And | Or | Xor | Mul | Srl | Sll | Sra
    | Lb | Lh | Lw | Sb | Sh | Sw
    | Sfeq | Sfne | Sfle | Sflt | Sfge | Sfgt
    | Bf | Lrbb | Cmov | Reg | Nop | Call

  /** The `IT_*` bits. */
  datatype TypeFlag =
    | Branch | InDelay | BBStart | BBEnd | Output | Signed | Memory | Unused
    | Flag1 | Volatile | MemAdd | Cond

  /** `Dest(-1)` is a destination that names no register: the result is only
      reachable through a reference to the instruction. */
  datatype Operand =
    | NoOp
    | Const(c: Word)
    | Register(r: int)
    | Dest(d: int)
    | Ref(ref: nat)
    | Jump(target: nat)
    | Link(block: nat)

  datatype Insn = Insn(index: Opcode, typ: set<TypeFlag>,
                       op0: Operand, op1: Operand, op2: Operand, op3: Operand)

  /** `change_insn_type (ii, II_NOP)`. */
  const NOP: Insn := Insn(Nop, {}, NoOp, NoOp, NoOp, NoOp)

  predicate IsLoad(index: Opcode) { index.Lb? || index.Lh? || index.Lw? }

  predicate IsStore(index: Opcode) { index.Sb? || index.Sh? || index.Sw? }

  /** `II_MEM_WIDTH` on loads and stores. */
  function Width(index: Opcode): nat
  {
    if index.Lb? || index.Sb? then 1 else if index.Lh? || index.Sh? then 2 else 4
  }

  predicate IsCompare(index: Opcode)
  {
    index.Sfeq? || index.Sfne? || index.Sfle? || index.Sflt? || index.Sfge? || index.Sfgt?
  }

  /** Two's complement reading of a word. */
  function ToSigned(w: Word): int
  {
    if w < 0x8000_0000 then w else w - WORD
  }

  function Truth(b: bool): Word { if b then 1 else 0 }

  function Compare(index: Opcode, a: int, b: int): Word
    requires IsCompare(index)
  {
    match index
    case Sfeq => Truth(a == b)
    case Sfne => Truth(a != b)
    case Sfle => Truth(a <= b)
    case Sflt => Truth(a < b)
    case Sfge => Truth(a >= b)
    case Sfgt => Truth(a > b)
  }

  /** Operations the passes never inspect get an arbitrary meaning, so every
      theorem below holds whatever they compute. */
  type Alu = (Opcode, Word, Word) -> Word

  function Compute(alu: Alu, index: Opcode, signed: bool, a: Word, b: Word, c: Word): Word
  {
    if index.Add? then (a + b) % WORD
    else if index.Cmov? then (if c != 0 then a else b)
    else if IsCompare(index) then
      if signed then Compare(index, ToSigned(a), ToSigned(b)) else Compare(index, a, b)
    else alu(index, a, b)
  }
}
