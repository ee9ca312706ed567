/** The reference graph of the Custom Unit Compiler: instructions named by block and
    number, and what they compute from each other. */
module RefGraph {
  import opened Words
  import opened CucInsn

  /** The instructions of each basic block; a reference is block * MAX_INSNS + number. */
  type Blocks<T> = seq<seq<T>>

  function RefBB(r: nat): nat { r / MAX_INSNS }

  function RefI(r: nat): nat { r % MAX_INSNS }

  function MakeRef(b: nat, i: nat): nat { b * MAX_INSNS + i }

  lemma {:induction false} RefParts(b: nat, i: nat)
    requires i < MAX_INSNS
    ensures RefBB(MakeRef(b, i)) == b && RefI(MakeRef(b, i)) == i
  {
  }

  predicate ValidRef<T>(bb: Blocks<T>, r: nat)
  {
    RefBB(r) < |bb| && RefI(r) < |bb[RefBB(r)]|
  }

  function At<T>(bb: Blocks<T>, r: nat): T
    requires ValidRef(bb, r)
  {
    bb[RefBB(r)][RefI(r)]
  }

  function SetAt<T>(bb: Blocks<T>, r: nat, i: T): (s: Blocks<T>)
    requires ValidRef(bb, r)
    ensures |s| == |bb| && forall b :: 0 <= b < |bb| ==> |s[b]| == |bb[b]|
  {
    bb[RefBB(r) := bb[RefBB(r)][RefI(r) := i]]
  }

  lemma {:induction false} SetAtIs<T>(bb: Blocks<T>, r: nat, i: T, x: nat)
    requires ValidRef(bb, r) && ValidRef(bb, x)
    ensures ValidRef(SetAt(bb, r, i), x) && At(SetAt(bb, r, i), x) == if x == r then i else At(bb, x)
  {
    if RefBB(x) == RefBB(r) && RefI(x) == RefI(r) {
      assert x == r;
    }
  }

  /** All references of a graph. */
  function Refs<T>(bb: Blocks<T>): set<nat>
  {
    set b, i | 0 <= b < |bb| && 0 <= i < |bb[b]| :: MakeRef(b, i)
  }

  /** Blocks are short enough for their references. */
  predicate Fits<T>(bb: Blocks<T>) { forall b :: 0 <= b < |bb| ==> |bb[b]| < MAX_INSNS }

  lemma {:induction false} RefInRefs<T>(bb: Blocks<T>, r: nat)
    requires ValidRef(bb, r)
    ensures r in Refs(bb)
  {
    assert r == MakeRef(RefBB(r), RefI(r));
  }

  predicate RefOk(bb: Blocks<Insn>, o: Operand) { o.Ref? ==> ValidRef(bb, o.ref) }

  predicate InsnRefs(bb: Blocks<Insn>, i: Insn)
  {
    RefOk(bb, i.op0) && RefOk(bb, i.op1) && RefOk(bb, i.op2) && RefOk(bb, i.op3)
  }

  /** Every reference names an instruction. */
  ghost predicate Closed(bb: Blocks<Insn>)
  {
    forall r: nat :: ValidRef(bb, r) ==> InsnRefs(bb, At(bb, r))
  }

  // ------------------------------------------------------------ dataflow meaning

  predicate Below(rank: nat -> nat, o: Operand, r: nat) { o.Ref? ==> rank(o.ref) < rank(r) }

  /** The references form no cycle: rank falls along each. */
  ghost predicate Acyclic(bb: Blocks<Insn>, rank: nat -> nat)
  {
    forall r: nat :: ValidRef(bb, r) ==> Falls(bb, rank, r)
  }

  ghost predicate Falls(bb: Blocks<Insn>, rank: nat -> nat, r: nat)
    requires ValidRef(bb, r)
  {
    var i := At(bb, r);
    Below(rank, i.op0, r) && Below(rank, i.op1, r) && Below(rank, i.op2, r) && Below(rank, i.op3, r)
  }

  /** The values of operands that are not references or constants, and what an
      instruction other than a move makes of its operands' values. */
  datatype Inputs = Inputs(input: Operand -> Word, other: (nat, Word, Word, Word, Word) -> Word)

  ghost function Value(bb: Blocks<Insn>, rank: nat -> nat, e: Inputs, r: nat): Word
    requires Closed(bb) && Acyclic(bb, rank) && ValidRef(bb, r)
    decreases rank(r), 1
  {
    var i := At(bb, r);
    assert InsnRefs(bb, i) && Falls(bb, rank, r);
    var b, c := OperandValue(bb, rank, e, r, i.op1), OperandValue(bb, rank, e, r, i.op2);
    var d := OperandValue(bb, rank, e, r, i.op3);
    if i.index.Add? then (b + c) % WORD
    else if i.index.Cmov? then (if d != 0 then b else c)
    else e.other(r, OperandValue(bb, rank, e, r, i.op0), b, c, d)
  }

  /** The value of an operand of instruction r. */
  ghost function OperandValue(bb: Blocks<Insn>, rank: nat -> nat, e: Inputs, r: nat, o: Operand): Word
    requires Closed(bb) && Acyclic(bb, rank) && RefOk(bb, o) && Below(rank, o, r)
    decreases rank(r), 0
  {
    match o
    case Const(c) => c
    case Ref(q) => Value(bb, rank, e, q)
    case _ => e.input(o)
  }
}
