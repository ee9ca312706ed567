/** Weak-order memory scheduling (cuc/memory.c): dependency lists, the in-place
    reordering of `msched`, and why the reordered accesses mean the same. */
module MemorySchedule {
  import opened Words
  import opened CucInsn
  import opened ByteMemory
  import opened RefGraph

  type Blocks = RefGraph.Blocks<Insn>

  type Deps = map<nat, seq<nat>>

  predicate IsMemory(bb: Blocks, r: nat)
  {
    ValidRef(bb, r) && Memory in At(bb, r).typ
  }

  /** What the compiler guarantees of a function: blocks fit the reference
      encoding and every access flagged as such is a load or a store. */
  ghost predicate WellFormed(bb: Blocks)
  {
    && (forall b :: 0 <= b < |bb| ==> |bb[b]| <= MAX_INSNS)
    && forall r :: IsMemory(bb, r) ==> IsLoad(At(bb, r).index) || IsStore(At(bb, r).index)
  }

  // ---------------------------------------------------------------- meaning

  /** Register inputs, and the values of references that are not computed from
      earlier instructions: loads of other blocks and feedback. */
  datatype Env = Env(alu: Alu, regs: int -> Word, ext: nat -> Word)

  /** The value of instruction r, given the loads performed so far. */
  ghost function Val(bb: Blocks, env: Env, loads: map<nat, Word>, r: nat): Word
    decreases r, 1
  {
    if !ValidRef(bb, r) then env.ext(r)
    else
      var i := At(bb, r);
      if IsLoad(i.index) then (if r in loads then loads[r] else env.ext(r))
      else Compute(env.alu, i.index, Signed in i.typ, OpVal(bb, env, loads, r, i.op1),
                   OpVal(bb, env, loads, r, i.op2), OpVal(bb, env, loads, r, i.op3))
  }

  ghost function OpVal(bb: Blocks, env: Env, loads: map<nat, Word>, self: nat, o: Operand): Word
    decreases self, 0
  {
    match o
    case Const(c) => c
    case Register(r) => env.regs(r)
    case Ref(q) => if q < self then Val(bb, env, loads, q) else env.ext(q)
    case _ => 0
  }

  datatype State = State(mem: Memory, loads: map<nat, Word>)

  /** One access of block b; entries of other blocks do nothing. */
  ghost function Exec(bb: Blocks, env: Env, b: nat, s: State, x: nat): State
  {
    if RefBB(x) != b || !ValidRef(bb, x) then s
    else
      var i := At(bb, x);
      var a := OpVal(bb, env, s.loads, x, i.op1);
      if IsLoad(i.index) then
        s.(loads := s.loads[x := Extend(Read(s.mem, a, Width(i.index)), Signed in i.typ)])
      else if IsStore(i.index) then
        s.(mem := Write(s.mem, a, Width(i.index), OpVal(bb, env, s.loads, x, i.op0)))
      else s
  }

  /** Block b's accesses, in the given order. */
  ghost function Run(bb: Blocks, env: Env, b: nat, order: seq<nat>, s: State): State
    decreases |order|
  {
    if order == [] then s else Run(bb, env, b, order[1..], Exec(bb, env, b, s, order[0]))
  }

  /** Everything an instruction's operands are computed from. */
  ghost function Uses(bb: Blocks, r: nat): set<nat>
    decreases r, 1
  {
    if !ValidRef(bb, r) then {}
    else
      var i := At(bb, r);
      OpUses(bb, r, i.op0) + OpUses(bb, r, i.op1) + OpUses(bb, r, i.op2) + OpUses(bb, r, i.op3)
  }

  ghost function OpUses(bb: Blocks, self: nat, o: Operand): set<nat>
    decreases self, 0
  {
    if o.Ref? && o.ref < self then {o.ref} + Uses(bb, o.ref) else {}
  }

  ghost predicate Agree(l1: map<nat, Word>, l2: map<nat, Word>, q: nat)
  {
    (q in l1 <==> q in l2) && (q in l1 ==> l1[q] == l2[q])
  }

  lemma {:induction false} ValFrame(bb: Blocks, env: Env, l1: map<nat, Word>, l2: map<nat, Word>, r: nat)
    requires Agree(l1, l2, r) && forall q :: q in Uses(bb, r) ==> Agree(l1, l2, q)
    ensures Val(bb, env, l1, r) == Val(bb, env, l2, r)
    decreases r, 1
  {
    if ValidRef(bb, r) && !IsLoad(At(bb, r).index) {
      var i := At(bb, r);
      OpFrame(bb, env, l1, l2, r, i.op1);
      OpFrame(bb, env, l1, l2, r, i.op2);
      OpFrame(bb, env, l1, l2, r, i.op3);
    }
  }

  lemma {:induction false} OpFrame(bb: Blocks, env: Env, l1: map<nat, Word>, l2: map<nat, Word>, self: nat, o: Operand)
    requires forall q :: q in OpUses(bb, self, o) ==> Agree(l1, l2, q)
    ensures OpVal(bb, env, l1, self, o) == OpVal(bb, env, l2, self, o)
    decreases self, 0
  {
    if o.Ref? && o.ref < self {
      ValFrame(bb, env, l1, l2, o.ref);
    }
  }

  lemma {:induction false} UsesAreEarlier(bb: Blocks, r: nat)
    ensures forall q :: q in Uses(bb, r) ==> q < r
    decreases r
  {
    if ValidRef(bb, r) {
      var i := At(bb, r);
      forall o | o in {i.op0, i.op1, i.op2, i.op3} && o.Ref? && o.ref < r
        ensures forall q :: q in OpUses(bb, r, o) ==> q < r
      {
        UsesAreEarlier(bb, o.ref);
      }
    }
  }

  // ---------------------------------------------------- check_memory_conflict

  predicate IsAddRef(bb: Blocks, o: Operand)
  {
    o.Ref? && ValidRef(bb, o.ref) && At(bb, o.ref).index.Add?
  }

  /** Both addresses are the same base plus constants. */
  predicate SameBase(bb: Blocks, x: nat, y: nat)
    requires ValidRef(bb, x) && ValidRef(bb, y)
  {
    var p, q := At(bb, x).op1, At(bb, y).op1;
    IsAddRef(bb, p) && IsAddRef(bb, q)
    && At(bb, p.ref).op1 == At(bb, q.ref).op1
    && At(bb, p.ref).op2.Const? && At(bb, q.ref).op2.Const?
  }

  function AddrOffset(bb: Blocks, x: nat): Word
    requires ValidRef(bb, x) && IsAddRef(bb, At(bb, x).op1) && At(bb, At(bb, x).op1.ref).op2.Const?
  {
    At(bb, At(bb, x).op1.ref).op2.c
  }

  /** The overlap test, in the wrapping arithmetic of `unsigned long`. */
  predicate OffsetsClash(a: Word, aw: nat, b: Word, bw: nat)
  {
    (b <= a && a < (b + bw) % WORD) || (a <= b && b < (a + aw) % WORD)
  }

  /** `check_memory_conflict` under MO_WEAK. */
  predicate WeakConflict(bb: Blocks, x: nat, y: nat)
    requires ValidRef(bb, x) && ValidRef(bb, y)
  {
    if SameBase(bb, x, y) then
      OffsetsClash(AddrOffset(bb, x), Width(At(bb, x).index), AddrOffset(bb, y), Width(At(bb, y).index))
    else true
  }

  /** The wrapped end of the range must not lie below its start. */
  predicate RangeFits(a: Word, w: nat) { a + w < WORD }

  lemma {:induction false} CellSum(base: Word, a: int, k: int)
    ensures Cell(Cell(base, a), k) == Cell(base, a + k)
  {
  }

  lemma {:induction false} CellInjective(base: Word, u: Word, v: Word)
    requires Cell(base, u) == Cell(base, v)
    ensures u == v
  {
    assert (base + u) / WORD <= 1 && (base + v) / WORD <= 1;
  }

  /** One range wraps and the other starts inside it. */
  predicate Wraps(a: Word, aw: nat, b: Word, bw: nat)
  {
    || (!RangeFits(a, aw) && (a <= b || b < a + aw - WORD))
    || (!RangeFits(b, bw) && (b <= a || a < b + bw - WORD))
  }

  predicate Overlap(p: Word, pw: nat, q: Word, qw: nat) { !(Touched(p, pw) !! Touched(q, qw)) }

  lemma {:induction false} CellValue(a: Word, k: nat)
    requires k < WORD
    ensures Cell(a, k) == if a + k < WORD then a + k else a + k - WORD
  {
  }

  lemma {:induction false} Meets(p: Word, pw: nat, q: Word, qw: nat, k: nat)
    requires 0 < pw && k < qw && Cell(q, k) == p
    ensures Overlap(p, pw, q, qw) && Overlap(q, qw, p, pw)
  {
    assert Cell(p, 0) in Touched(p, pw) && Cell(q, k) in Touched(q, qw);
  }

  /** b is byte k of the access at a, for some k. */
  predicate StartsInside(a: Word, aw: nat, b: Word)
  {
    a <= b < a + aw || b < a + aw - WORD
  }

  lemma {:induction false} InsideOverlaps(base: Word, a: Word, aw: nat, b: Word, bw: nat)
    requires 1 <= aw <= 4 && 1 <= bw <= 4 && StartsInside(a, aw, b)
    ensures Overlap(Cell(base, a), aw, Cell(base, b), bw) && Overlap(Cell(base, b), bw, Cell(base, a), aw)
  {
    var k := if a <= b then b - a else b - a + WORD;
    CellSum(base, a, k);
    assert Cell(base, a + k) == Cell(base, b);
    Meets(Cell(base, b), bw, Cell(base, a), aw, k);
  }

  lemma {:induction false} OverlapInside(base: Word, a: Word, aw: nat, b: Word, bw: nat)
    requires 1 <= aw <= 4 && 1 <= bw <= 4 && !StartsInside(a, aw, b) && !StartsInside(b, bw, a)
    ensures !Overlap(Cell(base, a), aw, Cell(base, b), bw)
  {
    var p, q := Cell(base, a), Cell(base, b);
    forall j, k | 0 <= j < aw && 0 <= k < bw
      ensures Cell(p, j) != Cell(q, k)
    {
      BytesApart(base, a, aw, b, bw, j, k);
    }
  }

  lemma {:induction false} BytesApart(base: Word, a: Word, aw: nat, b: Word, bw: nat, j: nat, k: nat)
    requires aw <= 4 && bw <= 4 && !StartsInside(a, aw, b) && !StartsInside(b, bw, a) && j < aw && k < bw
    ensures Cell(Cell(base, a), j) != Cell(Cell(base, b), k)
  {
    ByteApart(a, aw, b, bw, j, k);
    CellMoved(base, a, j);
    CellMoved(base, b, k);
    if Cell(Cell(base, a), j) == Cell(Cell(base, b), k) {
      CellInjective(base, Cell(a, j), Cell(b, k));
    }
  }

  lemma {:induction false} ByteApart(a: Word, aw: nat, b: Word, bw: nat, j: nat, k: nat)
    requires aw <= 4 && bw <= 4 && !StartsInside(a, aw, b) && !StartsInside(b, bw, a) && j < aw && k < bw
    ensures Cell(a, j) != Cell(b, k)
  {
    CellValue(a, j);
    CellValue(b, k);
  }

  lemma {:induction false} CellMoved(base: Word, a: Word, j: nat)
    ensures Cell(Cell(base, a), j) == Cell(base, Cell(a, j))
  {
    CellSum(base, a, j);
    CellModulo(base, a + j);
  }

  lemma {:induction false} CellModulo(base: Word, k: nat)
    ensures Cell(base, k % WORD) == Cell(base, k)
  {
  }

  /** Whatever the value of the shared base, two accesses touch a common byte exactly
      when the test says so or one of the ranges wraps onto the other's start. */
  lemma {:induction false} OverlapExact(base: Word, a: Word, aw: nat, b: Word, bw: nat)
    requires 1 <= aw <= 4 && 1 <= bw <= 4
    ensures Overlap(Cell(base, a), aw, Cell(base, b), bw) <==> OffsetsClash(a, aw, b, bw) || Wraps(a, aw, b, bw)
  {
    ClashOrWraps(a, aw, b, bw);
    if StartsInside(a, aw, b) {
      InsideOverlaps(base, a, aw, b, bw);
    } else if StartsInside(b, bw, a) {
      InsideOverlaps(base, b, bw, a, aw);
    } else {
      OverlapInside(base, a, aw, b, bw);
    }
  }

  lemma {:induction false} ClashOrWraps(a: Word, aw: nat, b: Word, bw: nat)
    requires 1 <= aw <= 4 && 1 <= bw <= 4
    ensures StartsInside(a, aw, b) || StartsInside(b, bw, a) <==> OffsetsClash(a, aw, b, bw) || Wraps(a, aw, b, bw)
  {
  }

  /** Two accesses of a block that the weak test keeps apart and whose order matters. */
  predicate Unrecorded(bb: Blocks, x: nat, y: nat)
  {
    && x != y && IsMemory(bb, x) && IsMemory(bb, y) && RefBB(x) == RefBB(y)
    && (IsStore(At(bb, x).index) || IsStore(At(bb, y).index))
    && SameBase(bb, x, y) && !WeakConflict(bb, x, y)
  }

  /** Both address computations precede their accesses. */
  predicate AddressesFirst(bb: Blocks, x: nat, y: nat)
    requires ValidRef(bb, x) && ValidRef(bb, y) && SameBase(bb, x, y)
  {
    At(bb, x).op1.ref < x && At(bb, y).op1.ref < y
  }

  /** Both take the base from the same side: not one before and the other after a
      feedback update of it. */
  predicate SteadyBase(bb: Blocks, x: nat, y: nat)
    requires ValidRef(bb, x) && ValidRef(bb, y) && SameBase(bb, x, y)
  {
    var p, q := At(bb, x).op1.ref, At(bb, y).op1.ref;
    var base := At(bb, p).op1;
    base.Ref? && ValidRef(bb, base.ref) ==> (base.ref < p <==> base.ref < q)
  }

  /** Instruction r adds the constant c to its own value of the previous iteration. */
  predicate Bumped(bb: Blocks, r: nat)
    requires ValidRef(bb, r)
  {
    At(bb, r).index.Add? && At(bb, r).op1 == Ref(r) && At(bb, r).op2.Const?
  }

  /** The constant distance of an access from the fed-back base r. */
  function BumpedOffset(bb: Blocks, x: nat, r: nat): Word
    requires ValidRef(bb, x) && IsAddRef(bb, At(bb, x).op1) && At(bb, At(bb, x).op1.ref).op2.Const?
    requires ValidRef(bb, r) && Bumped(bb, r)
  {
    if r < At(bb, x).op1.ref then Cell(At(bb, r).op2.c, AddrOffset(bb, x)) else AddrOffset(bb, x)
  }

  predicate RangesMeet(a: Word, aw: nat, b: Word, bw: nat) { OffsetsClash(a, aw, b, bw) || Wraps(a, aw, b, bw) }

  /** Over a steady base no range wraps onto the other; a base that is not steady is
      bumped by a constant, and the offsets corrected by it stay apart. */
  predicate Harmless(bb: Blocks, x: nat, y: nat)
    requires ValidRef(bb, x) && ValidRef(bb, y) && SameBase(bb, x, y)
  {
    var xw, yw := Width(At(bb, x).index), Width(At(bb, y).index);
    if SteadyBase(bb, x, y) then !Wraps(AddrOffset(bb, x), xw, AddrOffset(bb, y), yw)
    else
      var r := At(bb, At(bb, x).op1.ref).op1.ref;
      Bumped(bb, r) && !RangesMeet(BumpedOffset(bb, x, r), xw, BumpedOffset(bb, y, r), yw)
  }

  /** When the weak test may be trusted on a whole function. */
  ghost predicate SoundBases(bb: Blocks)
  {
    forall x, y :: Unrecorded(bb, x, y) ==> AddressesFirst(bb, x, y) && Harmless(bb, x, y)
  }

  // ------------------------------------------------------------- commutation

  ghost predicate Independent(bb: Blocks, x: nat, y: nat)
  {
    && x != y && IsMemory(bb, x) && IsMemory(bb, y) && RefBB(x) == RefBB(y)
    && !WeakConflict(bb, x, y)
    && y !in Uses(bb, x) && x !in Uses(bb, y)
  }

  ghost function AddressOf(bb: Blocks, env: Env, loads: map<nat, Word>, x: nat): Word
    requires ValidRef(bb, x)
  {
    OpVal(bb, env, loads, x, At(bb, x).op1)
  }

  ghost predicate Apart(bb: Blocks, env: Env, loads: map<nat, Word>, x: nat, y: nat)
    requires ValidRef(bb, x) && ValidRef(bb, y)
  {
    !Overlap(AddressOf(bb, env, loads, x), Width(At(bb, x).index), AddressOf(bb, env, loads, y), Width(At(bb, y).index))
  }

  /** Whatever is computed, the two accesses touch no common byte. */
  ghost predicate Trusted(bb: Blocks, x: nat, y: nat)
    requires ValidRef(bb, x) && ValidRef(bb, y)
  {
    forall env: Env, loads :: Apart(bb, env, loads, x, y)
  }

  lemma {:induction false} AddressIsCell(bb: Blocks, env: Env, loads: map<nat, Word>, x: nat)
    requires ValidRef(bb, x) && IsAddRef(bb, At(bb, x).op1) && At(bb, x).op1.ref < x
    requires At(bb, At(bb, x).op1.ref).op2.Const?
    ensures var p := At(bb, x).op1.ref;
            AddressOf(bb, env, loads, x) == Cell(OpVal(bb, env, loads, p, At(bb, p).op1), AddrOffset(bb, x))
  {
    var p := At(bb, x).op1.ref;
    var i := At(bb, p);
    assert AddressOf(bb, env, loads, x) == Val(bb, env, loads, p);
    assert OpVal(bb, env, loads, p, i.op2) == AddrOffset(bb, x);
  }

  lemma {:induction false} WidthBounds(index: Opcode)
    ensures 1 <= Width(index) <= 4
  {
  }

  lemma {:induction false} SameSide(bb: Blocks, env: Env, loads: map<nat, Word>, p: nat, q: nat, o: Operand)
    requires o.Ref? && ValidRef(bb, o.ref) ==> (o.ref < p <==> o.ref < q)
    ensures OpVal(bb, env, loads, p, o) == OpVal(bb, env, loads, q, o)
  {
    if o.Ref? && !ValidRef(bb, o.ref) {
      assert Val(bb, env, loads, o.ref) == env.ext(o.ref);
    }
  }

  lemma {:induction false} SteadyApart(bb: Blocks, env: Env, loads: map<nat, Word>, x: nat, y: nat)
    requires Unrecorded(bb, x, y) && AddressesFirst(bb, x, y) && SteadyBase(bb, x, y)
    ensures Apart(bb, env, loads, x, y) <==> Harmless(bb, x, y)
  {
    var p, q := At(bb, x).op1.ref, At(bb, y).op1.ref;
    var base := OpVal(bb, env, loads, p, At(bb, p).op1);
    SameSide(bb, env, loads, p, q, At(bb, p).op1);
    AddressIsCell(bb, env, loads, x);
    AddressIsCell(bb, env, loads, y);
    WidthBounds(At(bb, x).index);
    WidthBounds(At(bb, y).index);
    OverlapExact(base, AddrOffset(bb, x), Width(At(bb, x).index), AddrOffset(bb, y), Width(At(bb, y).index));
  }

  lemma {:induction false} BumpedAddress(bb: Blocks, env: Env, loads: map<nat, Word>, x: nat, r: nat)
    requires ValidRef(bb, x) && IsAddRef(bb, At(bb, x).op1) && At(bb, x).op1.ref < x
    requires At(bb, At(bb, x).op1.ref).op2.Const? && At(bb, At(bb, x).op1.ref).op1 == Ref(r)
    requires ValidRef(bb, r) && Bumped(bb, r)
    ensures AddressOf(bb, env, loads, x) == Cell(env.ext(r), BumpedOffset(bb, x, r))
  {
    AddressIsCell(bb, env, loads, x);
    var p, c, o := At(bb, x).op1.ref, At(bb, r).op2.c, AddrOffset(bb, x);
    if r < p {
      assert OpVal(bb, env, loads, r, At(bb, r).op1) == env.ext(r) && OpVal(bb, env, loads, r, At(bb, r).op2) == c;
      assert Val(bb, env, loads, r) == Cell(env.ext(r), c);
      CellSum(env.ext(r), c, o);
      CellModulo(env.ext(r), c as int + o);
    }
  }

  lemma {:induction false} BumpedApart(bb: Blocks, env: Env, loads: map<nat, Word>, x: nat, y: nat)
    requires Unrecorded(bb, x, y) && AddressesFirst(bb, x, y) && !SteadyBase(bb, x, y)
    requires Bumped(bb, At(bb, At(bb, x).op1.ref).op1.ref)
    ensures Apart(bb, env, loads, x, y) <==> Harmless(bb, x, y)
  {
    var r := At(bb, At(bb, x).op1.ref).op1.ref;
    BumpedAddress(bb, env, loads, x, r);
    BumpedAddress(bb, env, loads, y, r);
    WidthBounds(At(bb, x).index);
    WidthBounds(At(bb, y).index);
    OverlapExact(env.ext(r), BumpedOffset(bb, x, r), Width(At(bb, x).index), BumpedOffset(bb, y, r), Width(At(bb, y).index));
  }

  /** The values from outside that instruction r's value is computed from; what a load
      returns is counted as its own. */
  ghost function Outside(bb: Blocks, r: nat): set<nat>
    decreases r, 1
  {
    if !ValidRef(bb, r) then {r}
    else
      var i := At(bb, r);
      if IsLoad(i.index) then {}
      else OpOutside(bb, r, i.op1) + OpOutside(bb, r, i.op2) + OpOutside(bb, r, i.op3)
  }

  ghost function OpOutside(bb: Blocks, self: nat, o: Operand): set<nat>
    decreases self, 0
  {
    if !o.Ref? then {} else if o.ref < self then Outside(bb, o.ref) else {o.ref}
  }

  const ZERO: Word := 0

  const BLANK: Env := Env((_, _, _) => ZERO, _ => ZERO, _ => ZERO)

  function FedValue(env: Env, r: nat, e: Word, k: nat): Word { if k == r then e else env.ext(k) }

  /** Feeding another value e back as r. */
  function Fed(env: Env, r: nat, e: Word): (n: Env)
    ensures n.ext(r) == e && forall k: nat :: k != r ==> n.ext(k) == env.ext(k)
  {
    env.(ext := k => FedValue(env, r, e, k))
  }

  lemma {:induction false} OutsideFrame(bb: Blocks, env: Env, loads: map<nat, Word>, r: nat, e: Word, q: nat)
    requires r in loads && r !in Outside(bb, q)
    ensures Val(bb, Fed(env, r, e), loads, q) == Val(bb, env, loads, q)
    decreases q, 1
  {
    if ValidRef(bb, q) && !IsLoad(At(bb, q).index) {
      var i := At(bb, q);
      OpOutsideFrame(bb, env, loads, r, e, q, i.op1);
      OpOutsideFrame(bb, env, loads, r, e, q, i.op2);
      OpOutsideFrame(bb, env, loads, r, e, q, i.op3);
    }
  }

  lemma {:induction false} OpOutsideFrame(bb: Blocks, env: Env, loads: map<nat, Word>, r: nat, e: Word, self: nat, o: Operand)
    requires r in loads && r !in OpOutside(bb, self, o)
    ensures OpVal(bb, Fed(env, r, e), loads, self, o) == OpVal(bb, env, loads, self, o)
    decreases self, 0
  {
    if o.Ref? && o.ref < self {
      OutsideFrame(bb, env, loads, r, e, o.ref);
    }
  }

  /** Over a base that is not steady, unless it is computed from its own earlier value,
      some values make the two accesses meet. */
  lemma {:induction false} UnsteadyMeets(bb: Blocks, x: nat, y: nat)
    requires Unrecorded(bb, x, y) && AddressesFirst(bb, x, y) && !SteadyBase(bb, x, y)
    requires var r := At(bb, At(bb, x).op1.ref).op1.ref; r !in Outside(bb, r)
    ensures !Trusted(bb, x, y)
  {
    var p, q := At(bb, x).op1.ref, At(bb, y).op1.ref;
    var r := At(bb, p).op1.ref;
    var env, loads := BLANK, map[r := 0];
    var v := Val(bb, env, loads, r);
    var (late, early) := if r < p then (x, y) else (y, x);
    var e := Cell(v, AddrOffset(bb, late) - AddrOffset(bb, early));
    OutsideFrame(bb, env, loads, r, e, r);
    var n := Fed(env, r, e);
    AddressIsCell(bb, n, loads, late);
    AddressIsCell(bb, n, loads, early);
    CellSum(v, AddrOffset(bb, late) - AddrOffset(bb, early), AddrOffset(bb, early));
    assert AddressOf(bb, n, loads, x) == AddressOf(bb, n, loads, y);
    SameStart(AddressOf(bb, n, loads, x), Width(At(bb, x).index), Width(At(bb, y).index));
    assert !Apart(bb, n, loads, x, y);
  }

  lemma {:induction false} SameStart(a: Word, aw: nat, bw: nat)
    requires 1 <= aw && 1 <= bw
    ensures Overlap(a, aw, a, bw)
  {
    Meets(a, aw, a, bw, 0);
  }

  /** Over a base that is steady or bumped by a constant the condition is exact. */
  lemma {:induction false} TrustedExact(bb: Blocks, x: nat, y: nat)
    requires Unrecorded(bb, x, y) && AddressesFirst(bb, x, y)
    requires SteadyBase(bb, x, y) || Bumped(bb, At(bb, At(bb, x).op1.ref).op1.ref)
    ensures Trusted(bb, x, y) <==> Harmless(bb, x, y)
  {
    forall env: Env, loads
      ensures Apart(bb, env, loads, x, y) <==> Harmless(bb, x, y)
    {
      if SteadyBase(bb, x, y) {
        SteadyApart(bb, env, loads, x, y);
      } else {
        BumpedApart(bb, env, loads, x, y);
      }
    }
    assert Apart(bb, BLANK, map[], x, y) <==> Harmless(bb, x, y);
  }

  /** Every base is the same on both sides, bumped by a constant, or not computed from
      its own earlier value. */
  ghost predicate PlainBases(bb: Blocks)
  {
    forall x, y :: Unrecorded(bb, x, y) ==>
      var r := At(bb, At(bb, x).op1.ref).op1;
      AddressesFirst(bb, x, y) && (SteadyBase(bb, x, y) || Bumped(bb, r.ref) || r.ref !in Outside(bb, r.ref))
  }

  /** On plain bases SoundBases holds exactly when no two accesses that the weak test
      keeps apart can touch a common byte. */
  lemma {:induction false} SoundBasesExact(bb: Blocks)
    requires PlainBases(bb)
    ensures SoundBases(bb) <==> forall x, y :: Unrecorded(bb, x, y) ==> Trusted(bb, x, y)
  {
    forall x: nat, y: nat | Unrecorded(bb, x, y)
      ensures AddressesFirst(bb, x, y) && Harmless(bb, x, y) <==> Trusted(bb, x, y)
    {
      PairExact(bb, x, y);
    }
  }

  lemma {:induction false} PairExact(bb: Blocks, x: nat, y: nat)
    requires PlainBases(bb) && Unrecorded(bb, x, y)
    ensures AddressesFirst(bb, x, y) && (Harmless(bb, x, y) <==> Trusted(bb, x, y))
  {
    if SteadyBase(bb, x, y) || Bumped(bb, At(bb, At(bb, x).op1.ref).op1.ref) {
      TrustedExact(bb, x, y);
    } else {
      UnsteadyMeets(bb, x, y);
    }
  }

  lemma {:induction false} AddressesDisjoint(bb: Blocks, env: Env, loads: map<nat, Word>, x: nat, y: nat)
    requires SoundBases(bb) && Independent(bb, x, y) && (IsStore(At(bb, x).index) || IsStore(At(bb, y).index))
    ensures Touched(AddressOf(bb, env, loads, x), Width(At(bb, x).index))
         !! Touched(AddressOf(bb, env, loads, y), Width(At(bb, y).index))
  {
    assert Unrecorded(bb, x, y);
    if SteadyBase(bb, x, y) {
      SteadyApart(bb, env, loads, x, y);
    } else {
      BumpedApart(bb, env, loads, x, y);
    }
  }

  /** Performing y first does not change what x computes its operands from. */
  lemma {:induction false} OperandsUnaffected(bb: Blocks, env: Env, b: nat, s: State, x: nat, y: nat)
    requires ValidRef(bb, x) && y !in Uses(bb, x)
    ensures var t := Exec(bb, env, b, s, y);
            && OpVal(bb, env, t.loads, x, At(bb, x).op0) == OpVal(bb, env, s.loads, x, At(bb, x).op0)
            && OpVal(bb, env, t.loads, x, At(bb, x).op1) == OpVal(bb, env, s.loads, x, At(bb, x).op1)
  {
    var t := Exec(bb, env, b, s, y);
    OpFrame(bb, env, t.loads, s.loads, x, At(bb, x).op0);
    OpFrame(bb, env, t.loads, s.loads, x, At(bb, x).op1);
  }

  lemma {:induction false} ExecCommute(bb: Blocks, env: Env, b: nat, s: State, x: nat, y: nat)
    requires WellFormed(bb) && SoundBases(bb) && Independent(bb, x, y)
    ensures Exec(bb, env, b, Exec(bb, env, b, s, x), y) == Exec(bb, env, b, Exec(bb, env, b, s, y), x)
  {
    if RefBB(x) == b {
      var i, j := At(bb, x), At(bb, y);
      var ax, ay := OpVal(bb, env, s.loads, x, i.op1), OpVal(bb, env, s.loads, y, j.op1);
      var vx, vy := OpVal(bb, env, s.loads, x, i.op0), OpVal(bb, env, s.loads, y, j.op0);
      var wx, wy := Width(i.index), Width(j.index);
      OperandsUnaffected(bb, env, b, s, x, y);
      OperandsUnaffected(bb, env, b, s, y, x);
      if IsStore(i.index) || IsStore(j.index) {
        AddressesDisjoint(bb, env, s.loads, x, y);
      }
      if IsStore(i.index) && IsStore(j.index) {
        WritesCommute(s.mem, ax, wx, vx, ay, wy, vy);
      } else if IsStore(i.index) {
        ReadOverWrite(s.mem, ay, wy, ax, wx, vx);
      } else if IsStore(j.index) {
        ReadOverWrite(s.mem, ax, wx, ay, wy, vy);
      } else {
        var lx, ly := Extend(Read(s.mem, ax, wx), Signed in i.typ), Extend(Read(s.mem, ay, wy), Signed in j.typ);
        assert s.loads[x := lx][y := ly] == s.loads[y := ly][x := lx];
      }
    }
  }

  lemma {:induction false} RunSplit(bb: Blocks, env: Env, b: nat, p: seq<nat>, q: seq<nat>, s: State)
    ensures Run(bb, env, b, p + q, s) == Run(bb, env, b, q, Run(bb, env, b, p, s))
    decreases |p|
  {
    if p == [] {
      assert p + q == q;
    } else {
      assert (p + q)[1..] == p[1..] + q;
      RunSplit(bb, env, b, p[1..], q, Exec(bb, env, b, s, p[0]));
    }
  }

  /** An access may be performed before any run of accesses it is independent of. */
  lemma {:induction false} RunHoist(bb: Blocks, env: Env, b: nat, ys: seq<nat>, x: nat, s: State)
    requires WellFormed(bb) && SoundBases(bb)
    requires forall y :: y in ys ==> Independent(bb, x, y)
    ensures Run(bb, env, b, ys + [x], s) == Run(bb, env, b, [x] + ys, s)
    decreases |ys|
  {
    if ys == [] {
      assert ys + [x] == [x] + ys;
    } else {
      var y, t := ys[0], Exec(bb, env, b, s, ys[0]);
      assert (ys + [x])[1..] == ys[1..] + [x] && ([x] + ys)[1..] == ys && ([x] + ys[1..])[1..] == ys[1..];
      RunHoist(bb, env, b, ys[1..], x, t);
      ExecCommute(bb, env, b, s, x, y);
    }
  }

  /** Element j of s moved in front of element i. */
  function Move<T>(s: seq<T>, j: nat, i: nat): (r: seq<T>)
    requires i <= j < |s|
    ensures multiset(r) == multiset(s)
  {
    assert s == s[..i] + s[i..j] + [s[j]] + s[j + 1..];
    s[..i] + [s[j]] + s[i..j] + s[j + 1..]
  }

  lemma {:induction false} RunMove(bb: Blocks, env: Env, b: nat, order: seq<nat>, j: nat, i: nat, s: State)
    requires WellFormed(bb) && SoundBases(bb) && i <= j < |order|
    requires forall k :: i <= k < j ==> Independent(bb, order[j], order[k])
    ensures Run(bb, env, b, Move(order, j, i), s) == Run(bb, env, b, order, s)
  {
    var p, ys, x, q := order[..i], order[i..j], order[j], order[j + 1..];
    var t := Run(bb, env, b, p, s);
    assert order == p + ((ys + [x]) + q);
    assert Move(order, j, i) == p + (([x] + ys) + q);
    RunSplit(bb, env, b, p, (ys + [x]) + q, s);
    RunSplit(bb, env, b, p, ([x] + ys) + q, s);
    RunSplit(bb, env, b, ys + [x], q, t);
    RunSplit(bb, env, b, [x] + ys, q, t);
    RunHoist(bb, env, b, ys, x, t);
  }

  /** Two half-overlapping accesses just below the base: `sh -2(rA)`, `lw -4(rA)`. */
  lemma {:induction false} NegativeOffsetsMissed(base: Word)
    ensures !OffsetsClash(WORD - 4, 4, WORD - 2, 2)
    ensures Overlap(Cell(base, WORD - 4), 4, Cell(base, WORD - 2), 2)
  {
    OverlapExact(base, WORD - 4, 4, WORD - 2, 2);
  }

  const FEEDBACK: Blocks :=
    [[Insn(Add, {MemAdd}, Dest(-1), Ref(2), Const(8), NoOp),
      Insn(Sb, {Memory}, Const(7), Ref(0), NoOp, NoOp),
      Insn(Add, {}, Dest(-1), Register(5), Const(0), NoOp),
      Insn(Add, {MemAdd}, Dest(-1), Ref(2), Const(4), NoOp),
      Insn(Lb, {Memory}, Dest(3), Ref(3), NoOp, NoOp)]]

  /** A base fed back from a later instruction: the store (1) uses the value of the
      previous iteration, the load (4) the value of this one, and their order matters. */
  lemma {:induction false} FeedbackBaseMissed(env: Env, s: State)
    requires env.regs(5) == 4 && env.ext(2) == 0 && Load8(s.mem, 8) == 0 && s.loads == map[]
    ensures Exec(FEEDBACK, env, 0, Exec(FEEDBACK, env, 0, s, 1), 4)
         != Exec(FEEDBACK, env, 0, Exec(FEEDBACK, env, 0, s, 4), 1)
  {
    FeedbackValues(env, s.loads);
    StoreThenLoad(env, s);
    LoadThenStore(env, s);
  }

  lemma {:induction false} StoreThenLoad(env: Env, s: State)
    requires OpVal(FEEDBACK, env, s.loads, 1, Ref(0)) == 8 && OpVal(FEEDBACK, env, s.loads, 4, Ref(3)) == 8
    ensures 4 in Exec(FEEDBACK, env, 0, Exec(FEEDBACK, env, 0, s, 1), 4).loads
    ensures Exec(FEEDBACK, env, 0, Exec(FEEDBACK, env, 0, s, 1), 4).loads[4] == 7
  {
    var t := State(Write(s.mem, 8, 1, 7), s.loads);
    assert Exec(FEEDBACK, env, 0, s, 1) == t;
    assert Cell(8, 0) in Touched(8, 1);
    assert Read(t.mem, 8, 1) == [7];
    OneByte(7);
  }

  lemma {:induction false} LoadThenStore(env: Env, s: State)
    requires OpVal(FEEDBACK, env, s.loads, 4, Ref(3)) == 8 && Load8(s.mem, 8) == 0
    ensures 4 in Exec(FEEDBACK, env, 0, Exec(FEEDBACK, env, 0, s, 4), 1).loads
    ensures Exec(FEEDBACK, env, 0, Exec(FEEDBACK, env, 0, s, 4), 1).loads[4] == 0
  {
    assert Read(s.mem, 8, 1) == [0];
    OneByte(0);
    assert Exec(FEEDBACK, env, 0, s, 4).loads == s.loads[4 := 0];
  }

  lemma {:induction false} FeedbackValues(env: Env, loads: map<nat, Word>)
    requires env.regs(5) == 4 && env.ext(2) == 0 && loads == map[]
    ensures OpVal(FEEDBACK, env, loads, 1, Ref(0)) == 8
    ensures OpVal(FEEDBACK, env, loads, 4, Ref(3)) == 8
  {
    assert Val(FEEDBACK, env, loads, 0) == 8;
    assert Val(FEEDBACK, env, loads, 2) == 4;
    assert Val(FEEDBACK, env, loads, 3) == 8;
  }

  lemma {:induction false} OneByte(v: int)
    requires 0 <= v < 0x80
    ensures Extend([v], false) == v
  {
    assert [v][..0] == [];
    assert BigEndian([v]) == BigEndian([v][..0]) * 0x100 + v;
  }

  // ------------------------------------------------------- the dependency lists

  function DepsOf(dep: Deps, r: nat): seq<nat> { if r in dep then dep[r] else [] }

  /** `add_dep` */
  function AddDep(list: seq<nat>, d: nat): (r: seq<nat>)
    ensures forall x :: x in r <==> x in list || x == d
  {
    if d in list then list else list + [d]
  }

  /** The lists name every earlier access that may touch the same bytes and
      everything an access is computed from. */
  ghost predicate Covers(bb: Blocks, dep: Deps)
  {
    forall x :: IsMemory(bb, x) ==>
      && (forall y :: y < x && IsMemory(bb, y) && WeakConflict(bb, x, y) ==> y in DepsOf(dep, x))
      && (forall y :: y in Uses(bb, x) ==> y in DepsOf(dep, x))
  }

  /** Below `limit` the lists gained exactly the conflicting earlier accesses. */
  ghost predicate ConflictsListed(bb: Blocks, before: Deps, dep: Deps, limit: nat)
  {
    && (forall r: nat, d: nat :: IsMemory(bb, r) && r < limit ==>
          (d in DepsOf(dep, r) <==>
             d in DepsOf(before, r) || (d < r && IsMemory(bb, d) && WeakConflict(bb, r, d))))
    && (forall r: nat :: !IsMemory(bb, r) || r >= limit ==> DepsOf(dep, r) == DepsOf(before, r))
  }

  ghost predicate Accesses(bb: Blocks, s: seq<nat>, limit: nat)
  {
    forall d: nat :: d in s <==> IsMemory(bb, d) && d < limit
  }

  /** The references below `limit` are done, their accesses collected in s. */
  ghost predicate Listed(bb: Blocks, before: Deps, dep: Deps, s: seq<nat>, limit: nat)
  {
    Accesses(bb, s, limit) && ConflictsListed(bb, before, dep, limit)
  }

  lemma {:induction false} NoAccessBetween(bb: Blocks, b: nat, s: seq<nat>, before: Deps, dep: Deps)
    requires WellFormed(bb) && b < |bb| && Listed(bb, before, dep, s, b * MAX_INSNS + |bb[b]|)
    ensures Listed(bb, before, dep, s, (b + 1) * MAX_INSNS)
  {
    forall d: nat | b * MAX_INSNS + |bb[b]| <= d < (b + 1) * MAX_INSNS
      ensures !IsMemory(bb, d)
    {
      RefParts(b, d - b * MAX_INSNS);
    }
  }

  lemma {:induction false} NextConflicts(bb: Blocks, before: Deps, mid: Deps, dep: Deps, r: nat)
    requires ConflictsListed(bb, before, mid, r)
    requires forall q: nat :: q != r ==> DepsOf(dep, q) == DepsOf(mid, q)
    requires if IsMemory(bb, r) then
               forall d: nat :: d in DepsOf(dep, r) <==>
                 d in DepsOf(mid, r) || (IsMemory(bb, d) && d < r && WeakConflict(bb, r, d))
             else dep == mid
    ensures ConflictsListed(bb, before, dep, r + 1)
  {
  }

  /** `mem_ordering_cmp` */
  predicate OrderedBefore(bb: Blocks, x: nat, y: nat)
    requires ValidRef(bb, x) && ValidRef(bb, y)
  {
    SameBase(bb, x, y) && AddrOffset(bb, x) < AddrOffset(bb, y)
  }

  /** The accesses below reference `limit`, in program order. */
  ghost predicate ProgramOrder(bb: Blocks, s: seq<nat>, limit: nat)
  {
    && (forall k :: 0 <= k < |s| ==> IsMemory(bb, s[k]) && s[k] < limit)
    && (forall j, k :: 0 <= j < k < |s| ==> s[j] < s[k])
    && (forall r: nat :: IsMemory(bb, r) && r < limit ==> r in s)
  }

  /** No element stands before an earlier access it depends on. */
  ghost predicate RespectsDeps(dep: Deps, s: seq<nat>, upto: nat)
  {
    forall p, q :: 0 <= p < q < |s| && p < upto && s[q] < s[p] ==> s[q] !in DepsOf(dep, s[p])
  }

  /** d is operand o of r or was listed for it: now, if o has been handled before r. */
  predicate FromOperand(before: Deps, dep: Deps, r: nat, o: Operand, d: nat)
  {
    o.Ref? && (d == o.ref || d in DepsOf(if o.ref < r then dep else before, o.ref))
  }

  predicate FromOperands(before: Deps, dep: Deps, r: nat, i: Insn, d: nat)
  {
    || FromOperand(before, dep, r, i.op0, d) || FromOperand(before, dep, r, i.op1, d)
    || FromOperand(before, dep, r, i.op2, d) || FromOperand(before, dep, r, i.op3, d)
  }

  /** The list of r holds what it held, its operands and what was listed for them. */
  ghost predicate Gathered(bb: Blocks, before: Deps, dep: Deps, r: nat)
    requires ValidRef(bb, r)
  {
    forall d: nat :: d in DepsOf(dep, r) <==> d in DepsOf(before, r) || FromOperands(before, dep, r, At(bb, r), d)
  }

  /** `add_data_dep` has handled the references below `limit`, and done nothing else. */
  ghost predicate DataListed(bb: Blocks, before: Deps, dep: Deps, limit: nat)
  {
    && (forall r: nat :: ValidRef(bb, r) && r < limit ==> Gathered(bb, before, dep, r))
    && (forall r: nat :: !ValidRef(bb, r) || r >= limit ==> DepsOf(dep, r) == DepsOf(before, r))
  }

  lemma {:induction false} UsesListed(bb: Blocks, before: Deps, dep: Deps, limit: nat, r: nat)
    requires DataListed(bb, before, dep, limit) && ValidRef(bb, r) && r < limit
    ensures forall d :: d in Uses(bb, r) ==> d in DepsOf(dep, r)
    decreases r
  {
    var i := At(bb, r);
    assert Gathered(bb, before, dep, r);
    forall o | o in {i.op0, i.op1, i.op2, i.op3} && o.Ref? && o.ref < r
      ensures forall d :: d in OpUses(bb, r, o) ==> d in DepsOf(dep, r)
    {
      assert forall d :: FromOperand(before, dep, r, o, d) ==> FromOperands(before, dep, r, i, d);
      if ValidRef(bb, o.ref) {
        UsesListed(bb, before, dep, limit, o.ref);
      }
    }
  }

  /** The two dependency passes, in the order `cuc_optimize` runs them, produce
      lists that cover every conflict and every data dependency. */
  lemma {:induction false} PassesCover(bb: Blocks, d0: Deps, d1: Deps, d2: Deps)
    requires WellFormed(bb)
    requires ConflictsListed(bb, d0, d1, |bb| * MAX_INSNS) && DataListed(bb, d1, d2, |bb| * MAX_INSNS)
    ensures Covers(bb, d2)
  {
    forall x: nat | IsMemory(bb, x)
      ensures && (forall y: nat :: y < x && IsMemory(bb, y) && WeakConflict(bb, x, y) ==> y in DepsOf(d2, x))
              && (forall y :: y in Uses(bb, x) ==> y in DepsOf(d2, x))
    {
      assert x < |bb| * MAX_INSNS;
      UsesListed(bb, d1, d2, |bb| * MAX_INSNS, x);
    }
  }

  lemma {:induction false} NextData(bb: Blocks, before: Deps, mid: Deps, dep: Deps, r: nat)
    requires ValidRef(bb, r) && DataListed(bb, before, mid, r)
    requires forall q: nat :: q != r ==> DepsOf(dep, q) == DepsOf(mid, q)
    requires forall d: nat :: d in DepsOf(dep, r) <==> d in DepsOf(mid, r) || FromOperands(mid, mid, r, At(bb, r), d)
    ensures DataListed(bb, before, dep, r + 1)
  {
    SameGathered(before, mid, dep, r, At(bb, r));
    forall q: nat | ValidRef(bb, q) && q < r
      ensures Gathered(bb, before, dep, q)
    {
      assert Gathered(bb, before, mid, q);
      EarlierGathered(before, mid, dep, r, q, At(bb, q));
    }
  }

  lemma {:induction false} SameGathered(before: Deps, mid: Deps, dep: Deps, r: nat, i: Insn)
    requires forall q: nat :: q != r ==> DepsOf(dep, q) == DepsOf(mid, q)
    requires forall q: nat :: q >= r ==> DepsOf(mid, q) == DepsOf(before, q)
    ensures forall d: nat :: FromOperands(mid, mid, r, i, d) <==> FromOperands(before, dep, r, i, d)
  {
  }

  lemma {:induction false} EarlierGathered(before: Deps, mid: Deps, dep: Deps, r: nat, q: nat, i: Insn)
    requires q < r && forall q: nat :: q != r ==> DepsOf(dep, q) == DepsOf(mid, q)
    ensures forall d: nat :: FromOperands(before, mid, q, i, d) <==> FromOperands(before, dep, q, i, d)
  {
  }

  lemma {:induction false} FeedbackAccesses(r: nat)
    requires r < 5
    ensures IsMemory(FEEDBACK, r) <==> r == 1 || r == 4
  {
    assert RefBB(r) == 0 && RefI(r) == r && At(FEEDBACK, r) == FEEDBACK[0][r];
  }

  lemma {:induction false} FeedbackApart()
    ensures !WeakConflict(FEEDBACK, 4, 1)
  {
  }

  /** From empty lists nothing but conflicts is listed. */
  lemma {:induction false} OnlyConflicts(bb: Blocks, dep: Deps, limit: nat, r: nat, d: nat)
    requires ConflictsListed(bb, map[], dep, limit) && r < limit
    requires IsMemory(bb, r) && IsMemory(bb, d) && d < r ==> !WeakConflict(bb, r, d)
    ensures d !in DepsOf(dep, r)
  {
    assert d !in DepsOf(map[], r);
    if IsMemory(bb, r) {
      assert d in DepsOf(dep, r) <==>
               d in DepsOf(map[], r) || (d < r && IsMemory(bb, d) && WeakConflict(bb, r, d));
    } else {
      assert DepsOf(dep, r) == DepsOf(map[], r);
    }
  }

  lemma {:induction false} FeedbackConflicts(d1: Deps, r: nat, d: nat)
    requires ConflictsListed(FEEDBACK, map[], d1, |FEEDBACK| * MAX_INSNS) && r < 5
    ensures d !in DepsOf(d1, r)
  {
    FeedbackAccesses(r);
    if d < r {
      FeedbackAccesses(d);
      FeedbackApart();
    }
    OnlyConflicts(FEEDBACK, d1, |FEEDBACK| * MAX_INSNS, r, d);
  }

  /** What `add_data_dep` lists for instruction r of `FEEDBACK`. */
  lemma {:induction false} OneGathered(d1: Deps, d2: Deps, r: nat, i: Insn)
    requires DataListed(FEEDBACK, d1, d2, |FEEDBACK| * MAX_INSNS) && r < 5 && i == FEEDBACK[0][r]
    ensures forall d: nat :: d in DepsOf(d2, r) <==> d in DepsOf(d1, r) || FromOperands(d1, d2, r, i, d)
  {
    assert RefBB(r) == 0 && RefI(r) == r;
    assert Gathered(FEEDBACK, d1, d2, r);
  }

  /** Neither pass makes the load of `FEEDBACK` depend on the store, or the other way round. */
  lemma {:induction false} FeedbackUnrecorded(d1: Deps, d2: Deps)
    requires ConflictsListed(FEEDBACK, map[], d1, |FEEDBACK| * MAX_INSNS)
    requires DataListed(FEEDBACK, d1, d2, |FEEDBACK| * MAX_INSNS)
    ensures !WeakConflict(FEEDBACK, 4, 1) && 1 !in DepsOf(d2, 4) && 4 !in DepsOf(d2, 1)
  {
    FeedbackApart();
    forall r: nat, d: nat | r < 5
      ensures d !in DepsOf(d1, r)
    {
      FeedbackConflicts(d1, r, d);
    }
    forall r: nat | r < 5
      ensures forall d: nat :: d in DepsOf(d2, r) <==> FromOperands(d1, d2, r, FEEDBACK[0][r], d)
    {
      OneGathered(d1, d2, r, FEEDBACK[0][r]);
    }
  }

  lemma {:induction false} NoInsnBetween(bb: Blocks, b: nat, before: Deps, dep: Deps)
    requires WellFormed(bb) && b < |bb| && DataListed(bb, before, dep, b * MAX_INSNS + |bb[b]|)
    ensures DataListed(bb, before, dep, (b + 1) * MAX_INSNS)
  {
    forall d: nat | b * MAX_INSNS + |bb[b]| <= d < (b + 1) * MAX_INSNS
      ensures !ValidRef(bb, d)
    {
      RefParts(b, d - b * MAX_INSNS);
    }
  }

  lemma {:induction false} NoEntryBetween(bb: Blocks, b: nat, s: seq<nat>)
    requires WellFormed(bb) && b < |bb| && ProgramOrder(bb, s, b * MAX_INSNS + |bb[b]|)
    ensures ProgramOrder(bb, s, (b + 1) * MAX_INSNS)
  {
    forall d: nat | b * MAX_INSNS + |bb[b]| <= d < (b + 1) * MAX_INSNS
      ensures !ValidRef(bb, d)
    {
      RefParts(b, d - b * MAX_INSNS);
    }
  }

  lemma {:induction false} AppendEntry(bb: Blocks, s: seq<nat>, r: nat)
    requires ProgramOrder(bb, s, r) && IsMemory(bb, r)
    ensures ProgramOrder(bb, s + [r], r + 1)
    ensures (set x | x in s + [r]) == (set x | x in s) + {r}
  {
    assert (s + [r])[|s|] == r;
  }

  /** The number of instructions. */
  function Size(bb: Blocks): nat
  {
    if bb == [] then 0 else Size(bb[..|bb| - 1]) + |bb[|bb| - 1]|
  }

  lemma {:induction false} SizeStep(bb: Blocks, b: nat)
    requires b < |bb|
    ensures Size(bb[..b + 1]) == Size(bb[..b]) + |bb[b]| <= Size(bb)
    decreases |bb| - b
  {
    assert bb[..b + 1][..b] == bb[..b];
    if b + 1 < |bb| {
      SizeStep(bb, b + 1);
    } else {
      assert bb[..b + 1] == bb;
    }
  }

  // ---------------------------------------------------------- the reordering

  /** Same final memory and same value for every load, whatever the base values,
      registers and initial memory. */
  ghost predicate SameRuns(bb: Blocks, s: seq<nat>, t: seq<nat>)
  {
    forall env: Env, b: nat, st: State :: Run(bb, env, b, s, st) == Run(bb, env, b, t, st)
  }

  /** What is left to schedule is still in program order. */
  ghost predicate Unscheduled(bb: Blocks, s: seq<nat>, i: nat, flag1: set<nat>)
  {
    && i <= |s|
    && (forall k :: i <= k < |s| ==> IsMemory(bb, s[k]))
    && (forall j, k :: i <= j < k < |s| ==> s[j] < s[k])
    && (forall r :: r in flag1 <==> r in s[i..])
  }

  /** The candidate may be hoisted in front of the remaining accesses. */
  ghost predicate Hoistable(dep: Deps, s: seq<nat>, i: nat, best: nat, flag1: set<nat>)
  {
    && i <= best < |s|
    && (best > i ==> RefBB(s[best]) == RefBB(s[i]) && forall d :: d in DepsOf(dep, s[best]) ==> d !in flag1)
  }

  /** Where element k of the moved sequence came from. */
  function Source(j: nat, i: nat, k: nat): nat
    requires i <= j
  {
    if k < i || j < k then k else if k == i then j else k - 1
  }

  lemma {:induction false} MoveSource<T>(s: seq<T>, j: nat, i: nat)
    requires i <= j < |s|
    ensures forall k :: 0 <= k < |s| ==> Move(s, j, i)[k] == s[Source(j, i, k)]
  {
  }

  lemma {:induction false} HoistUnscheduled(bb: Blocks, s: seq<nat>, i: nat, best: nat, flag1: set<nat>)
    requires Unscheduled(bb, s, i, flag1) && i <= best < |s|
    ensures Unscheduled(bb, Move(s, best, i), i + 1, flag1 - {s[best]})
  {
    var t := Move(s, best, i);
    MoveSource(s, best, i);
    assert s[i..] == s[i..best] + [s[best]] + s[best + 1..];
    assert t[i + 1..] == s[i..best] + s[best + 1..];
    assert s[best] !in s[i..best] && s[best] !in s[best + 1..];
  }

  lemma {:induction false} HoistRespects(bb: Blocks, dep: Deps, s: seq<nat>, i: nat, best: nat, flag1: set<nat>)
    requires Unscheduled(bb, s, i, flag1) && Hoistable(dep, s, i, best, flag1)
    requires RespectsDeps(dep, s, i)
    ensures RespectsDeps(dep, Move(s, best, i), i + 1)
  {
    var t := Move(s, best, i);
    MoveSource(s, best, i);
    forall p, q | 0 <= p < q < |t| && p < i + 1 && t[q] < t[p]
      ensures t[q] !in DepsOf(dep, t[p])
    {
      var q' := Source(best, i, q);
      assert t[q] == s[q'];
      if p < i {
        assert t[p] == s[p] && p < q';
      } else {
        assert s[q'] in s[i..];
        assert s[q'] in flag1;
      }
    }
  }

  lemma {:induction false} HoistRuns(bb: Blocks, dep: Deps, s: seq<nat>, i: nat, best: nat, flag1: set<nat>)
    requires WellFormed(bb) && SoundBases(bb) && Covers(bb, dep)
    requires Unscheduled(bb, s, i, flag1) && Hoistable(dep, s, i, best, flag1)
    ensures SameRuns(bb, Move(s, best, i), s)
  {
    var x := s[best];
    UsesAreEarlier(bb, x);
    forall k | i <= k < best
      ensures Independent(bb, x, s[k])
    {
      assert s[k] in flag1 && s[i] <= s[k] < x;
      UsesAreEarlier(bb, s[k]);
    }
    forall env: Env, b: nat, st: State
      ensures Run(bb, env, b, Move(s, best, i), st) == Run(bb, env, b, s, st)
    {
      RunMove(bb, env, b, s, best, i, st);
    }
  }

  /** x has a lower constant offset than y over the same base. */
  predicate Lower(bb: Blocks, x: nat, y: nat)
  {
    ValidRef(bb, x) && ValidRef(bb, y) && SameBase(bb, x, y) && AddrOffset(bb, x) < AddrOffset(bb, y)
  }

  /** Nothing x depends on is in rest. */
  predicate Free(dep: Deps, rest: seq<nat>, x: nat) { forall d :: d in DepsOf(dep, x) ==> d !in rest }

  /** When entry p was chosen from s[p..], no other access of its block that was free to go
      was lower; and it was taken out of program order only to go before a higher one. */
  ghost predicate LowestAt(bb: Blocks, dep: Deps, s: seq<nat>, p: nat)
    requires p < |s|
  {
    && (forall x :: x in s[p..] && RefBB(x) == RefBB(s[p]) && Free(dep, s[p..], x) ==> !Lower(bb, x, s[p]))
    && (forall x :: x in s[p..] && x != s[p] && (forall y :: y in s[p..] ==> x <= y) ==>
          RefBB(x) == RefBB(s[p]) && Lower(bb, s[p], x) && Free(dep, s[p..], s[p]))
  }

  ghost predicate LowestFirst(bb: Blocks, dep: Deps, s: seq<nat>, i: nat)
  {
    forall p: nat :: p < i && p < |s| ==> LowestAt(bb, dep, s, p)
  }

  lemma {:induction false} MoveTail(s: seq<nat>, best: nat, i: nat, p: nat)
    requires p <= i <= best < |s|
    ensures var t := Move(s, best, i); forall x :: x in t[p..] <==> x in s[p..]
    ensures p < i ==> Move(s, best, i)[p] == s[p]
  {
    var t := Move(s, best, i);
    assert t[p..] == s[p..i] + [s[best]] + s[i..best] + s[best + 1..];
    assert s[p..] == s[p..i] + s[i..best] + [s[best]] + s[best + 1..];
  }

  lemma {:induction false} LowestMoved(bb: Blocks, dep: Deps, s: seq<nat>, best: nat, i: nat, p: nat)
    requires p < i <= best < |s| && LowestAt(bb, dep, s, p)
    ensures LowestAt(bb, dep, Move(s, best, i), p)
  {
    var t := Move(s, best, i);
    MoveTail(s, best, i, p);
    assert forall x :: Free(dep, t[p..], x) <==> Free(dep, s[p..], x);
  }

  /** What the selection loop promises of its choice. */
  ghost predicate Best(bb: Blocks, dep: Deps, s: seq<nat>, i: nat, best: nat, flag1: set<nat>)
  {
    && Hoistable(dep, s, i, best, flag1)
    && (forall k :: i <= k < |s| ==> ValidRef(bb, s[k]))
    && (best != i ==> OrderedBefore(bb, s[best], s[i]))
    && (forall j :: i < j < |s| && RefBB(s[j]) == RefBB(s[i]) && (forall d :: d in DepsOf(dep, s[j]) ==> d !in flag1) ==>
          !OrderedBefore(bb, s[j], s[best]))
  }

  lemma {:induction false} LowestChosen(bb: Blocks, dep: Deps, s: seq<nat>, i: nat, best: nat, flag1: set<nat>)
    requires Unscheduled(bb, s, i, flag1) && Best(bb, dep, s, i, best, flag1)
    ensures LowestAt(bb, dep, Move(s, best, i), i)
  {
    var t := Move(s, best, i);
    MoveTail(s, best, i, i);
    assert t[i] == s[best] && RefBB(s[best]) == RefBB(s[i]);
    forall x | x in t[i..] && RefBB(x) == RefBB(t[i]) && Free(dep, t[i..], x)
      ensures !Lower(bb, x, t[i])
    {
      var j :| i <= j < |s| && s[j] == x;
      assert forall d :: d in flag1 <==> d in t[i..];
    }
    forall x | x in t[i..] && x != t[i] && (forall y :: y in t[i..] ==> x <= y)
      ensures RefBB(x) == RefBB(t[i]) && Lower(bb, t[i], x) && Free(dep, t[i..], t[i])
    {
      LeastIsFirst(bb, s, i, flag1, x);
      assert best != i;
    }
  }

  /** What is left is in program order, so its least entry is the first. */
  lemma {:induction false} LeastIsFirst(bb: Blocks, s: seq<nat>, i: nat, flag1: set<nat>, x: nat)
    requires Unscheduled(bb, s, i, flag1) && x in s[i..] && forall y :: y in s[i..] ==> x <= y
    ensures i < |s| && x == s[i]
  {
    var j :| i <= j < |s| && s[j] == x;
    assert s[i..][0] == s[i] && s[i] in s[i..];
    assert x <= s[i];
  }

  ghost predicate Progress(bb: Blocks, dep: Deps, order: seq<nat>, s: seq<nat>, i: nat, flag1: set<nat>)
  {
    && multiset(s) == multiset(order)
    && Unscheduled(bb, s, i, flag1)
    && RespectsDeps(dep, s, i)
    && LowestFirst(bb, dep, s, i)
    && (SoundBases(bb) && Covers(bb, dep) ==> SameRuns(bb, s, order))
  }

  lemma {:induction false} LowestStep(bb: Blocks, dep: Deps, s: seq<nat>, i: nat, best: nat, flag1: set<nat>)
    requires Unscheduled(bb, s, i, flag1) && Best(bb, dep, s, i, best, flag1) && LowestFirst(bb, dep, s, i)
    ensures LowestFirst(bb, dep, Move(s, best, i), i + 1)
  {
    forall p: nat | p < i + 1 && p < |s|
      ensures LowestAt(bb, dep, Move(s, best, i), p)
    {
      if p < i {
        LowestMoved(bb, dep, s, best, i, p);
      } else {
        LowestChosen(bb, dep, s, i, best, flag1);
      }
    }
  }

  lemma {:induction false} ProgressStep(bb: Blocks, dep: Deps, order: seq<nat>, s: seq<nat>, i: nat, best: nat, flag1: set<nat>)
    requires WellFormed(bb) && Progress(bb, dep, order, s, i, flag1) && Best(bb, dep, s, i, best, flag1)
    ensures Progress(bb, dep, order, Move(s, best, i), i + 1, flag1 - {s[best]})
  {
    LowestStep(bb, dep, s, i, best, flag1);
    HoistUnscheduled(bb, s, i, best, flag1);
    HoistRespects(bb, dep, s, i, best, flag1);
    if SoundBases(bb) && Covers(bb, dep) {
      HoistRuns(bb, dep, s, i, best, flag1);
    }
  }

  lemma {:induction false} ProgressEnd(bb: Blocks, dep: Deps, order: seq<nat>, s: seq<nat>, flag1: set<nat>)
    requires Progress(bb, dep, order, s, |s|, flag1)
    ensures flag1 == {}
  {
    assert s[|s|..] == [];
  }

  /** The schedule is a permutation of program order that keeps every recorded
      dependency and, where the weak test may be trusted, the meaning. */
  ghost predicate Schedule(bb: Blocks, dep: Deps, order: seq<nat>, s: seq<nat>)
  {
    && ProgramOrder(bb, order, |bb| * MAX_INSNS)
    && multiset(s) == multiset(order)
    && RespectsDeps(dep, s, |s|)
    && (SoundBases(bb) && Covers(bb, dep) ==> SameRuns(bb, s, order))
  }

  class CucFunc {
    const bb: Blocks
    var dep: Deps
    const msched: array<nat>
    var nmsched: nat
    var flag1: set<nat>  // instructions carrying IT_FLAG1

    constructor (blocks: Blocks, capacity: nat)
      ensures bb == blocks && dep == map[] && nmsched == 0 && flag1 == {}
      ensures fresh(msched) && msched.Length == capacity
    {
      bb, dep, nmsched, flag1 := blocks, map[], 0, {};
      msched := new nat[capacity];
    }

    /** `add_memory_dep` under MO_WEAK. */
    method AddMemoryDep()
      requires WellFormed(bb)
      modifies this`dep
      ensures ConflictsListed(bb, old(dep), dep, |bb| * MAX_INSNS)
    {
      var allMem: seq<nat> := [];
      for b := 0 to |bb|
        invariant Listed(bb, old(dep), dep, allMem, b * MAX_INSNS)
      {
        allMem := AddBlockConflicts(b, allMem, old(dep));
      }
    }

    method AddBlockConflicts(b: nat, allMem: seq<nat>, ghost before: Deps) returns (all: seq<nat>)
      requires WellFormed(bb) && b < |bb| && Listed(bb, before, dep, allMem, b * MAX_INSNS)
      modifies this`dep
      ensures Listed(bb, before, dep, all, (b + 1) * MAX_INSNS)
    {
      all := allMem;
      ghost var r := b * MAX_INSNS;
      for i := 0 to |bb[b]|
        invariant r == b * MAX_INSNS + i && Listed(bb, before, dep, all, r)
      {
        all := AddInsnConflicts(b, i, all, before);
        r := r + 1;
      }
      NoAccessBetween(bb, b, all, before, dep);
    }

    method AddInsnConflicts(b: nat, i: nat, allMem: seq<nat>, ghost before: Deps) returns (all: seq<nat>)
      requires WellFormed(bb) && b < |bb| && i < |bb[b]| && Listed(bb, before, dep, allMem, b * MAX_INSNS + i)
      modifies this`dep
      ensures Listed(bb, before, dep, all, b * MAX_INSNS + i + 1)
    {
      all := allMem;
      var r := b * MAX_INSNS + i;
      RefParts(b, i);
      ghost var mid := dep;
      if Memory in bb[b][i].typ {
        AddConflicts(r, allMem);
        all := AddDep(allMem, r);
      }
      NextConflicts(bb, before, mid, dep, r);
    }

    method AddConflicts(r: nat, allMem: seq<nat>)
      requires ValidRef(bb, r) && forall d :: d in allMem ==> ValidRef(bb, d)
      modifies this`dep
      ensures forall d :: d in DepsOf(dep, r) <==> d in old(DepsOf(dep, r)) || (d in allMem && WeakConflict(bb, r, d))
      ensures forall q :: q != r ==> DepsOf(dep, q) == old(DepsOf(dep, q))
    {
      for t := 0 to |allMem|
        invariant forall d :: d in DepsOf(dep, r) <==> d in old(DepsOf(dep, r)) || (d in allMem[..t] && WeakConflict(bb, r, d))
        invariant forall q :: q != r ==> DepsOf(dep, q) == old(DepsOf(dep, q))
      {
        if WeakConflict(bb, r, allMem[t]) {
          dep := dep[r := AddDep(DepsOf(dep, r), allMem[t])];
        }
      }
      assert allMem[..|allMem|] == allMem;
    }

    /** `add_data_dep` */
    method AddDataDep()
      requires WellFormed(bb)
      modifies this`dep
      ensures DataListed(bb, old(dep), dep, |bb| * MAX_INSNS)
    {
      for b := 0 to |bb|
        invariant DataListed(bb, old(dep), dep, b * MAX_INSNS)
      {
        for i := 0 to |bb[b]|
          invariant DataListed(bb, old(dep), dep, b * MAX_INSNS + i)
        {
          AddInsnDataDep(b, i, old(dep));
        }
        NoInsnBetween(bb, b, old(dep), dep);
      }
    }

    method AddInsnDataDep(b: nat, i: nat, ghost before: Deps)
      requires WellFormed(bb) && b < |bb| && i < |bb[b]|
      requires DataListed(bb, before, dep, b * MAX_INSNS + i)
      modifies this`dep
      ensures DataListed(bb, before, dep, b * MAX_INSNS + i + 1)
    {
      var r := b * MAX_INSNS + i;
      RefParts(b, i);
      ghost var d0 := dep;
      AddOperandDep(r, bb[b][i].op0);
      AddOperandDep(r, bb[b][i].op1);
      AddOperandDep(r, bb[b][i].op2);
      AddOperandDep(r, bb[b][i].op3);
      NextData(bb, before, d0, dep, r);
    }

    method AddOperandDep(r: nat, o: Operand)
      modifies this`dep
      ensures forall q: nat :: q != r ==> DepsOf(dep, q) == old(DepsOf(dep, q))
      ensures forall d: nat :: d in DepsOf(dep, r) <==> d in old(DepsOf(dep, r)) || FromOperand(old(dep), old(dep), r, o, d)
    {
      if o.Ref? {
        var l := DepsOf(dep, o.ref);
        for k := 0 to |l|
          invariant forall q: nat :: q != r ==> DepsOf(dep, q) == old(DepsOf(dep, q))
          invariant forall d :: d in DepsOf(dep, r) <==> d in old(DepsOf(dep, r)) || d in l[..k]
        {
          dep := dep[r := AddDep(DepsOf(dep, r), l[k])];
        }
        dep := dep[r := AddDep(DepsOf(dep, r), o.ref)];
      }
    }

    /** The collecting loop of `schedule_memory`. */
    method CollectAccesses(reorder: bool)
      requires WellFormed(bb) && flag1 == {} && Size(bb) <= msched.Length
      modifies this`nmsched, this`flag1, msched
      ensures nmsched <= msched.Length && ProgramOrder(bb, msched[..nmsched], |bb| * MAX_INSNS)
      ensures flag1 == if reorder then set r | r in msched[..nmsched] else {}
    {
      nmsched := 0;
      for b := 0 to |bb|
        invariant nmsched <= Size(bb[..b]) && nmsched <= msched.Length
        invariant ProgramOrder(bb, msched[..nmsched], b * MAX_INSNS)
        invariant flag1 == if reorder then set r | r in msched[..nmsched] else {}
      {
        SizeStep(bb, b);
        for i := 0 to |bb[b]|
          invariant nmsched <= Size(bb[..b]) + i && nmsched <= msched.Length
          invariant ProgramOrder(bb, msched[..nmsched], b * MAX_INSNS + i)
          invariant flag1 == if reorder then set r | r in msched[..nmsched] else {}
        {
          CollectInsn(b, i, reorder);
        }
        NoEntryBetween(bb, b, msched[..nmsched]);
      }
    }

    method CollectInsn(b: nat, i: nat, reorder: bool)
      requires WellFormed(bb) && b < |bb| && i < |bb[b]| && nmsched < msched.Length
      requires ProgramOrder(bb, msched[..nmsched], b * MAX_INSNS + i)
      requires flag1 == if reorder then set r | r in msched[..nmsched] else {}
      modifies this`nmsched, this`flag1, msched
      ensures nmsched <= old(nmsched) + 1 <= msched.Length
      ensures ProgramOrder(bb, msched[..nmsched], b * MAX_INSNS + i + 1)
      ensures flag1 == if reorder then set r | r in msched[..nmsched] else {}
    {
      RefParts(b, i);
      if Memory in bb[b][i].typ {
        ghost var before := msched[..nmsched];
        msched[nmsched] := b * MAX_INSNS + i;
        nmsched := nmsched + 1;
        assert msched[..nmsched] == before + [b * MAX_INSNS + i];
        AppendEntry(bb, before, b * MAX_INSNS + i);
        if reorder {
          flag1 := flag1 + {b * MAX_INSNS + i};
        }
      }
    }

    predicate Eligible(x: nat)
      reads this
    {
      forall d | d in DepsOf(dep, x) :: d !in flag1
    }

    /** The inner selection loop: a hoistable access of the same block that no
        other eligible one precedes in address order. */
    method FindBest(i: nat) returns (best: nat)
      requires i < nmsched <= msched.Length
      requires forall k :: i <= k < nmsched ==> ValidRef(bb, msched[k])
      ensures Hoistable(dep, msched[..nmsched], i, best, flag1)
      ensures best != i ==> OrderedBefore(bb, msched[best], msched[i])
      ensures forall j :: i < j < nmsched && RefBB(msched[j]) == RefBB(msched[i]) && Eligible(msched[j]) ==>
                !OrderedBefore(bb, msched[j], msched[best])
    {
      best := i;
      for j := i + 1 to nmsched
        invariant Hoistable(dep, msched[..nmsched], i, best, flag1)
        invariant best != i ==> OrderedBefore(bb, msched[best], msched[i])
        invariant forall k :: i < k < j && RefBB(msched[k]) == RefBB(msched[i]) && Eligible(msched[k]) ==>
                !OrderedBefore(bb, msched[k], msched[best])
      {
        if RefBB(msched[j]) == RefBB(msched[best]) && OrderedBefore(bb, msched[j], msched[best]) && Eligible(msched[j]) {
          best := j;
        }
      }
    }

    /** The inner shifting loop. */
    method Hoist(best: nat, i: nat)
      requires i <= best < nmsched <= msched.Length
      modifies msched
      ensures msched[..nmsched] == Move(old(msched[..nmsched]), best, i)
      ensures msched[i] == old(msched[..nmsched])[best]
    {
      var tmp := msched[best];
      var j := best;
      while j > i
        invariant i <= j <= best
        invariant forall k :: 0 <= k < msched.Length ==>
                msched[k] == if j < k <= best then old(msched[k - 1]) else old(msched[k])
      {
        msched[j] := msched[j - 1];
        j := j - 1;
      }
      msched[i] := tmp;
      MoveSource(old(msched[..nmsched]), best, i);
    }

    /** The reordering loop of `schedule_memory`. */
    method Reorder()
      requires WellFormed(bb) && nmsched <= msched.Length
      requires Unscheduled(bb, msched[..nmsched], 0, flag1)
      modifies msched, this`flag1
      ensures flag1 == {}
      ensures multiset(msched[..nmsched]) == multiset(old(msched[..nmsched]))
      ensures RespectsDeps(dep, msched[..nmsched], nmsched) && LowestFirst(bb, dep, msched[..nmsched], nmsched)
      ensures SoundBases(bb) && Covers(bb, dep) ==> SameRuns(bb, msched[..nmsched], old(msched[..nmsched]))
    {
      ghost var order := msched[..nmsched];
      for i := 0 to nmsched
        invariant Progress(bb, dep, order, msched[..nmsched], i, flag1)
      {
        ScheduleNext(i, order);
      }
      ProgressEnd(bb, dep, order, msched[..nmsched], flag1);
    }

    /** The same, on the schedule as a value. */
    method ChooseBest(i: nat) returns (best: nat)
      requires i < nmsched <= msched.Length
      requires forall k :: i <= k < nmsched ==> ValidRef(bb, msched[..nmsched][k])
      ensures Best(bb, dep, msched[..nmsched], i, best, flag1)
    {
      ghost var s := msched[..nmsched];
      assert forall k :: i <= k < nmsched ==> msched[k] == s[k];
      best := FindBest(i);
    }

    method ScheduleNext(i: nat, ghost order: seq<nat>)
      requires WellFormed(bb) && i < nmsched <= msched.Length
      requires Progress(bb, dep, order, msched[..nmsched], i, flag1)
      modifies msched, this`flag1
      ensures Progress(bb, dep, order, msched[..nmsched], i + 1, flag1)
    {
      ghost var s := msched[..nmsched];
      var best := ChooseBest(i);
      Hoist(best, i);
      ProgressStep(bb, dep, order, s, i, best, flag1);
      flag1 := flag1 - {msched[i]};
    }

    /** `schedule_memory` up to the assignment of memory types; only MO_WEAK and
        MO_NONE reorder. */
    method ScheduleMemory(reorder: bool)
      requires WellFormed(bb) && flag1 == {} && Size(bb) <= msched.Length
      modifies this`nmsched, this`flag1, msched
      ensures flag1 == {} && nmsched <= msched.Length
      ensures exists order :: Schedule(bb, dep, order, msched[..nmsched])
      ensures if reorder then LowestFirst(bb, dep, msched[..nmsched], nmsched)
              else ProgramOrder(bb, msched[..nmsched], |bb| * MAX_INSNS)
    {
      CollectAccesses(reorder);
      ghost var order := msched[..nmsched];
      if reorder {
        Reorder();
      }
      assert Schedule(bb, dep, order, msched[..nmsched]);
    }

    /** The memory part of one `cuc_optimize` round under MO_WEAK, from clean
        dependency lists. */
    method ScheduleWeak()
      requires WellFormed(bb) && dep == map[] && flag1 == {} && Size(bb) <= msched.Length
      modifies this`dep, this`nmsched, this`flag1, msched
      ensures nmsched <= msched.Length && Covers(bb, dep)
      ensures exists order :: Schedule(bb, dep, order, msched[..nmsched])
      ensures LowestFirst(bb, dep, msched[..nmsched], nmsched)
    {
      AddMemoryDep();
      ghost var d1 := dep;
      AddDataDep();
      PassesCover(bb, map[], d1, dep);
      ScheduleMemory(true);
    }
  }
}
