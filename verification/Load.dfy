/** Lowering of OpenRISC code for the Custom Unit Compiler (cuc/load.c): delay-slot
    removal, splitting of memory operations and of signed compares, all by
    expanding the instruction array in place, from the top, with relocation. */
module Lowering {
  import opened Words
  import opened ByteMemory
  import opened CucInsn

  type Program = seq<Insn>

  // ---------------------------------------------------------------- meaning

  /** vals holds the latest result of each instruction, which references read. */
  datatype State = State(regs: map<int, Word>, mem: Memory, vals: map<nat, Word>, pc: nat)

  function Get<K>(m: map<K, Word>, k: K): Word { if k in m then m[k] else 0 }

  function OpVal(s: State, o: Operand): Word
  {
    match o
    case Const(c) => c
    case Register(r) => Get(s.regs, r)
    case Ref(q) => Get(s.vals, q)
    case _ => 0
  }

  function SetDest(s: State, o: Operand, v: Word): State
  {
    if o.Dest? && o.d >= 0 then s.(regs := s.regs[o.d := v]) else s
  }

  /** Before `expand_memory` a store is `op0(op1), op2`, after it `(op1), op0`. */
  function StoreAddr(s: State, i: Insn): Word
  {
    if i.op2.NoOp? then OpVal(s, i.op1) else (OpVal(s, i.op0) + OpVal(s, i.op1)) % WORD
  }

  function StoreData(s: State, i: Insn): Word
  {
    if i.op2.NoOp? then OpVal(s, i.op0) else OpVal(s, i.op2)
  }

  predicate Produces(i: Insn) { !i.index.Nop? && !IsStore(i.index) }

  function Result(alu: Alu, s: State, i: Insn): Word
  {
    if IsLoad(i.index) then
      Extend(Read(s.mem, (OpVal(s, i.op1) + OpVal(s, i.op2)) % WORD, Width(i.index)), Signed in i.typ)
    else Compute(alu, i.index, Signed in i.typ, OpVal(s, i.op1), OpVal(s, i.op2), OpVal(s, i.op3))
  }

  /** The effect of a non-branch instruction, apart from the program counter. */
  function Exec(alu: Alu, s: State, k: nat, i: Insn): State
  {
    Apply(s, k, i, Result(alu, s, i), StoreAddr(s, i), StoreData(s, i))
  }

  function Apply(s: State, k: nat, i: Insn, v: Word, addr: Word, data: Word): State
  {
    if Produces(i) then SetDest(s, i.op0, v).(vals := s.vals[k := v])
    else if IsStore(i.index) then s.(mem := Write(s.mem, addr, Width(i.index), data))
    else s
  }

  predicate IsBranch(i: Insn) { Branch in i.typ }

  /** A branch on the flag register is negated by Flag1 (l.bnf); a branch on a
      reference or a constant is not. */
  predicate Taken(s: State, i: Insn)
  {
    (OpVal(s, i.op1) != 0) != (i.op1.Register? && Flag1 in i.typ)
  }

  function Target(i: Insn): nat { if i.op0.Jump? then i.op0.target else 0 }

  /** One step of code without delay slots; running off the end halts. */
  function Step(alu: Alu, p: Program, s: State): State
  {
    if s.pc >= |p| then s
    else if IsBranch(p[s.pc]) then s.(pc := if Taken(s, p[s.pc]) then Target(p[s.pc]) else s.pc + 1)
    else Exec(alu, s, s.pc, p[s.pc]).(pc := s.pc + 1)
  }

  function Run(alu: Alu, p: Program, s: State, n: nat): State
    decreases n
  {
    if n == 0 then s else Run(alu, p, Step(alu, p, s), n - 1)
  }

  /** One step of the original code: a branch decides, its delay slot executes, and
      only then control moves. */
  function DelayStep(alu: Alu, p: Program, s: State): State
  {
    if s.pc >= |p| then s
    else if IsBranch(p[s.pc]) && s.pc + 1 < |p| then
      Exec(alu, s, s.pc + 1, p[s.pc + 1]).(pc := if Taken(s, p[s.pc]) then Target(p[s.pc]) else s.pc + 2)
    else Exec(alu, s, s.pc, p[s.pc]).(pc := s.pc + 1)
  }

  function DelayRun(alu: Alu, p: Program, s: State, n: nat): State
    decreases n
  {
    if n == 0 then s else DelayRun(alu, p, DelayStep(alu, p, s), n - 1)
  }

  // ------------------------------------------------------------- expansion

  /** `expand_branch`, `expand_memory`, `expand_signed`: one loop skeleton, different
      groups and a different relocation guard. */
  datatype Pass = Branches | MemoryOps | SignedOps

  predicate Expands(pass: Pass, i: Insn)
  {
    match pass
    case Branches => Branch in i.typ
    case MemoryOps => Memory in i.typ
    case SignedOps => Signed in i.typ && Memory !in i.typ
  }

  function GroupSize(pass: Pass, i: Insn): (n: nat)
    ensures 1 <= n <= 3
  {
    if !Expands(pass, i) then 1 else if pass.MemoryOps? then 2 else 3
  }

  /** The instructions that replace instruction k, written from index d on, before
      relocation. */
  function RawGroup(pass: Pass, i: Insn, k: nat, d: nat): (g: seq<Insn>)
    ensures |g| == GroupSize(pass, i)
  {
    if !Expands(pass, i) then [i]
    else match pass
      case Branches =>
        var neg := Flag1 in i.typ;
        [Insn(Cmov, {Cond}, Dest(-1), Const(if neg then 0 else 1), Const(if neg then 1 else 0), Register(FLAG_REG)),
         NOP,
         if i.op1.Register? then i.(op1 := Ref(k)) else i]
      case MemoryOps =>
        var typ := i.typ * {InDelay, BBStart} + {MemAdd};
        if IsStore(i.index) then
          [Insn(Add, typ, Dest(-1), i.op1, i.op0, NoOp),
           Insn(i.index, i.typ - {BBStart}, i.op2, Ref(d), NoOp, i.op3)]
        else
          [Insn(Add, typ, Dest(-1), i.op1, i.op2, i.op3),
           Insn(i.index, i.typ - {BBStart}, i.op0, Ref(d), NoOp, NoOp)]
      case SignedOps =>
        [Insn(Add, {}, Dest(-1), i.op1, Const(0x8000_0000), NoOp),
         Insn(Add, {}, Dest(-1), i.op2, Const(0x8000_0000), NoOp),
         i.(op1 := Ref(d), op2 := Ref(d + 1))]
  }

  /** reloc[k]: where the group of instruction k starts. */
  function Reloc(pass: Pass, p: Program, k: nat): (d: nat)
    requires k <= |p|
    ensures d >= k
  {
    if k == 0 then 0 else Reloc(pass, p, k - 1) + GroupSize(pass, p[k - 1])
  }

  function RelocOp(pass: Pass, p: Program, o: Operand): Operand
  {
    if o.Ref? && o.ref <= |p| then Ref(Reloc(pass, p, o.ref))
    else if o.Jump? && o.target <= |p| then Jump(Reloc(pass, p, o.target))
    else o
  }

  /** The second loop's treatment of one instruction. */
  function Finish(pass: Pass, p: Program, i: Insn): Insn
  {
    if pass.MemoryOps? && Memory in i.typ then i
    else if pass.SignedOps? && Memory !in i.typ && Signed in i.typ then i.(typ := i.typ - {Signed})
    else Insn(i.index, i.typ, RelocOp(pass, p, i.op0), RelocOp(pass, p, i.op1),
              RelocOp(pass, p, i.op2), RelocOp(pass, p, i.op3))
  }

  function Group(pass: Pass, p: Program, k: nat): (g: seq<Insn>)
    requires k < |p|
    ensures |g| == GroupSize(pass, p[k])
  {
    var raw := RawGroup(pass, p[k], k, Reloc(pass, p, k));
    seq(|raw|, j requires 0 <= j < |raw| => Finish(pass, p, raw[j]))
  }

  /** The groups of the instructions below k. */
  function Expanded(pass: Pass, p: Program, k: nat): (q: Program)
    requires k <= |p|
    ensures |q| == Reloc(pass, p, k)
  {
    if k == 0 then [] else Expanded(pass, p, k - 1) + Group(pass, p, k - 1)
  }

  lemma {:induction false} RelocMonotone(pass: Pass, p: Program, j: nat, k: nat)
    requires j < k <= |p|
    ensures Reloc(pass, p, j) + GroupSize(pass, p[j]) <= Reloc(pass, p, k)
    decreases k
  {
    if j < k - 1 {
      RelocMonotone(pass, p, j, k - 1);
    }
  }

  /** Element j of group k sits at reloc[k] + j. */
  lemma {:induction false} GroupAt(pass: Pass, p: Program, k: nat, n: nat, j: nat)
    requires k < n <= |p| && j < GroupSize(pass, p[k])
    ensures Reloc(pass, p, k) + j < Reloc(pass, p, n)
    ensures Expanded(pass, p, n)[Reloc(pass, p, k) + j] == Group(pass, p, k)[j]
    decreases n
  {
    if k < n - 1 {
      GroupAt(pass, p, k, n - 1, j);
      AppendAt(Expanded(pass, p, n - 1), Group(pass, p, n - 1), Reloc(pass, p, k) + j);
    } else {
      AppendAt(Expanded(pass, p, n - 1), Group(pass, p, n - 1), Reloc(pass, p, k) + j);
    }
  }

  /** An instruction the pass does not expand is only relocated. */
  lemma {:induction false} WholeGroup(pass: Pass, p: Program, k: nat)
    requires k < |p| && !Expands(pass, p[k])
    ensures var d, q := Reloc(pass, p, k), Expanded(pass, p, |p|);
            d < |q| && q[d] == Finish(pass, p, p[k]) && d + 1 == Reloc(pass, p, k + 1)
  {
    assert RawGroup(pass, p[k], k, Reloc(pass, p, k)) == [p[k]];
    assert Group(pass, p, k)[0] == Finish(pass, p, p[k]);
    GroupAt(pass, p, k, |p|, 0);
  }

  lemma {:induction false} AppendAt(e: Program, g: Program, x: nat)
    requires x < |e| + |g|
    ensures (e + g)[x] == if x < |e| then e[x] else g[x - |e|]
  {
  }

  // ------------------------------------------- simulation by the expanded code

  predicate OperandOk(pass: Pass, p: Program, o: Operand)
  {
    (o.Ref? ==> o.ref < |p| && !Expands(pass, p[o.ref])) && (o.Jump? ==> o.target < |p|)
  }

  predicate Plain(o: Operand) { !o.Ref? && !o.Jump? }

  predicate InsnOk(pass: Pass, p: Program, i: Insn)
  {
    && OperandOk(pass, p, i.op0) && OperandOk(pass, p, i.op1) && OperandOk(pass, p, i.op2) && OperandOk(pass, p, i.op3)
    && (IsBranch(i) ==> i.op0.Jump? && Memory !in i.typ && Signed !in i.typ)
    && (Memory in i.typ <==> IsLoad(i.index) || IsStore(i.index))
    && (pass.MemoryOps? && Memory in i.typ ==>
          Plain(i.op0) && Plain(i.op1) && Plain(i.op2) && Plain(i.op3) && (IsStore(i.index) ==> !i.op2.NoOp?))
    && (Signed in i.typ && Memory !in i.typ ==> IsCompare(i.index))
  }

  /** What `expand_memory` and `expand_signed` rely on; in particular references name
      only instructions that the pass leaves whole, since a reference is relocated
      to the start of a group. */
  predicate Lowerable(pass: Pass, p: Program)
  {
    !pass.Branches? && forall k :: 0 <= k < |p| ==> InsnOk(pass, p, p[k])
  }

  ghost predicate Rel(pass: Pass, p: Program, s: State, t: State)
  {
    && s.pc <= |p| && t.pc == Reloc(pass, p, s.pc) && t.regs == s.regs && t.mem == s.mem
    && ValsAgree(pass, p, s.vals, t.vals)
  }

  ghost predicate ValsAgree(pass: Pass, p: Program, v: map<nat, Word>, w: map<nat, Word>)
  {
    forall k: nat :: ValAgrees(pass, p, v, w, k)
  }

  ghost predicate ValAgrees(pass: Pass, p: Program, v: map<nat, Word>, w: map<nat, Word>, k: nat)
  {
    k < |p| && !Expands(pass, p[k]) ==> Get(w, Reloc(pass, p, k)) == Get(v, k)
  }

  lemma {:induction false} OperandRelocated(pass: Pass, p: Program, s: State, t: State, o: Operand)
    requires t.regs == s.regs && ValsAgree(pass, p, s.vals, t.vals) && OperandOk(pass, p, o)
    ensures OpVal(t, RelocOp(pass, p, o)) == OpVal(s, o)
  {
    if o.Ref? {
      assert ValAgrees(pass, p, s.vals, t.vals, o.ref);
    }
  }

  lemma {:induction false} RelocOutside(pass: Pass, p: Program, j: nat, k: nat)
    requires j < |p| && k < |p| && j != k
    ensures !(Reloc(pass, p, k) <= Reloc(pass, p, j) < Reloc(pass, p, k) + GroupSize(pass, p[k]))
  {
    if j < k {
      RelocMonotone(pass, p, j, k);
    } else {
      RelocMonotone(pass, p, k, j);
    }
  }

  /** v and w are the results before and after a step of instruction k and a run of
      its group, which write only their own entries. */
  ghost predicate OwnEntries(pass: Pass, p: Program, k: nat, v: map<nat, Word>, v': map<nat, Word>,
                             w: map<nat, Word>, w': map<nat, Word>)
    requires k < |p|
  {
    && (forall j: nat :: j != k ==> Get(v', j) == Get(v, j))
    && (forall j: nat :: !(Reloc(pass, p, k) <= j < Reloc(pass, p, k) + GroupSize(pass, p[k])) ==> Get(w', j) == Get(w, j))
    && (!Expands(pass, p[k]) ==> Get(w', Reloc(pass, p, k)) == Get(v', k))
  }

  lemma {:induction false} ValsKept(pass: Pass, p: Program, k: nat, v: map<nat, Word>, v': map<nat, Word>,
                 w: map<nat, Word>, w': map<nat, Word>)
    requires k < |p| && ValsAgree(pass, p, v, w) && OwnEntries(pass, p, k, v, v', w, w')
    ensures ValsAgree(pass, p, v', w')
  {
    forall j: nat
      ensures ValAgrees(pass, p, v', w', j)
    {
      assert ValAgrees(pass, p, v, w, j);
      if j < |p| && j != k {
        RelocOutside(pass, p, j, k);
      }
    }
  }

  lemma {:induction false} RunTwo(alu: Alu, q: Program, t: State, u: State)
    requires u == Step(alu, q, t)
    ensures Run(alu, q, t, 2) == Step(alu, q, u)
  {
    RunOne(alu, q, t);
  }

  lemma {:induction false} RunOne(alu: Alu, q: Program, t: State)
    ensures Run(alu, q, t, 1) == Step(alu, q, t)
    ensures Run(alu, q, t, 2) == Step(alu, q, Step(alu, q, t))
    ensures Run(alu, q, t, 3) == Step(alu, q, Step(alu, q, Step(alu, q, t)))
  {
    var u := Step(alu, q, t);
    assert Run(alu, q, u, 1) == Run(alu, q, Step(alu, q, u), 0);
    assert Run(alu, q, u, 2) == Run(alu, q, Step(alu, q, u), 1);
    var w := Step(alu, q, u);
    assert Run(alu, q, w, 1) == Run(alu, q, Step(alu, q, w), 0);
  }

  lemma {:induction false} ResultRelocated(alu: Alu, pass: Pass, p: Program, s: State, t: State, i: Insn)
    requires t.regs == s.regs && t.mem == s.mem && ValsAgree(pass, p, s.vals, t.vals)
    requires InsnOk(pass, p, i) && !Expands(pass, i)
    ensures var f := Finish(pass, p, i);
            && Result(alu, t, f) == Result(alu, s, i)
            && StoreAddr(t, f) == StoreAddr(s, i) && StoreData(t, f) == StoreData(s, i)
            && Taken(t, f) == Taken(s, i)
  {
    OperandRelocated(pass, p, s, t, i.op0);
    OperandRelocated(pass, p, s, t, i.op1);
    OperandRelocated(pass, p, s, t, i.op2);
    OperandRelocated(pass, p, s, t, i.op3);
  }

  /** The relation carries over once the program counters do. */
  lemma {:induction false} RelAfter(pass: Pass, p: Program, k: nat, s: State, t: State, v: map<nat, Word>, w: map<nat, Word>)
    requires k < |p| && ValsAgree(pass, p, s.vals, t.vals)
    requires v == s.vals[k := Get(v, k)] || v == s.vals
    requires forall j: nat :: !(Reloc(pass, p, k) <= j < Reloc(pass, p, k) + GroupSize(pass, p[k])) ==> Get(w, j) == Get(t.vals, j)
    requires !Expands(pass, p[k]) ==> Get(w, Reloc(pass, p, k)) == Get(v, k)
    ensures ValsAgree(pass, p, v, w)
  {
    ValsKept(pass, p, k, s.vals, v, t.vals, w);
  }

  lemma {:induction false} BranchStepAt(alu: Alu, pass: Pass, p: Program, q: Program, s: State, t: State)
    requires s.pc < |p| && InsnOk(pass, p, p[s.pc]) && Rel(pass, p, s, t) && t.pc < |q|
    requires IsBranch(p[s.pc]) && q[t.pc] == Finish(pass, p, p[s.pc]) && t.pc + 1 == Reloc(pass, p, s.pc + 1)
    requires !pass.Branches? && Taken(t, q[t.pc]) == Taken(s, p[s.pc])
    ensures Rel(pass, p, Step(alu, p, s), Step(alu, q, t))
  {
  }

  lemma {:induction false} BranchStep(alu: Alu, pass: Pass, p: Program, s: State, t: State)
    requires Lowerable(pass, p) && Rel(pass, p, s, t) && s.pc < |p| && IsBranch(p[s.pc])
    ensures Rel(pass, p, Step(alu, p, s), Step(alu, Expanded(pass, p, |p|), t))
  {
    assert InsnOk(pass, p, p[s.pc]);
    GroupAt(pass, p, s.pc, |p|, 0);
    ResultRelocated(alu, pass, p, s, t, p[s.pc]);
    BranchStepAt(alu, pass, p, Expanded(pass, p, |p|), s, t);
  }

  lemma {:induction false} ApplyRelated(pass: Pass, p: Program, s: State, t: State, k: nat, i: Insn, v: Word, addr: Word, data: Word)
    requires k < |p| && i == p[k] && !Expands(pass, i) && InsnOk(pass, p, i)
    requires t.regs == s.regs && t.mem == s.mem && ValsAgree(pass, p, s.vals, t.vals)
    ensures var u, w := Apply(s, k, i, v, addr, data), Apply(t, Reloc(pass, p, k), Finish(pass, p, i), v, addr, data);
            w.regs == u.regs && w.mem == u.mem && ValsAgree(pass, p, u.vals, w.vals)
  {
    if Produces(i) {
      RelAfter(pass, p, k, s, t, s.vals[k := v], t.vals[Reloc(pass, p, k) := v]);
    }
  }

  lemma {:induction false} PlainStep(alu: Alu, p: Program, s: State)
    requires s.pc < |p| && !IsBranch(p[s.pc])
    ensures var i := p[s.pc];
            Step(alu, p, s) == Apply(s, s.pc, i, Result(alu, s, i), StoreAddr(s, i), StoreData(s, i)).(pc := s.pc + 1)
  {
  }

  lemma {:induction false} WholeStepAt(alu: Alu, pass: Pass, p: Program, q: Program, s: State, t: State)
    requires s.pc < |p| && InsnOk(pass, p, p[s.pc]) && Rel(pass, p, s, t) && t.pc < |q|
    requires !Expands(pass, p[s.pc]) && !IsBranch(p[s.pc]) && q[t.pc] == Finish(pass, p, p[s.pc])
    ensures Rel(pass, p, Step(alu, p, s), Step(alu, q, t))
  {
    var i := p[s.pc];
    PlainStep(alu, p, s);
    PlainStep(alu, q, t);
    ResultRelocated(alu, pass, p, s, t, i);
    ApplyRelated(pass, p, s, t, s.pc, i, Result(alu, s, i), StoreAddr(s, i), StoreData(s, i));
  }

  lemma {:induction false} WholeStep(alu: Alu, pass: Pass, p: Program, s: State, t: State)
    requires Lowerable(pass, p) && Rel(pass, p, s, t) && s.pc < |p|
    requires !Expands(pass, p[s.pc]) && !IsBranch(p[s.pc])
    ensures Rel(pass, p, Step(alu, p, s), Step(alu, Expanded(pass, p, |p|), t))
  {
    assert InsnOk(pass, p, p[s.pc]);
    GroupAt(pass, p, s.pc, |p|, 0);
    WholeStepAt(alu, pass, p, Expanded(pass, p, |p|), s, t);
  }

  /** An add whose result only references can see. */
  lemma {:induction false} AddStep(alu: Alu, q: Program, t: State)
    requires t.pc < |q| && q[t.pc].index.Add? && !IsBranch(q[t.pc]) && q[t.pc].op0 == Dest(-1)
    ensures Step(alu, q, t) ==
            t.(vals := t.vals[t.pc := (OpVal(t, q[t.pc].op1) + OpVal(t, q[t.pc].op2)) % WORD], pc := t.pc + 1)
  {
  }

  lemma {:induction false} MemoryGroup(p: Program, k: nat)
    requires Lowerable(MemoryOps, p) && k < |p| && Memory in p[k].typ
    ensures var d, q := Reloc(MemoryOps, p, k), Expanded(MemoryOps, p, |p|);
            d + 2 == Reloc(MemoryOps, p, k + 1) && SplitAt(q, d, p[k])
  {
    assert InsnOk(MemoryOps, p, p[k]);
    GroupAt(MemoryOps, p, k, |p|, 0);
    GroupAt(MemoryOps, p, k, |p|, 1);
  }

  lemma {:induction false} SplitLoad(alu: Alu, s: State, t: State, i: Insn, d: nat)
    requires IsLoad(i.index) && t.mem == s.mem
    requires Get(t.vals, d) == (OpVal(s, i.op1) + OpVal(s, i.op2)) % WORD
    ensures Result(alu, t, Insn(i.index, i.typ - {BBStart}, i.op0, Ref(d), NoOp, NoOp)) == Result(alu, s, i)
  {
    var a := (OpVal(s, i.op1) + OpVal(s, i.op2)) % WORD;
    assert (a + 0) % WORD == a;
  }

  lemma {:induction false} SplitStore(alu: Alu, s: State, t: State, i: Insn, d: nat)
    requires IsStore(i.index) && t.regs == s.regs && Plain(i.op2) && !i.op2.NoOp?
    requires Get(t.vals, d) == (OpVal(s, i.op0) + OpVal(s, i.op1)) % WORD
    ensures var j := Insn(i.index, i.typ - {BBStart}, i.op2, Ref(d), NoOp, i.op3);
            StoreAddr(t, j) == StoreAddr(s, i) && StoreData(t, j) == StoreData(s, i)
  {
  }

  function SplitAddr(s: State, i: Insn): Word
  {
    if IsStore(i.index) then StoreAddr(s, i) else (OpVal(s, i.op1) + OpVal(s, i.op2)) % WORD
  }

  /** q[d..d + 2] is the split form of i. */
  predicate SplitAt(q: Program, d: nat, i: Insn)
  {
    && d + 1 < |q| && !IsBranch(q[d]) && !IsBranch(q[d + 1])
    && q[d].index.Add? && q[d].op0 == Dest(-1) && q[d].op1 == i.op1
    && q[d].op2 == (if IsStore(i.index) then i.op0 else i.op2)
    && q[d + 1] == (if IsStore(i.index) then Insn(i.index, i.typ - {BBStart}, i.op2, Ref(d), NoOp, i.op3)
                    else Insn(i.index, i.typ - {BBStart}, i.op0, Ref(d), NoOp, NoOp))
  }

  lemma {:induction false} SplitSecond(alu: Alu, q: Program, s: State, t: State, d: nat, i: Insn)
    requires SplitAt(q, d, i) && t.pc == d + 1 && t.regs == s.regs && t.mem == s.mem
    requires IsLoad(i.index) || (IsStore(i.index) && Plain(i.op2) && !i.op2.NoOp?)
    requires Get(t.vals, d) == SplitAddr(s, i)
    ensures Step(alu, q, t) ==
            Apply(t, d + 1, q[d + 1], Result(alu, s, i), StoreAddr(s, i), StoreData(s, i)).(pc := d + 2)
  {
    if IsStore(i.index) {
      SplitStore(alu, s, t, i, d);
    } else {
      SplitLoad(alu, s, t, i, d);
    }
  }

  lemma {:induction false} SplitFirst(alu: Alu, q: Program, s: State, t: State, i: Insn)
    requires SplitAt(q, t.pc, i) && t.regs == s.regs
    requires Plain(i.op0) && Plain(i.op1) && Plain(i.op2) && (IsStore(i.index) ==> !i.op2.NoOp?)
    ensures Step(alu, q, t) == t.(vals := t.vals[t.pc := SplitAddr(s, i)], pc := t.pc + 1)
  {
    AddStep(alu, q, t);
  }

  lemma {:induction false} SplitRelated(p: Program, s: State, t: State, t1: State, k: nat, j: Insn, v: Word, addr: Word, data: Word)
    requires k < |p| && Expands(MemoryOps, p[k])
    requires t.regs == s.regs && t.mem == s.mem && ValsAgree(MemoryOps, p, s.vals, t.vals)
    requires var d := Reloc(MemoryOps, p, k);
             t1.regs == t.regs && t1.mem == t.mem && t1.vals == t.vals[d := Get(t1.vals, d)]
    requires j.index == p[k].index && (Produces(j) ==> j.op0 == p[k].op0)
    ensures var u, w := Apply(s, k, p[k], v, addr, data), Apply(t1, Reloc(MemoryOps, p, k) + 1, j, v, addr, data);
            w.regs == u.regs && w.mem == u.mem && ValsAgree(MemoryOps, p, u.vals, w.vals)
  {
    var d := Reloc(MemoryOps, p, k);
    if Produces(j) {
      RelAfter(MemoryOps, p, k, s, t, s.vals[k := v], t1.vals[d + 1 := v]);
    } else {
      RelAfter(MemoryOps, p, k, s, t, s.vals, t1.vals);
    }
  }

  lemma {:induction false} SplitRun(alu: Alu, q: Program, s: State, t: State, i: Insn)
    requires SplitAt(q, t.pc, i) && t.regs == s.regs && t.mem == s.mem
    requires Plain(i.op0) && Plain(i.op1) && Plain(i.op2)
    requires IsLoad(i.index) || (IsStore(i.index) && !i.op2.NoOp?)
    ensures var d := t.pc;
            Run(alu, q, t, 2) ==
            Apply(t.(vals := t.vals[d := SplitAddr(s, i)], pc := d + 1), d + 1, q[d + 1],
                  Result(alu, s, i), StoreAddr(s, i), StoreData(s, i)).(pc := d + 2)
  {
    SplitFirst(alu, q, s, t, i);
    var u := t.(vals := t.vals[t.pc := SplitAddr(s, i)], pc := t.pc + 1);
    SplitSecond(alu, q, s, u, t.pc, i);
    RunTwo(alu, q, t, u);
  }

  lemma {:induction false} MemoryEffect(p: Program, s: State, t: State, j: Insn, s': State, t': State,
                     a: Word, v: Word, addr: Word, data: Word)
    requires s.pc < |p| && Rel(MemoryOps, p, s, t) && Expands(MemoryOps, p[s.pc])
    requires j.index == p[s.pc].index && (Produces(j) ==> j.op0 == p[s.pc].op0)
    requires t.pc + 2 == Reloc(MemoryOps, p, s.pc + 1)
    requires s' == Apply(s, s.pc, p[s.pc], v, addr, data).(pc := s.pc + 1)
    requires var d := t.pc;
             t' == Apply(t.(vals := t.vals[d := a], pc := d + 1), d + 1, j, v, addr, data).(pc := d + 2)
    ensures Rel(MemoryOps, p, s', t')
  {
    var d := t.pc;
    var t1 := t.(vals := t.vals[d := a], pc := d + 1);
    SplitRelated(p, s, t, t1, s.pc, j, v, addr, data);
  }

  lemma {:induction false} MemoryStepAt(alu: Alu, p: Program, q: Program, s: State, t: State)
    requires s.pc < |p| && InsnOk(MemoryOps, p, p[s.pc]) && Rel(MemoryOps, p, s, t) && Memory in p[s.pc].typ
    requires SplitAt(q, t.pc, p[s.pc]) && t.pc + 2 == Reloc(MemoryOps, p, s.pc + 1)
    ensures Rel(MemoryOps, p, Step(alu, p, s), Run(alu, q, t, 2))
  {
    var i, d := p[s.pc], t.pc;
    PlainStep(alu, p, s);
    SplitRun(alu, q, s, t, i);
    MemoryEffect(p, s, t, q[d + 1], Step(alu, p, s), Run(alu, q, t, 2),
                 SplitAddr(s, i), Result(alu, s, i), StoreAddr(s, i), StoreData(s, i));
  }

  lemma {:induction false} MemoryStep(alu: Alu, p: Program, s: State, t: State)
    requires Lowerable(MemoryOps, p) && Rel(MemoryOps, p, s, t) && s.pc < |p| && Memory in p[s.pc].typ
    ensures Rel(MemoryOps, p, Step(alu, p, s), Run(alu, Expanded(MemoryOps, p, |p|), t, 2))
  {
    assert InsnOk(MemoryOps, p, p[s.pc]);
    MemoryGroup(p, s.pc);
    MemoryStepAt(alu, p, Expanded(MemoryOps, p, |p|), s, t);
  }

  /** Unsigned comparison of offset operands is signed comparison. */
  lemma {:induction false} OffsetCompare(index: Opcode, a: Word, b: Word)
    requires IsCompare(index)
    ensures Compare(index, (a + 0x8000_0000) % WORD, (b + 0x8000_0000) % WORD) ==
            Compare(index, ToSigned(a), ToSigned(b))
  {
    assert (a + 0x8000_0000) % WORD == ToSigned(a) + 0x8000_0000;
    assert (b + 0x8000_0000) % WORD == ToSigned(b) + 0x8000_0000;
  }

  /** q[d..d + 3] compares i's operands, offset and relocated to a and b. */
  predicate OffsetAt(q: Program, d: nat, i: Insn, a: Operand, b: Operand)
  {
    && d + 2 < |q|
    && q[d] == Insn(Add, {}, Dest(-1), a, Const(0x8000_0000), NoOp)
    && q[d + 1] == Insn(Add, {}, Dest(-1), b, Const(0x8000_0000), NoOp)
    && q[d + 2] == Insn(i.index, i.typ - {Signed}, i.op0, Ref(d), Ref(d + 1), i.op3)
  }

  lemma {:induction false} SignedGroup(p: Program, k: nat)
    requires Lowerable(SignedOps, p) && k < |p| && Expands(SignedOps, p[k])
    ensures var d, q := Reloc(SignedOps, p, k), Expanded(SignedOps, p, |p|);
            && d + 3 == Reloc(SignedOps, p, k + 1)
            && OffsetAt(q, d, p[k], RelocOp(SignedOps, p, p[k].op1), RelocOp(SignedOps, p, p[k].op2))
  {
    assert InsnOk(SignedOps, p, p[k]);
    GroupAt(SignedOps, p, k, |p|, 0);
    GroupAt(SignedOps, p, k, |p|, 1);
    GroupAt(SignedOps, p, k, |p|, 2);
  }

  lemma {:induction false} OffsetResult(alu: Alu, s: State, t: State, i: Insn, d: nat)
    requires IsCompare(i.index) && Signed in i.typ
    requires Get(t.vals, d) == (OpVal(s, i.op1) + 0x8000_0000) % WORD
    requires Get(t.vals, d + 1) == (OpVal(s, i.op2) + 0x8000_0000) % WORD
    ensures Result(alu, t, Insn(i.index, i.typ - {Signed}, i.op0, Ref(d), Ref(d + 1), i.op3)) == Result(alu, s, i)
  {
    OffsetCompare(i.index, OpVal(s, i.op1), OpVal(s, i.op2));
  }

  /** The states inside an offset group; x and y are the offset operands. */
  function OffsetState(t: State, x: Word, y: Word): State
  {
    t.(vals := t.vals[t.pc := x][t.pc + 1 := y], pc := t.pc + 2)
  }

  lemma {:induction false} OffsetAdds(alu: Alu, q: Program, t: State, i: Insn, a: Operand, b: Operand, x: Word, y: Word)
    requires OffsetAt(q, t.pc, i, a, b) && x == (OpVal(t, a) + 0x8000_0000) % WORD
    requires y == (OpVal(t.(vals := t.vals[t.pc := x], pc := t.pc + 1), b) + 0x8000_0000) % WORD
    ensures Step(alu, q, Step(alu, q, t)) == OffsetState(t, x, y)
  {
    AddStep(alu, q, t);
    AddStep(alu, q, Step(alu, q, t));
  }

  lemma {:induction false} OffsetLast(alu: Alu, q: Program, s: State, t: State, i: Insn, a: Operand, b: Operand, x: Word, y: Word)
    requires OffsetAt(q, t.pc, i, a, b) && !IsBranch(i) && IsCompare(i.index) && Signed in i.typ
    requires x == (OpVal(s, i.op1) + 0x8000_0000) % WORD && y == (OpVal(s, i.op2) + 0x8000_0000) % WORD
    ensures var t2, v := OffsetState(t, x, y), Result(alu, s, i);
            Step(alu, q, t2) == SetDest(t2, i.op0, v).(vals := t2.vals[t.pc + 2 := v], pc := t.pc + 3)
  {
    OffsetResult(alu, s, OffsetState(t, x, y), i, t.pc);
  }

  lemma {:induction false} SignedStepAt(alu: Alu, p: Program, q: Program, s: State, t: State, a: Operand, b: Operand, x: Word, y: Word)
    requires s.pc < |p| && InsnOk(SignedOps, p, p[s.pc]) && Rel(SignedOps, p, s, t) && Expands(SignedOps, p[s.pc])
    requires OffsetAt(q, t.pc, p[s.pc], a, b)
    requires x == (OpVal(s, p[s.pc].op1) + 0x8000_0000) % WORD && OpVal(t, a) == OpVal(s, p[s.pc].op1)
    requires y == (OpVal(s, p[s.pc].op2) + 0x8000_0000) % WORD
    requires OpVal(t.(vals := t.vals[t.pc := x], pc := t.pc + 1), b) == OpVal(s, p[s.pc].op2)
    ensures Rel(SignedOps, p, Step(alu, p, s), Run(alu, q, t, 3))
  {
    var i := p[s.pc];
    OffsetAdds(alu, q, t, i, a, b, x, y);
    OffsetLast(alu, q, s, t, i, a, b, x, y);
    RunOne(alu, q, t);
    PlainStep(alu, p, s);
    SignedFinish(alu, p, s, t, s.pc, x, y, Result(alu, s, i));
  }

  lemma {:induction false} SignedStep(alu: Alu, p: Program, s: State, t: State)
    requires Lowerable(SignedOps, p) && Rel(SignedOps, p, s, t) && s.pc < |p| && Expands(SignedOps, p[s.pc])
    ensures Rel(SignedOps, p, Step(alu, p, s), Run(alu, Expanded(SignedOps, p, |p|), t, 3))
  {
    var i, k := p[s.pc], s.pc;
    assert InsnOk(SignedOps, p, i);
    SignedGroup(p, k);
    var a, b := RelocOp(SignedOps, p, i.op1), RelocOp(SignedOps, p, i.op2);
    var x, y := (OpVal(s, i.op1) + 0x8000_0000) % WORD, (OpVal(s, i.op2) + 0x8000_0000) % WORD;
    OperandRelocated(SignedOps, p, s, t, i.op1);
    OtherValue(SignedOps, p, s, t, t.(vals := t.vals[t.pc := x], pc := t.pc + 1), k, i.op2);
    SignedStepAt(alu, p, Expanded(SignedOps, p, |p|), s, t, a, b, x, y);
  }

  lemma {:induction false} SignedFinish(alu: Alu, p: Program, s: State, t: State, k: nat, x: Word, y: Word, v: Word)
    requires Rel(SignedOps, p, s, t) && s.pc == k < |p| && Expands(SignedOps, p[k])
    ensures var t2 := OffsetState(t, x, y);
            Rel(SignedOps, p, SetDest(s, p[k].op0, v).(vals := s.vals[k := v], pc := k + 1),
                SetDest(t2, p[k].op0, v).(vals := t2.vals[t.pc + 2 := v], pc := t.pc + 3))
  {
    var d := t.pc;
    RelAfter(SignedOps, p, k, s, t, s.vals[k := v], t.vals[d := x][d + 1 := y][d + 2 := v]);
  }

  /** A reference never reads a result written inside an expanded group. */
  lemma {:induction false} OtherValue(pass: Pass, p: Program, s: State, t: State, t1: State, k: nat, o: Operand)
    requires k < |p| && Expands(pass, p[k]) && OperandOk(pass, p, o)
    requires t.regs == s.regs && ValsAgree(pass, p, s.vals, t.vals) && t1.regs == t.regs
    requires t1.vals == t.vals[Reloc(pass, p, k) := Get(t1.vals, Reloc(pass, p, k))]
    ensures OpVal(t1, RelocOp(pass, p, o)) == OpVal(s, o)
  {
    if o.Ref? {
      RelocOutside(pass, p, o.ref, k);
      assert ValAgrees(pass, p, s.vals, t.vals, o.ref);
    }
  }

  /** One original step is simulated by the group that replaces it. */
  lemma {:induction false} SimStep(alu: Alu, pass: Pass, p: Program, s: State, t: State) returns (m: nat)
    requires Lowerable(pass, p) && Rel(pass, p, s, t)
    ensures m >= 1 && Rel(pass, p, Step(alu, p, s), Run(alu, Expanded(pass, p, |p|), t, m))
  {
    var q := Expanded(pass, p, |p|);
    if s.pc == |p| {
      m := 1;
    } else {
      assert InsnOk(pass, p, p[s.pc]);
      m := GroupSize(pass, p[s.pc]);
      if IsBranch(p[s.pc]) {
        BranchStep(alu, pass, p, s, t);
      } else if !Expands(pass, p[s.pc]) {
        WholeStep(alu, pass, p, s, t);
      } else if pass.MemoryOps? {
        MemoryStep(alu, p, s, t);
      } else {
        SignedStep(alu, p, s, t);
      }
    }
    RunOne(alu, q, t);
  }

  lemma {:induction false} RunMore(alu: Alu, p: Program, s: State, n: nat)
    requires n > 0
    ensures Run(alu, p, s, n) == Run(alu, p, Step(alu, p, s), n - 1)
  {
  }

  lemma {:induction false} RunPlus(alu: Alu, q: Program, t: State, a: nat, b: nat)
    ensures Run(alu, q, t, a + b) == Run(alu, q, Run(alu, q, t, a), b)
    decreases a
  {
    if a > 0 {
      RunPlus(alu, q, Step(alu, q, t), a - 1, b);
    }
  }

  lemma {:induction false} SimJoin(alu: Alu, pass: Pass, p: Program, q: Program, s: State, t: State, n: nat, a: nat, b: nat)
    requires n > 0 && Rel(pass, p, Run(alu, p, Step(alu, p, s), n - 1), Run(alu, q, Run(alu, q, t, a), b))
    ensures Rel(pass, p, Run(alu, p, s, n), Run(alu, q, t, a + b))
  {
    RunMore(alu, p, s, n);
    RunPlus(alu, q, t, a, b);
  }

  /** Every step of p from related states is matched by some steps of q. */
  ghost predicate StepsMatch(alu: Alu, pass: Pass, p: Program, q: Program)
  {
    forall s, t {:trigger Matched(alu, pass, p, q, s, t)} :: Rel(pass, p, s, t) ==> Matched(alu, pass, p, q, s, t)
  }

  ghost predicate Matched(alu: Alu, pass: Pass, p: Program, q: Program, s: State, t: State)
  {
    exists m: nat :: m >= 1 && Rel(pass, p, Step(alu, p, s), Run(alu, q, t, m))
  }

  lemma {:induction false} RunsMatch(alu: Alu, pass: Pass, p: Program, q: Program, s: State, t: State, n: nat) returns (m: nat)
    requires StepsMatch(alu, pass, p, q) && Rel(pass, p, s, t)
    ensures m >= n && Rel(pass, p, Run(alu, p, s, n), Run(alu, q, t, m))
    decreases n
  {
    m := 0;
    if n > 0 {
      assert Matched(alu, pass, p, q, s, t);
      var a: nat :| a >= 1 && Rel(pass, p, Step(alu, p, s), Run(alu, q, t, a));
      var b := RunsMatch(alu, pass, p, q, Step(alu, p, s), Run(alu, q, t, a), n - 1);
      SimJoin(alu, pass, p, q, s, t, n, a, b);
      m := a + b;
    }
  }

  /** `expand_memory` and `expand_signed` preserve meaning: every run is simulated by
      the expanded code started at reloc[pc]. */
  lemma {:induction false} SimRun(alu: Alu, pass: Pass, p: Program, s: State, t: State, n: nat) returns (m: nat)
    requires Lowerable(pass, p) && Rel(pass, p, s, t)
    ensures m >= n && Rel(pass, p, Run(alu, p, s, n), Run(alu, Expanded(pass, p, |p|), t, m))
  {
    forall s, t | Rel(pass, p, s, t)
      ensures Matched(alu, pass, p, Expanded(pass, p, |p|), s, t)
    {
      var a := SimStep(alu, pass, p, s, t);
    }
    m := RunsMatch(alu, pass, p, Expanded(pass, p, |p|), s, t, n);
  }

  /** Every expanded position belongs to one group. */
  lemma {:induction false} GroupOf(pass: Pass, p: Program, n: nat, x: nat) returns (k: nat, j: nat)
    requires n <= |p| && x < Reloc(pass, p, n)
    ensures k < n && j < GroupSize(pass, p[k]) && x == Reloc(pass, p, k) + j
    decreases n
  {
    if x < Reloc(pass, p, n - 1) {
      k, j := GroupOf(pass, p, n - 1, x);
    } else {
      k, j := n - 1, x - Reloc(pass, p, n - 1);
    }
  }

  lemma {:induction false} RelocGrows(pass: Pass, p: Program, k: nat)
    requires k < |p|
    ensures Reloc(pass, p, k) < |Expanded(pass, p, |p|)|
  {
    RelocMonotone(pass, p, k, |p|);
  }
}
