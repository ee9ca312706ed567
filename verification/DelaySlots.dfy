/** Delay-slot removal (`expand_branch` then `remove_dslots`) and the whole lowering
    pipeline of `cuc_load`, as seen by the executed program. */
module DelaySlots {
  import opened Words
  import opened CucInsn
  import opened Lowering

  // ------------------------------------------------------------ loaded code

  /** Instruction k executes in the delay slot of its predecessor. */
  predicate IsSlot(p: Program, k: nat)
  {
    0 < k <= |p| && IsBranch(p[k - 1])
  }

  /** A branch as the loader builds it: l.j on a constant, l.bf and l.bnf on the flag;
      its slot is neither a branch nor a branch target. */
  predicate LoadedBranch(p: Program, k: nat)
    requires k < |p|
  {
    var i := p[k];
    && k + 1 < |p| && !IsBranch(p[k + 1])
    && i.op0.Jump? && i.op0.target < |p| && !IsSlot(p, i.op0.target)
    && (i.op1.Const? || i.op1 == Register(FLAG_REG))
    && i.index.Bf? && Memory !in i.typ && Signed !in i.typ
  }

  predicate LoadedInsn(p: Program, k: nat)
    requires k < |p|
  {
    var i := p[k];
    && InDelay !in i.typ && BBStart !in i.typ
    && Plain(i.op1) && Plain(i.op2) && Plain(i.op3)
    && (Memory in i.typ <==> IsLoad(i.index) || IsStore(i.index))
    && (IsStore(i.index) ==> !i.op2.NoOp?)
    && (Signed in i.typ && Memory !in i.typ ==> IsCompare(i.index))
    && (if IsBranch(i) then LoadedBranch(p, k) else Plain(i.op0))
  }

  /** What the decoding loop of `cuc_load` leaves in the instruction array. */
  predicate Loaded(p: Program)
  {
    forall k: nat :: k < |p| ==> LoadedInsn(p, k)
  }

  // ------------------------------------------------------- slots before branches

  function SwappedAt(q: Program, x: nat): Insn
    requires x < |q|
  {
    if IsBranch(q[x]) && x + 1 < |q| then q[x + 1]
    else if x > 0 && IsBranch(q[x - 1]) then q[x - 1]
    else q[x]
  }

  /** `remove_dslots`: every branch changes places with its slot. */
  function Swapped(q: Program): (u: Program)
    ensures |u| == |q|
  {
    seq(|q|, x requires 0 <= x < |q| => SwappedAt(q, x))
  }

  function Undelayed(p: Program): Program { Swapped(Expanded(Branches, p, |p|)) }

  /** The conditional move that saves the branch decision before the slot runs. */
  function SavedCondition(i: Insn): Insn
  {
    var neg := Flag1 in i.typ;
    Insn(Cmov, {Cond}, Dest(-1), Const(if neg then 0 else 1), Const(if neg then 1 else 0), Register(FLAG_REG))
  }

  /** The branch, now testing the saved condition at d. */
  function RewiredBranch(p: Program, i: Insn, d: nat): Insn
    requires i.op0.Jump? && i.op0.target < |p|
  {
    i.(op0 := Jump(Reloc(Branches, p, i.op0.target)), op1 := if i.op1.Register? then Ref(d) else i.op1)
  }

  lemma {:induction false} PlainGroup(p: Program, k: nat)
    requires Loaded(p) && k < |p| && !IsBranch(p[k])
    ensures var d, e := Reloc(Branches, p, k), Expanded(Branches, p, |p|);
            d < |e| && e[d] == p[k] && Reloc(Branches, p, k + 1) == d + 1
  {
    assert LoadedInsn(p, k);
    PlainFinish(p, p[k]);
    WholeGroup(Branches, p, k);
  }

  lemma {:induction false} PlainFinish(p: Program, i: Insn)
    requires Plain(i.op0) && Plain(i.op1) && Plain(i.op2) && Plain(i.op3)
    ensures Finish(Branches, p, i) == i
  {
  }

  lemma {:induction false} BranchGroup(p: Program, k: nat)
    requires Loaded(p) && k < |p| && IsBranch(p[k])
    ensures var d, e := Reloc(Branches, p, k), Expanded(Branches, p, |p|);
            && d + 2 < |e| && Reloc(Branches, p, k + 1) == d + 3
            && e[d] == SavedCondition(p[k]) && e[d + 1] == NOP
            && LoadedBranch(p, k) && e[d + 2] == RewiredBranch(p, p[k], d)
  {
    assert LoadedInsn(p, k);
    GroupAt(Branches, p, k, |p|, 0);
    GroupAt(Branches, p, k, |p|, 1);
    GroupAt(Branches, p, k, |p|, 2);
  }

  lemma {:induction false} SwapPair(e: Program, x: nat)
    requires x + 1 < |e| && IsBranch(e[x]) && !IsBranch(e[x + 1])
    ensures Swapped(e)[x] == e[x + 1] && Swapped(e)[x + 1] == e[x]
  {
  }

  lemma {:induction false} SwapKeeps(e: Program, x: nat)
    requires x < |e| && !IsBranch(e[x]) && (x > 0 ==> !IsBranch(e[x - 1]))
    ensures Swapped(e)[x] == e[x]
  {
  }

  /** The instruction before the place of a non-slot is not a branch. */
  lemma {:induction false} NoBranchBefore(p: Program, k: nat)
    requires Loaded(p) && k < |p| && !IsSlot(p, k)
    ensures var d, e := Reloc(Branches, p, k), Expanded(Branches, p, |p|);
            d < |e| && (d > 0 ==> !IsBranch(e[d - 1]))
  {
    RelocMonotone(Branches, p, k, |p|);
    if k > 0 {
      PlainGroup(p, k - 1);
    }
  }

  /** A branch and its slot become condition, NOP, slot, branch. */
  lemma {:induction false} BranchLayout(p: Program, k: nat)
    requires Loaded(p) && k < |p| && IsBranch(p[k])
    ensures var d, u := Reloc(Branches, p, k), Undelayed(p);
            && d + 3 < |u| && LoadedBranch(p, k) && Reloc(Branches, p, k + 2) == d + 4
            && u[d] == SavedCondition(p[k]) && u[d + 1] == NOP
            && u[d + 2] == p[k + 1] && u[d + 3] == RewiredBranch(p, p[k], d)
  {
    var d, e := Reloc(Branches, p, k), Expanded(Branches, p, |p|);
    BranchGroup(p, k);
    PlainGroup(p, k + 1);
    BranchOutsideSlot(p, k);
    NoBranchBefore(p, k);
    SwapPair(e, d + 2);
    SwapKeeps(e, d);
    SwapKeeps(e, d + 1);
  }

  lemma {:induction false} PlainLayout(p: Program, k: nat)
    requires Loaded(p) && k < |p| && !IsBranch(p[k]) && !IsSlot(p, k)
    ensures var d, u := Reloc(Branches, p, k), Undelayed(p);
            d < |u| && u[d] == p[k] && Reloc(Branches, p, k + 1) == d + 1
  {
    PlainGroup(p, k);
    NoBranchBefore(p, k);
    SwapKeeps(Expanded(Branches, p, |p|), Reloc(Branches, p, k));
  }

  /** A branch never sits in a slot. */
  lemma {:induction false} BranchOutsideSlot(p: Program, k: nat)
    requires Loaded(p) && k < |p| && IsBranch(p[k])
    ensures !IsSlot(p, k)
  {
    if k > 0 {
      assert LoadedInsn(p, k - 1);
    }
  }

  // ------------------------------------------------------------- simulation

  /** Between delay-slot code and code without slots; loaded code has no references,
      so the results they would read are left out. */
  ghost predicate RelD(p: Program, s: State, t: State)
  {
    && s.pc <= |p| && !IsSlot(p, s.pc) && t.pc == Reloc(Branches, p, s.pc)
    && t.regs == s.regs && t.mem == s.mem
  }

  lemma {:induction false} ExecPlain(alu: Alu, s: State, t: State, k: nat, l: nat, i: Insn)
    requires t.regs == s.regs && t.mem == s.mem
    requires Plain(i.op0) && Plain(i.op1) && Plain(i.op2) && Plain(i.op3)
    ensures Exec(alu, t, l, i).regs == Exec(alu, s, k, i).regs
    ensures Exec(alu, t, l, i).mem == Exec(alu, s, k, i).mem
  {
    assert OpVal(t, i.op0) == OpVal(s, i.op0) && OpVal(t, i.op1) == OpVal(s, i.op1);
    assert OpVal(t, i.op2) == OpVal(s, i.op2) && OpVal(t, i.op3) == OpVal(s, i.op3);
    assert Result(alu, t, i) == Result(alu, s, i);
    assert StoreAddr(t, i) == StoreAddr(s, i) && StoreData(t, i) == StoreData(s, i);
  }

  lemma {:induction false} SavedStep(alu: Alu, u: Program, t: State, i: Insn)
    requires t.pc < |u| && u[t.pc] == SavedCondition(i)
    ensures var c := Truth((Get(t.regs, FLAG_REG) != 0) != (Flag1 in i.typ));
            Step(alu, u, t) == t.(vals := t.vals[t.pc := c], pc := t.pc + 1)
  {
  }

  lemma {:induction false} NopStep(alu: Alu, u: Program, t: State)
    requires t.pc < |u| && u[t.pc] == NOP
    ensures Step(alu, u, t) == t.(pc := t.pc + 1)
  {
  }

  /** The saved condition decides as the branch did before its slot ran. */
  lemma {:induction false} RewiredTaken(p: Program, s: State, t: State, i: Insn, d: nat)
    requires i.op0.Jump? && i.op0.target < |p| && (i.op1.Const? || i.op1 == Register(FLAG_REG))
    requires Get(t.vals, d) == Truth((Get(s.regs, FLAG_REG) != 0) != (Flag1 in i.typ))
    ensures Taken(t, RewiredBranch(p, i, d)) == Taken(s, i)
  {
  }

  /** q[d..d + 4] is the form of branch b with slot i. */
  ghost predicate SlotAt(p: Program, u: Program, d: nat, b: Insn, i: Insn)
  {
    && d + 3 < |u| && b.op0.Jump? && b.op0.target < |p| && (b.op1.Const? || b.op1 == Register(FLAG_REG))
    && u[d] == SavedCondition(b) && u[d + 1] == NOP && u[d + 2] == i && u[d + 3] == RewiredBranch(p, b, d)
    && IsBranch(b) && !IsBranch(i) && Plain(i.op0) && Plain(i.op1) && Plain(i.op2) && Plain(i.op3)
  }

  lemma {:induction false} ExecKeeps(alu: Alu, t: State, l: nat, i: Insn, d: nat)
    requires d != l
    ensures Get(Exec(alu, t, l, i).vals, d) == Get(t.vals, d)
  {
  }

  lemma {:induction false} RunFour(alu: Alu, u: Program, t: State)
    ensures Run(alu, u, t, 4) == Step(alu, u, Step(alu, u, Step(alu, u, Step(alu, u, t))))
  {
    RunMore(alu, u, t, 4);
    RunOne(alu, u, Step(alu, u, t));
  }

  /** The flag may be overwritten by the slot; the saved condition is not. */
  lemma {:induction false} SlotRun(alu: Alu, p: Program, u: Program, s: State, t: State, b: Insn, i: Insn, k: nat)
    requires SlotAt(p, u, t.pc, b, i) && t.regs == s.regs && t.mem == s.mem
    ensures var w, x := Run(alu, u, t, 4), Exec(alu, s, k, i);
            && w.regs == x.regs && w.mem == x.mem
            && w.pc == if Taken(s, b) then Reloc(Branches, p, Target(b)) else t.pc + 4
  {
    var d := t.pc;
    SavedStep(alu, u, t, b);
    var t1 := Step(alu, u, t);
    NopStep(alu, u, t1);
    var t2 := Step(alu, u, t1);
    ExecPlain(alu, s, t2, k, d + 2, i);
    ExecKeeps(alu, t2, d + 2, i, d);
    var t3 := Step(alu, u, t2);
    assert t3 == Exec(alu, t2, d + 2, i).(pc := d + 3);
    RewiredTaken(p, s, t3, b, d);
    RunFour(alu, u, t);
  }

  lemma {:induction false} DelayBranchEffect(alu: Alu, p: Program, s: State)
    requires s.pc + 1 < |p| && IsBranch(p[s.pc])
    ensures var k := s.pc;
            DelayStep(alu, p, s) ==
            Exec(alu, s, k + 1, p[k + 1]).(pc := if Taken(s, p[k]) then Target(p[k]) else k + 2)
  {
  }

  lemma {:induction false} DelayBranchStepAt(alu: Alu, p: Program, u: Program, s: State, t: State)
    requires RelD(p, s, t) && s.pc + 1 < |p| && LoadedBranch(p, s.pc)
    requires SlotAt(p, u, t.pc, p[s.pc], p[s.pc + 1]) && t.pc + 4 == Reloc(Branches, p, s.pc + 2)
    ensures RelD(p, DelayStep(alu, p, s), Run(alu, u, t, 4))
  {
    var x, w := Exec(alu, s, s.pc + 1, p[s.pc + 1]), Run(alu, u, t, 4);
    SlotRun(alu, p, u, s, t, p[s.pc], p[s.pc + 1], s.pc + 1);
    DelayBranchEffect(alu, p, s);
    assert w.regs == DelayStep(alu, p, s).regs && w.mem == DelayStep(alu, p, s).mem;
  }

  lemma {:induction false} DelayBranchStep(alu: Alu, p: Program, s: State, t: State)
    requires Loaded(p) && RelD(p, s, t) && s.pc < |p| && IsBranch(p[s.pc])
    ensures RelD(p, DelayStep(alu, p, s), Run(alu, Undelayed(p), t, 4))
  {
    var k := s.pc;
    BranchLayout(p, k);
    assert LoadedInsn(p, k) && LoadedInsn(p, k + 1);
    DelayBranchStepAt(alu, p, Undelayed(p), s, t);
  }

  lemma {:induction false} DelayPlainStep(alu: Alu, p: Program, s: State, t: State)
    requires Loaded(p) && RelD(p, s, t) && s.pc < |p| && !IsBranch(p[s.pc])
    ensures RelD(p, DelayStep(alu, p, s), Run(alu, Undelayed(p), t, 1))
  {
    var k, u := s.pc, Undelayed(p);
    PlainLayout(p, k);
    assert LoadedInsn(p, k);
    ExecPlain(alu, s, t, k, t.pc, p[k]);
    RunOne(alu, u, t);
    assert Step(alu, u, t) == Exec(alu, t, t.pc, p[k]).(pc := t.pc + 1);
  }

  lemma {:induction false} DelaySimStep(alu: Alu, p: Program, s: State, t: State) returns (m: nat)
    requires Loaded(p) && RelD(p, s, t)
    ensures m >= 1 && RelD(p, DelayStep(alu, p, s), Run(alu, Undelayed(p), t, m))
  {
    if s.pc == |p| {
      m := 1;
      RunOne(alu, Undelayed(p), t);
    } else if IsBranch(p[s.pc]) {
      m := 4;
      DelayBranchStep(alu, p, s, t);
    } else {
      m := 1;
      DelayPlainStep(alu, p, s, t);
    }
  }

  lemma {:induction false} DelayJoin(alu: Alu, p: Program, u: Program, s: State, t: State, n: nat, a: nat, b: nat)
    requires n > 0 && RelD(p, DelayRun(alu, p, DelayStep(alu, p, s), n - 1), Run(alu, u, Run(alu, u, t, a), b))
    ensures RelD(p, DelayRun(alu, p, s, n), Run(alu, u, t, a + b))
  {
    RunPlus(alu, u, t, a, b);
  }

  ghost predicate DelayMatched(alu: Alu, p: Program, u: Program, s: State, t: State)
  {
    exists m: nat :: m >= 1 && RelD(p, DelayStep(alu, p, s), Run(alu, u, t, m))
  }

  ghost predicate DelayStepsMatch(alu: Alu, p: Program, u: Program)
  {
    forall s, t {:trigger DelayMatched(alu, p, u, s, t)} :: RelD(p, s, t) ==> DelayMatched(alu, p, u, s, t)
  }

  lemma {:induction false} DelayRunsMatch(alu: Alu, p: Program, u: Program, s: State, t: State, n: nat) returns (m: nat)
    requires DelayStepsMatch(alu, p, u) && RelD(p, s, t)
    ensures m >= n && RelD(p, DelayRun(alu, p, s, n), Run(alu, u, t, m))
    decreases n
  {
    m := 0;
    if n > 0 {
      assert DelayMatched(alu, p, u, s, t);
      var a: nat :| a >= 1 && RelD(p, DelayStep(alu, p, s), Run(alu, u, t, a));
      var b := DelayRunsMatch(alu, p, u, DelayStep(alu, p, s), Run(alu, u, t, a), n - 1);
      DelayJoin(alu, p, u, s, t, n, a, b);
      m := a + b;
    }
  }

  /** Delay-slot elimination preserves meaning: every run of the loaded code is
      simulated by the code without slots. */
  lemma {:induction false} DelaySimRun(alu: Alu, p: Program, s: State, t: State, n: nat) returns (m: nat)
    requires Loaded(p) && RelD(p, s, t)
    ensures m >= n && RelD(p, DelayRun(alu, p, s, n), Run(alu, Undelayed(p), t, m))
  {
    forall s, t | RelD(p, s, t)
      ensures DelayMatched(alu, p, Undelayed(p), s, t)
    {
      var a := DelaySimStep(alu, p, s, t);
    }
    m := DelayRunsMatch(alu, p, Undelayed(p), s, t, n);
  }

  // ---------------------------------------------------------- the whole pipeline

  function Split(p: Program): Program { var u := Undelayed(p); Expanded(MemoryOps, u, |u|) }

  /** `expand_branch`, `remove_dslots`, `expand_memory`, `expand_signed`. */
  function Lowered(p: Program): Program { var v := Split(p); Expanded(SignedOps, v, |v|) }

  lemma {:induction false} RewiredOk(pass: Pass, p: Program, k: nat)
    requires !pass.Branches? && Loaded(p) && k < |p| && IsBranch(p[k])
    ensures LoadedBranch(p, k) && InsnOk(pass, Undelayed(p), RewiredBranch(p, p[k], Reloc(Branches, p, k)))
  {
    assert LoadedInsn(p, k);
    BranchLayout(p, k);
    RelocGrows(Branches, p, p[k].op0.target);
  }

  lemma {:induction false} PlainOk(pass: Pass, p: Program, u: Program, k: nat)
    requires !pass.Branches? && k < |p| && LoadedInsn(p, k) && !IsBranch(p[k])
    ensures InsnOk(pass, u, p[k])
  {
  }

  /** The condition saved, the NOP and the slot. */
  lemma {:induction false} BranchGroupOk(pass: Pass, p: Program, k: nat, j: nat, u: Program, i: Insn)
    requires !pass.Branches? && Loaded(p) && k + 1 < |p| && !IsBranch(p[k + 1]) && j < 3
    requires i == if j == 0 then SavedCondition(p[k]) else if j == 1 then NOP else p[k + 1]
    ensures InsnOk(pass, u, i)
  {
    if j == 2 {
      assert LoadedInsn(p, k + 1);
      PlainOk(pass, p, u, k + 1);
    } else {
      SavedOk(pass, u, p[k]);
    }
  }

  lemma {:induction false} BranchPart(p: Program, k: nat, j: nat, u: Program, x: nat)
    requires Loaded(p) && k < |p| && IsBranch(p[k]) && j < 3
    requires u == Undelayed(p) && x == Reloc(Branches, p, k) + j && x < |u|
    ensures k + 1 < |p| && !IsBranch(p[k + 1])
    ensures u[x] == if j == 0 then SavedCondition(p[k]) else if j == 1 then NOP else p[k + 1]
  {
    BranchLayout(p, k);
  }

  lemma {:induction false} SavedOk(pass: Pass, u: Program, i: Insn)
    requires !pass.Branches?
    ensures InsnOk(pass, u, SavedCondition(i)) && InsnOk(pass, u, NOP)
  {
  }

  /** The branch, which is where its slot was. */
  lemma {:induction false} SlotGroupOk(pass: Pass, p: Program, k: nat, u: Program, x: nat)
    requires !pass.Branches? && Loaded(p) && k < |p| && IsSlot(p, k)
    requires u == Undelayed(p) && x == Reloc(Branches, p, k) && x < |u|
    ensures InsnOk(pass, u, u[x])
  {
    BranchLayout(p, k - 1);
    BranchGroup(p, k - 1);
    RewiredOk(pass, p, k - 1);
  }

  lemma {:induction false} UndelayedInsn(pass: Pass, p: Program, x: nat, u: Program)
    requires !pass.Branches? && Loaded(p) && u == Undelayed(p) && x < |u|
    ensures InsnOk(pass, u, u[x])
  {
    var k, j := GroupOf(Branches, p, |p|, x);
    if IsBranch(p[k]) {
      BranchPart(p, k, j, u, x);
      BranchGroupOk(pass, p, k, j, u, u[x]);
    } else {
      assert j == 0;
      if IsSlot(p, k) {
        SlotGroupOk(pass, p, k, u, x);
      } else {
        PlainLayout(p, k);
        assert LoadedInsn(p, k);
        PlainOk(pass, p, u, k);
      }
    }
  }

  /** Code without slots is fit for both later passes. */
  lemma {:induction false} UndelayedLowerable(pass: Pass, p: Program)
    requires !pass.Branches? && Loaded(p)
    ensures Lowerable(pass, Undelayed(p))
  {
    forall x | 0 <= x < |Undelayed(p)|
      ensures InsnOk(pass, Undelayed(p), Undelayed(p)[x])
    {
      UndelayedInsn(pass, p, x, Undelayed(p));
    }
  }

  lemma {:induction false} RelocatedOk(u: Program, o: Operand)
    requires OperandOk(MemoryOps, u, o) && OperandOk(SignedOps, u, o)
    ensures OperandOk(SignedOps, Expanded(MemoryOps, u, |u|), RelocOp(MemoryOps, u, o))
  {
    if o.Ref? {
      RelocGrows(MemoryOps, u, o.ref);
      GroupAt(MemoryOps, u, o.ref, |u|, 0);
    } else if o.Jump? {
      RelocGrows(MemoryOps, u, o.target);
    }
  }

  lemma {:induction false} FinishedOk(u: Program, v: Program, i: Insn)
    requires InsnOk(MemoryOps, u, i) && InsnOk(SignedOps, u, i) && Memory !in i.typ && v == Expanded(MemoryOps, u, |u|)
    ensures InsnOk(SignedOps, v, Finish(MemoryOps, u, i))
  {
    RelocatedOk(u, i.op0);
    RelocatedOk(u, i.op1);
    RelocatedOk(u, i.op2);
    RelocatedOk(u, i.op3);
  }

  lemma {:induction false} SplitOk(u: Program, k: nat, j: nat, v: Program, i: Insn)
    requires Lowerable(MemoryOps, u) && k < |u| && Memory in u[k].typ && j < 2 && v == Expanded(MemoryOps, u, |u|)
    requires Reloc(MemoryOps, u, k) + j < |v| && i == v[Reloc(MemoryOps, u, k) + j]
    ensures InsnOk(SignedOps, v, i)
  {
    assert InsnOk(MemoryOps, u, u[k]);
    GroupAt(MemoryOps, u, k, |u|, 0);
    MemoryGroup(u, k);
    SplitPairOk(u, v, k, Reloc(MemoryOps, u, k), j, i);
  }

  lemma {:induction false} SplitPairOk(u: Program, v: Program, k: nat, d: nat, j: nat, i: Insn)
    requires k < |u| && Memory in u[k].typ && InsnOk(MemoryOps, u, u[k]) && SplitAt(v, d, u[k]) && j < 2
    requires Memory !in v[d].typ && Signed !in v[d].typ && Plain(v[d].op3) && i == v[d + j]
    ensures InsnOk(SignedOps, v, i)
  {
  }

  lemma {:induction false} WholeOk(u: Program, k: nat, v: Program, i: Insn)
    requires Lowerable(MemoryOps, u) && Lowerable(SignedOps, u) && k < |u| && Memory !in u[k].typ
    requires v == Expanded(MemoryOps, u, |u|) && Reloc(MemoryOps, u, k) < |v| && i == v[Reloc(MemoryOps, u, k)]
    ensures InsnOk(SignedOps, v, i)
  {
    assert InsnOk(MemoryOps, u, u[k]) && InsnOk(SignedOps, u, u[k]);
    WholeGroup(MemoryOps, u, k);
    FinishedOk(u, v, u[k]);
    assert i == Finish(MemoryOps, u, u[k]);
  }

  lemma {:induction false} SplitInsn(u: Program, v: Program, x: nat, i: Insn)
    requires Lowerable(MemoryOps, u) && Lowerable(SignedOps, u) && v == Expanded(MemoryOps, u, |u|)
    requires x < |v| && i == v[x]
    ensures InsnOk(SignedOps, v, i)
  {
    var k, j := GroupOf(MemoryOps, u, |u|, x);
    if Memory in u[k].typ {
      SplitOk(u, k, j, v, i);
    } else {
      WholeOk(u, k, v, i);
    }
  }

  /** Splitting memory operations leaves code fit for the signed pass. */
  lemma {:induction false} SplitLowerable(u: Program)
    requires Lowerable(MemoryOps, u) && Lowerable(SignedOps, u)
    ensures Lowerable(SignedOps, Expanded(MemoryOps, u, |u|))
  {
    var v := Expanded(MemoryOps, u, |u|);
    forall x | 0 <= x < |v|
      ensures InsnOk(SignedOps, v, v[x])
    {
      SplitInsn(u, v, x, v[x]);
    }
  }

  /** Where original instruction k ends up. */
  function Entry(p: Program, k: nat): (e: nat)
    requires k <= |p|
    ensures e <= |Lowered(p)|
  {
    var u, v := Undelayed(p), Split(p);
    RelocAtMost(Branches, p, k);
    RelocAtMost(MemoryOps, u, Reloc(Branches, p, k));
    RelocAtMost(SignedOps, v, Reloc(MemoryOps, u, Reloc(Branches, p, k)));
    Reloc(SignedOps, v, Reloc(MemoryOps, u, Reloc(Branches, p, k)))
  }

  lemma {:induction false} RelocAtMost(pass: Pass, p: Program, k: nat)
    requires k <= |p|
    ensures Reloc(pass, p, k) <= Reloc(pass, p, |p|)
    ensures k < |p| ==> Reloc(pass, p, k) < Reloc(pass, p, |p|)
  {
    if k < |p| {
      RelocMonotone(pass, p, k, |p|);
    }
  }

  lemma {:induction false} EntryAtEnd(p: Program, k: nat)
    requires k <= |p|
    ensures Entry(p, k) == |Lowered(p)| <==> k == |p|
  {
    var u, v := Undelayed(p), Split(p);
    RelocAtMost(Branches, p, k);
    RelocAtMost(MemoryOps, u, Reloc(Branches, p, k));
    RelocAtMost(SignedOps, v, Reloc(MemoryOps, u, Reloc(Branches, p, k)));
  }

  /** The lowered program does what the loaded delay-slot program does: after any
      number of original steps it reaches the same registers and memory at the
      matching place, and it has halted exactly when the original has. */
  lemma {:induction false} LoweringCorrect(alu: Alu, p: Program, s: State, n: nat) returns (m: nat)
    requires Loaded(p) && s.pc <= |p| && !IsSlot(p, s.pc)
    ensures var x, y := DelayRun(alu, p, s, n), Run(alu, Lowered(p), s.(vals := map[], pc := Entry(p, s.pc)), m);
            && m >= n && y.regs == x.regs && y.mem == x.mem
            && x.pc <= |p| && y.pc == Entry(p, x.pc) && (y.pc == |Lowered(p)| <==> x.pc == |p|)
  {
    var u, v := Undelayed(p), Split(p);
    var t1 := s.(vals := map[], pc := Reloc(Branches, p, s.pc));
    RelocAtMost(Branches, p, s.pc);
    var a := DelaySimRun(alu, p, s, t1, n);
    UndelayedLowerable(MemoryOps, p);
    UndelayedLowerable(SignedOps, p);
    var t2 := t1.(pc := Reloc(MemoryOps, u, t1.pc));
    RelocAtMost(MemoryOps, u, t1.pc);
    var b := SimRun(alu, MemoryOps, u, t1, t2, a);
    SplitLowerable(u);
    var t3 := t2.(pc := Reloc(SignedOps, v, t2.pc));
    m := SimRun(alu, SignedOps, v, t2, t3, b);
    EntryAtEnd(p, DelayRun(alu, p, s, n).pc);
  }
}
