/** The in-place instruction array of cuc/load.c: each expansion moves instructions
    upwards from the last one down, fills `reloc`, then relocates operands. */
module CodeLoader {
  import opened CucInsn
  import opened Lowering
  import opened DelaySlots

  predicate InRange(p: Program, o: Operand)
  {
    (o.Ref? ==> o.ref < |p|) && (o.Jump? ==> o.target < |p|)
  }

  predicate Operands(p: Program, i: Insn)
  {
    InRange(p, i.op0) && InRange(p, i.op1) && InRange(p, i.op2) && InRange(p, i.op3)
  }

  /** Every reference and jump names an instruction, so `reloc` is defined there. */
  predicate Closed(p: Program)
  {
    forall k: nat :: k < |p| ==> Operands(p, p[k])
  }

  /** Instructions whose operands the second loop leaves alone. */
  predicate Skipped(pass: Pass, i: Insn)
  {
    match pass
    case Branches => false
    case MemoryOps => Memory in i.typ
    case SignedOps => Memory !in i.typ && Signed in i.typ
  }

  /** The unrelocated groups of the instructions from i on. */
  function RawFrom(pass: Pass, p: Program, i: nat): (q: Program)
    requires i <= |p|
    ensures Reloc(pass, p, i) + |q| == Reloc(pass, p, |p|)
    decreases |p| - i
  {
    if i == |p| then [] else RawGroup(pass, p[i], i, Reloc(pass, p, i)) + RawFrom(pass, p, i + 1)
  }

  lemma {:induction false} RawAt(pass: Pass, p: Program, i: nat, k: nat, j: nat)
    requires i <= k < |p| && j < GroupSize(pass, p[k])
    ensures var x := Reloc(pass, p, k) + j - Reloc(pass, p, i);
            0 <= x < |RawFrom(pass, p, i)| &&
            RawFrom(pass, p, i)[x] == RawGroup(pass, p[k], k, Reloc(pass, p, k))[j]
    decreases k - i
  {
    var d := Reloc(pass, p, i);
    var g, rest := RawGroup(pass, p[i], i, d), RawFrom(pass, p, i + 1);
    var x := Reloc(pass, p, k) + j - d;
    assert |g| == GroupSize(pass, p[i]) && Reloc(pass, p, i + 1) == d + |g|;
    if i < k {
      RawAt(pass, p, i + 1, k, j);
    }
    AppendAt(g, rest, x);
  }

  lemma {:induction false} RawOperands(pass: Pass, p: Program, k: nat, d: nat, j: nat)
    requires k < |p| && Operands(p, p[k]) && j < GroupSize(pass, p[k])
    ensures var r := RawGroup(pass, p[k], k, d)[j]; Skipped(pass, r) || Operands(p, r)
  {
  }

  ghost predicate Finishes(pass: Pass, p: Program, r: Insn, f: Insn)
  {
    f == Finish(pass, p, r) && (Skipped(pass, r) || Operands(p, r))
  }

  /** Relocating the raw groups gives the specified expansion. */
  lemma {:induction false} RawFinished(pass: Pass, p: Program, x: nat)
    requires Closed(p) && x < Reloc(pass, p, |p|)
    ensures x < |RawFrom(pass, p, 0)| && Finishes(pass, p, RawFrom(pass, p, 0)[x], Expanded(pass, p, |p|)[x])
  {
    var k, j := GroupOf(pass, p, |p|, x);
    RawAt(pass, p, 0, k, j);
    GroupAt(pass, p, k, |p|, j);
    GroupFinished(pass, p, k, j);
  }

  lemma {:induction false} GroupFinished(pass: Pass, p: Program, k: nat, j: nat)
    requires Closed(p) && k < |p| && j < GroupSize(pass, p[k])
    ensures Finishes(pass, p, RawGroup(pass, p[k], k, Reloc(pass, p, k))[j], Group(pass, p, k)[j])
  {
    RawOperands(pass, p, k, Reloc(pass, p, k), j);
  }

  /** reloc holds the new places of the instructions from i on. */
  ghost predicate Filled(r: seq<nat>, pass: Pass, p: Program, i: nat)
  {
    |p| <= |r| && forall k: nat :: i <= k < |p| ==> r[k] == Reloc(pass, p, k)
  }

  lemma {:induction false} FillOne(r: seq<nat>, r': seq<nat>, pass: Pass, p: Program, i: nat)
    requires Filled(r, pass, p, i + 1) && i < |p| && r' == r[i := Reloc(pass, p, i)]
    ensures Filled(r', pass, p, i)
  {
  }

  lemma {:induction false} FinishNone(raw: Program, q: Program)
    ensures q[..0] + raw[0..] == raw
  {
  }

  lemma {:induction false} FinishAll(raw: Program, q: Program)
    requires |raw| == |q|
    ensures q[..|q|] + raw[|q|..] == q
  {
  }

  lemma {:induction false} FinishOne(raw: Program, q: Program, i: nat)
    requires i < |raw| == |q|
    ensures (q[..i] + raw[i..])[i := q[i]] == q[..i + 1] + raw[i + 1..]
  {
  }

  lemma {:induction false} MovedUp(a: Program, b: Program, d: nat, e: nat, total: nat, i: nat)
    requires i <= d <= e <= total <= |a| && |b| == |a| && b[..d] == a[..d] && b[e..] == a[e..]
    ensures b[d..total] == b[d..e] + a[e..total] && b[..i] == a[..i]
  {
    assert b[e..total] == b[e..][..total - e] == a[e..][..total - e] == a[e..total];
    assert b[..i] == b[..d][..i];
  }

  function Extra(pass: Pass): nat { if pass.MemoryOps? then 1 else 2 }

  /** What `remove_dslots` asserts about its input. */
  predicate Slotted(q: Program)
  {
    forall x: nat :: x < |q| ==> SlotOk(q, x)
  }

  predicate SlotOk(q: Program, x: nat)
    requires x < |q|
  {
    && InDelay !in q[x].typ && BBStart !in q[x].typ
    && (IsBranch(q[x]) ==> 1 <= x && x + 1 < |q| && !IsBranch(q[x + 1]) && !q[x].op1.Register?)
  }

  class Loader {
    const insn: array<Insn>
    const reloc: array<nat>
    var num: nat

    predicate Valid()
      reads this
    {
      insn.Length == MAX_INSNS && reloc.Length == MAX_INSNS && num <= MAX_INSNS
    }

    function Code(): Program
      requires Valid()
      reads this, insn
    {
      insn[..num]
    }

    method CountExpanding(pass: Pass) returns (count: nat)
      requires Valid()
      ensures Reloc(pass, Code(), num) == num + Extra(pass) * count
    {
      count := 0;
      for i := 0 to num
        invariant Reloc(pass, Code(), i) == i + Extra(pass) * count
      {
        if Expands(pass, insn[i]) {
          assert Extra(pass) * (count + 1) == Extra(pass) * count + Extra(pass);
          count := count + 1;
        }
      }
    }

    /** The three instructions of a branch, written downwards below e. */
    method WriteBranch(i: nat, e: nat)
      requires Valid() && i < num && i + 3 <= e <= insn.Length && Expands(Branches, insn[i])
      modifies insn
      ensures insn[e - 3..e] == RawGroup(Branches, old(insn[i]), i, e - 3)
      ensures insn[..e - 3] == old(insn[..e - 3]) && insn[e..] == old(insn[e..])
    {
      insn[e - 1] := insn[i];
      if insn[e - 1].op1.Register? {
        insn[e - 1] := insn[e - 1].(op1 := Ref(i));
      }
      insn[e - 2] := NOP;
      var neg := Flag1 in insn[i].typ;
      insn[e - 3] := Insn(Cmov, {Cond}, Dest(-1), Const(if neg then 0 else 1), Const(if neg then 1 else 0),
                          Register(FLAG_REG));
    }

    /** The address and the access of a memory operation. */
    method WriteMemory(i: nat, e: nat)
      requires Valid() && i < num && i + 2 <= e <= insn.Length && Expands(MemoryOps, insn[i])
      modifies insn
      ensures insn[e - 2..e] == RawGroup(MemoryOps, old(insn[i]), i, e - 2)
      ensures insn[..e - 2] == old(insn[..e - 2]) && insn[e..] == old(insn[e..])
    {
      var o, d := insn[i], e - 2;
      var typ := o.typ * {InDelay, BBStart} + {MemAdd};
      if IsStore(o.index) {
        insn[d + 1] := o.(op0 := o.op2, op1 := Ref(d), op2 := NoOp, typ := o.typ - {BBStart});
        insn[d] := o.(index := Add, typ := typ, op0 := Dest(-1), op2 := o.op0, op3 := NoOp);
      } else {
        insn[d + 1] := o.(op1 := Ref(d), op2 := NoOp, op3 := NoOp, typ := o.typ - {BBStart});
        insn[d] := o.(index := Add, typ := typ, op0 := Dest(-1));
      }
    }

    /** The two offsets and the compare of a signed compare. */
    method WriteSigned(i: nat, e: nat)
      requires Valid() && i < num && i + 3 <= e <= insn.Length && Expands(SignedOps, insn[i])
      modifies insn
      ensures insn[e - 3..e] == RawGroup(SignedOps, old(insn[i]), i, e - 3)
      ensures insn[..e - 3] == old(insn[..e - 3]) && insn[e..] == old(insn[e..])
    {
      insn[e - 1] := insn[i].(op1 := Ref(e - 3), op2 := Ref(e - 2));
      insn[e - 2] := Insn(Add, {}, Dest(-1), insn[i].op2, Const(0x8000_0000), NoOp);
      insn[e - 3] := Insn(Add, {}, Dest(-1), insn[i].op1, Const(0x8000_0000), NoOp);
    }

    method WriteGroup(pass: Pass, i: nat, e: nat) returns (d: nat)
      requires Valid() && i < num && i + GroupSize(pass, insn[i]) <= e <= insn.Length
      modifies insn
      ensures d + GroupSize(pass, old(insn[i])) == e && i <= d
      ensures insn[d..e] == RawGroup(pass, old(insn[i]), i, d)
      ensures insn[..d] == old(insn[..d]) && insn[e..] == old(insn[e..])
    {
      d := e - GroupSize(pass, insn[i]);
      if !Expands(pass, insn[i]) {
        insn[d] := insn[i];
      } else {
        match pass
        case Branches => WriteBranch(i, e);
        case MemoryOps => WriteMemory(i, e);
        case SignedOps => WriteSigned(i, e);
      }
    }

    method MoveOne(pass: Pass, ghost p: Program, i: nat, e: nat, ghost total: nat) returns (d: nat)
      requires Valid() && i < num == |p| && e == Reloc(pass, p, i + 1) <= total == Reloc(pass, p, |p|) <= insn.Length
      requires insn[..i + 1] == p[..i + 1] && insn[e..total] == RawFrom(pass, p, i + 1)
      modifies insn
      ensures d == Reloc(pass, p, i)
      ensures insn[..i] == p[..i] && insn[d..total] == RawFrom(pass, p, i)
    {
      ghost var before := insn[..];
      assert insn[i] == insn[..i + 1][i] == p[i];
      assert insn[..i] == insn[..i + 1][..i] == p[..i];
      d := WriteGroup(pass, i, e);
      MovedUp(before, insn[..], d, e, total, i);
    }

    method MoveUp(pass: Pass, total: nat)
      requires Valid() && total == Reloc(pass, Code(), num) < MAX_INSNS
      modifies insn, reloc
      ensures insn[..total] == RawFrom(pass, old(Code()), 0)
      ensures Filled(reloc[..], pass, old(Code()), 0)
    {
      ghost var p := Code();
      var i: nat, d: nat := num, total;
      while i > 0
        invariant i <= num && d == Reloc(pass, p, i) <= total
        invariant insn[..i] == p[..i]
        invariant insn[d..total] == RawFrom(pass, p, i)
        invariant Filled(reloc[..], pass, p, i)
      {
        i := i - 1;
        d := MoveOne(pass, p, i, d, total);
        ghost var r := reloc[..];
        reloc[i] := d;
        FillOne(r, reloc[..], pass, p, i);
      }
    }

    method Relocate(ghost p: Program, ghost pass: Pass, o: Operand) returns (r: Operand)
      requires InRange(p, o) && Filled(reloc[..], pass, p, 0)
      ensures r == RelocOp(pass, p, o)
    {
      r := if o.Ref? then Ref(reloc[o.ref]) else if o.Jump? then Jump(reloc[o.target]) else o;
    }

    method FinishInsn(pass: Pass, ghost p: Program, o: Insn) returns (r: Insn)
      requires Filled(reloc[..], pass, p, 0)
      requires Skipped(pass, o) || Operands(p, o)
      ensures r == Finish(pass, p, o)
    {
      r := o;
      if !Skipped(pass, o) {
        var op0 := Relocate(p, pass, o.op0);
        var op1 := Relocate(p, pass, o.op1);
        var op2 := Relocate(p, pass, o.op2);
        var op3 := Relocate(p, pass, o.op3);
        r := Insn(o.index, o.typ, op0, op1, op2, op3);
      } else if pass.SignedOps? {
        r := o.(typ := o.typ - {Signed});
      }
    }

    method RelocateOperands(pass: Pass, ghost p: Program, total: nat, ghost raw: Program, ghost q: Program)
      requires Valid() && total < MAX_INSNS && |raw| == |q| == total
      requires Filled(reloc[..], pass, p, 0)
      requires insn[..total] == raw && forall x: nat :: x < total ==> Finishes(pass, p, raw[x], q[x])
      modifies insn
      ensures insn[..total] == q
    {
      FinishNone(raw, q);
      for i := 0 to total
        invariant insn[..total] == q[..i] + raw[i..]
      {
        assert Finishes(pass, p, raw[i], q[i]);
        RelocateInsn(pass, p, i, total, raw, q);
      }
      FinishAll(raw, q);
    }

    method RelocateInsn(pass: Pass, ghost p: Program, i: nat, ghost total: nat, ghost raw: Program, ghost q: Program)
      requires Valid() && i < total < MAX_INSNS && |raw| == |q| == total && Filled(reloc[..], pass, p, 0)
      requires insn[..total] == q[..i] + raw[i..] && Finishes(pass, p, raw[i], q[i])
      modifies insn
      ensures insn[..total] == q[..i + 1] + raw[i + 1..]
    {
      assert insn[i] == insn[..total][i] == raw[i];
      var r := FinishInsn(pass, p, insn[i]);
      insn[i] := r;
      assert insn[..total] == (q[..i] + raw[i..])[i := r];
      FinishOne(raw, q, i);
    }

    /** `expand_branch`, `expand_memory` and `expand_signed`. */
    method Expand(pass: Pass)
      requires Valid() && Closed(Code()) && Reloc(pass, Code(), num) < MAX_INSNS
      modifies this, insn, reloc
      ensures Valid() && num == Reloc(pass, old(Code()), old(num))
      ensures Code() == Expanded(pass, old(Code()), old(num))
      ensures Filled(reloc[..], pass, old(Code()), 0)
    {
      ghost var p := Code();
      var count := CountExpanding(pass);
      var total := num + Extra(pass) * count;
      MoveUp(pass, total);
      ghost var raw, q := RawFrom(pass, p, 0), Expanded(pass, p, |p|);
      forall x: nat | x < total
        ensures Finishes(pass, p, raw[x], q[x])
      {
        RawFinished(pass, p, x);
      }
      RelocateOperands(pass, p, total, raw, q);
      num := total;
    }

    /** `remove_dslots`. */
    method RemoveDslots()
      requires Valid() && Slotted(Code())
      modifies insn
      ensures Code() == Swapped(old(Code()))
    {
      ghost var q := Code();
      ghost var u := Swapped(q);
      var inDelay := false;
      for i := 0 to num
        invariant inDelay == (i > 0 && IsBranch(q[i - 1]))
        invariant forall x :: i <= x < num ==> insn[x] == q[x]
        invariant forall x :: 0 <= x < (if inDelay then i - 1 else i) ==> insn[x] == u[x]
        invariant inDelay ==> insn[i - 1] == q[i - 1]
      {
        assert SlotOk(q, i) && (i > 0 ==> SlotOk(q, i - 1));
        if inDelay {
          insn[i] := insn[i].(typ := insn[i].typ + {InDelay});
        }
        inDelay := Branch in insn[i].typ;
        if InDelay in insn[i].typ {
          insn[i] := insn[i].(typ := insn[i].typ - {InDelay});
          assert insn[i] == q[i];
          insn[i], insn[i - 1] := insn[i - 1], insn[i];
        }
      }
      assert num > 0 ==> SlotOk(q, num - 1);
    }

    /** The lowering part of `cuc_load`, for code without calls. */
    method Lower()
      requires Valid() && Loaded(Code()) && |Lowered(Code())| < MAX_INSNS
      modifies this, insn, reloc
      ensures Valid() && Code() == Lowered(old(Code()))
    {
      ghost var p := Code();
      SizesFit(p);
      LoadedClosed(p);
      Expand(Branches);
      ExpandedSlotted(p, Code());
      RemoveDslots();
      UndelayedLowerable(MemoryOps, p);
      UndelayedLowerable(SignedOps, p);
      LowerableClosed(MemoryOps, Code());
      Expand(MemoryOps);
      SplitLowerable(Undelayed(p));
      LowerableClosed(SignedOps, Code());
      Expand(SignedOps);
    }
  }

  lemma {:induction false} SizesFit(p: Program)
    ensures var e, u, v := Expanded(Branches, p, |p|), Undelayed(p), Split(p);
            |e| == |u| <= |v| <= |Lowered(p)|
  {
  }

  lemma {:induction false} LoadedClosed(p: Program)
    requires Loaded(p)
    ensures Closed(p)
  {
    forall k: nat | k < |p|
      ensures Operands(p, p[k])
    {
      assert LoadedInsn(p, k);
    }
  }

  lemma {:induction false} LowerableClosed(pass: Pass, p: Program)
    requires Lowerable(pass, p)
    ensures Closed(p)
  {
    forall k: nat | k < |p|
      ensures Operands(p, p[k])
    {
      assert InsnOk(pass, p, p[k]);
    }
  }

  lemma {:induction false} PlainSlotOk(e: Program, d: nat, i: Insn)
    requires d < |e| && e[d] == i && InDelay !in i.typ && BBStart !in i.typ && !IsBranch(i)
    ensures SlotOk(e, d)
  {
  }

  lemma {:induction false} RewiredSlotOk(p: Program, e: Program, d: nat, i: Insn)
    requires d + 3 < |e| && i.op0.Jump? && i.op0.target < |p| && e[d + 2] == RewiredBranch(p, i, d)
    requires InDelay !in i.typ && BBStart !in i.typ && !IsBranch(e[d + 3])
    ensures SlotOk(e, d + 2)
  {
  }

  lemma {:induction false} SlottedAt(p: Program, e: Program, x: nat)
    requires Loaded(p) && e == Expanded(Branches, p, |p|) && x < |e|
    ensures SlotOk(e, x)
  {
    var k, j := GroupOf(Branches, p, |p|, x);
    assert LoadedInsn(p, k);
    if !IsBranch(p[k]) {
      PlainGroup(p, k);
      PlainSlotOk(e, x, p[k]);
    } else {
      SlottedBranch(p, e, k, j, Reloc(Branches, p, k), x);
    }
  }

  lemma {:induction false} SlottedBranch(p: Program, e: Program, k: nat, j: nat, d: nat, x: nat)
    requires Loaded(p) && e == Expanded(Branches, p, |p|) && k < |p| && x < |e| && IsBranch(p[k]) && LoadedInsn(p, k)
    requires j < GroupSize(Branches, p[k]) && d == Reloc(Branches, p, k) && x == d + j
    ensures SlotOk(e, x)
  {
    BranchGroup(p, k);
    PlainGroup(p, k + 1);
    BranchPartOk(p, e, d, p[k], j, x);
  }

  lemma {:induction false} BranchPartOk(p: Program, e: Program, d: nat, i: Insn, j: nat, x: nat)
    requires d + 3 < |e| && j < 3 && x == d + j && InDelay !in i.typ && BBStart !in i.typ && i.op0.Jump? && i.op0.target < |p|
    requires e[d] == SavedCondition(i) && e[d + 1] == NOP && e[d + 2] == RewiredBranch(p, i, d) && !IsBranch(e[d + 3])
    ensures SlotOk(e, x)
  {
    if j == 2 {
      RewiredSlotOk(p, e, d, i);
    } else {
      PlainSlotOk(e, x, if j == 0 then SavedCondition(i) else NOP);
    }
  }

  /** The assertions of `remove_dslots` hold after `expand_branch`. */
  lemma {:induction false} ExpandedSlotted(p: Program, e: Program)
    requires Loaded(p) && e == Expanded(Branches, p, |p|)
    ensures Slotted(e)
  {
    forall x: nat | x < |e|
      ensures SlotOk(e, x)
    {
      SlottedAt(p, e, x);
    }
  }
}
