/** The flags of lowered code (cuc/load.c): later passes rely on what marks an instruction as
    volatile, as output, as a condition or as the address of an access. */
module LoweredFlags {
  import opened CucInsn
  import opened Lowering
  import opened DelaySlots

  /** Where one pass leaves what instruction k does: the last of its group. */
  function Home(pass: Pass, p: Program, k: nat): (x: nat)
    requires k < |p|
    ensures x < |Expanded(pass, p, |p|)|
  {
    var j := GroupSize(pass, p[k]) - 1;
    GroupAt(pass, p, k, |p|, j);
    Reloc(pass, p, k) + j
  }

  /** Where the two passes over branches leave instruction k: a branch and its slot change places. */
  function SlotHome(p: Program, k: nat): (x: nat)
    requires Loaded(p) && k < |p|
    ensures x < |Undelayed(p)|
  {
    if IsBranch(p[k]) then BranchLayout(p, k); Reloc(Branches, p, k) + 3
    else if IsSlot(p, k) then BranchLayout(p, k - 1); Reloc(Branches, p, k - 1) + 2
    else PlainLayout(p, k); Reloc(Branches, p, k)
  }

  /** Where all of them do. */
  function FinalHome(p: Program, k: nat): (x: nat)
    requires Loaded(p) && k < |p|
    ensures x < |Lowered(p)|
  {
    Home(SignedOps, Split(p), Home(MemoryOps, Undelayed(p), SlotHome(p, k)))
  }

  lemma {:induction false} SlotHomeIs(p: Program, k: nat)
    requires Loaded(p) && k < |p|
    ensures var i := Undelayed(p)[SlotHome(p, k)]; i.index == p[k].index && i.typ == p[k].typ
  {
    if IsBranch(p[k]) {
      BranchLayout(p, k);
    } else if IsSlot(p, k) {
      BranchLayout(p, k - 1);
    } else {
      PlainLayout(p, k);
    }
  }

  /** Element j of the group of instruction k. */
  lemma {:induction false} ElementIs(pass: Pass, p: Program, k: nat, j: nat, q: Program)
    requires k < |p| && j < GroupSize(pass, p[k]) && q == Expanded(pass, p, |p|)
    ensures Reloc(pass, p, k) + j < |q|
    ensures q[Reloc(pass, p, k) + j] == Finish(pass, p, RawGroup(pass, p[k], k, Reloc(pass, p, k))[j])
  {
    GroupAt(pass, p, k, |p|, j);
  }

  /** What a pass over memory operations or compares makes of the flags. */
  function Kept(pass: Pass, i: Insn): set<TypeFlag>
  {
    if !Expands(pass, i) then i.typ else if pass.MemoryOps? then i.typ - {BBStart} else i.typ - {Signed}
  }

  lemma {:induction false} HomeIs(pass: Pass, p: Program, k: nat, q: Program)
    requires !pass.Branches? && k < |p| && q == Expanded(pass, p, |p|)
    ensures var x := Home(pass, p, k); x < |q| && q[x].index == p[k].index && q[x].typ == Kept(pass, p[k])
  {
    ElementIs(pass, p, k, GroupSize(pass, p[k]) - 1, q);
  }

  /** Each loaded instruction is found in the lowered code with all of its flags, except that a
      compare is no longer signed. */
  lemma {:induction false} FlagsKept(p: Program, k: nat)
    requires Loaded(p) && k < |p|
    ensures var i := Lowered(p)[FinalHome(p, k)];
            && i.index == p[k].index
            && i.typ == if Signed in p[k].typ && Memory !in p[k].typ then p[k].typ - {Signed} else p[k].typ
  {
    var u, v := Undelayed(p), Split(p);
    var x := SlotHome(p, k);
    SlotHomeIs(p, k);
    HomeIs(MemoryOps, u, x, v);
    HomeIs(SignedOps, v, Home(MemoryOps, u, x), Lowered(p));
    assert LoadedInsn(p, k);
  }

  /** The address of an access is computed by an instruction that carries MemAdd and nothing else. */
  lemma {:induction false} AddressMarked(p: Program, k: nat)
    requires Loaded(p) && k < |p| && Memory in p[k].typ
    ensures var q := Lowered(p);
            var i := q[FinalHome(p, k)];
            i.op1.Ref? && i.op1.ref < FinalHome(p, k) && q[i.op1.ref].index == Add && q[i.op1.ref].typ == {MemAdd}
  {
    var u, v, x := Undelayed(p), Split(p), SlotHome(p, k);
    SlotHomeIs(p, k);
    assert LoadedInsn(p, k);
    UndelayedLowerable(MemoryOps, p);
    SplitMarked(u, x, v);
    PairKept(v, Reloc(MemoryOps, u, x), Lowered(p));
  }

  /** The pass over compares leaves an access and its address as they are. */
  lemma {:induction false} PairKept(v: Program, d: nat, q: Program)
    requires d + 1 < |v| && v[d].index == Add && v[d].typ == {MemAdd} && Memory in v[d + 1].typ && v[d + 1].op1 == Ref(d)
    requires q == Expanded(SignedOps, v, |v|)
    ensures var i := q[Home(SignedOps, v, d + 1)];
            && i.op1.Ref? && i.op1.ref < Home(SignedOps, v, d + 1) && q[i.op1.ref].index == Add && q[i.op1.ref].typ == {MemAdd}
  {
    ElementIs(SignedOps, v, d, 0, q);
    ElementIs(SignedOps, v, d + 1, 0, q);
    assert Reloc(SignedOps, v, d + 1) == Reloc(SignedOps, v, d) + 1;
  }

  lemma {:induction false} SplitMarked(u: Program, x: nat, v: Program)
    requires Lowerable(MemoryOps, u) && x < |u| && Memory in u[x].typ && InDelay !in u[x].typ && BBStart !in u[x].typ
    requires v == Expanded(MemoryOps, u, |u|)
    ensures var d := Reloc(MemoryOps, u, x);
            && Home(MemoryOps, u, x) == d + 1 < |v| && v[d].index == Add && v[d].typ == {MemAdd} && Memory in v[d + 1].typ
            && v[d + 1].op1 == Ref(d)
  {
    assert InsnOk(MemoryOps, u, u[x]);
    ElementIs(MemoryOps, u, x, 0, v);
    ElementIs(MemoryOps, u, x, 1, v);
  }

  /** Instruction x is where some loaded one went. */
  ghost predicate IsHome(p: Program, x: nat)
    requires Loaded(p)
  {
    exists k: nat :: k < |p| && FinalHome(p, k) == x
  }

  ghost predicate IsSlotHome(p: Program, x: nat)
    requires Loaded(p)
  {
    exists k: nat :: k < |p| && SlotHome(p, k) == x
  }

  ghost predicate IsSplitHome(p: Program, x: nat)
    requires Loaded(p)
  {
    exists k: nat :: k < |p| && Home(MemoryOps, Undelayed(p), SlotHome(p, k)) == x
  }

  lemma {:induction false} SlotHomeOf(p: Program, z: nat)
    requires Loaded(p) && z < |Undelayed(p)|
    ensures Undelayed(p)[z].typ in {{}, {Cond}} || IsSlotHome(p, z)
  {
    var k, j := GroupOf(Branches, p, |p|, z);
    if IsBranch(p[k]) {
      BranchLayout(p, k);
      if j == 2 {
        assert SlotHome(p, k + 1) == z;
      }
    } else if IsSlot(p, k) {
      BranchLayout(p, k - 1);
      BranchGroup(p, k - 1);
      assert SlotHome(p, k - 1) == z;
    } else {
      assert SlotHome(p, k) == z;
    }
  }

  /** The flags of element j of a group. */
  lemma {:induction false} ElementFlags(pass: Pass, p: Program, k: nat, j: nat, q: Program)
    requires !pass.Branches? && k < |p| && j < GroupSize(pass, p[k]) && q == Expanded(pass, p, |p|)
    requires InDelay !in p[k].typ && BBStart !in p[k].typ
    ensures Reloc(pass, p, k) + j < |q|
    ensures q[Reloc(pass, p, k) + j].typ in {{}, {MemAdd}, p[k].typ} ||
            (pass.SignedOps? && Expands(pass, p[k]) && j == GroupSize(pass, p[k]) - 1)
    ensures j < GroupSize(pass, p[k]) - 1 ==> q[Reloc(pass, p, k) + j].typ in {{}, {MemAdd}}
  {
    ElementIs(pass, p, k, j, q);
    assert p[k].typ - {BBStart} == p[k].typ && p[k].typ * {InDelay, BBStart} + {MemAdd} == {MemAdd};
  }

  /** A place of the code without slots that no loaded instruction went to is not marked. */
  lemma {:induction false} SlotHomeClean(p: Program, z: nat)
    requires Loaded(p) && z < |Undelayed(p)|
    ensures InDelay !in Undelayed(p)[z].typ && BBStart !in Undelayed(p)[z].typ
    ensures Undelayed(p)[z].typ in {{}, {Cond}} || IsSlotHome(p, z)
  {
    SlotHomeOf(p, z);
    if IsSlotHome(p, z) {
      var k: nat :| k < |p| && SlotHome(p, k) == z;
      SlotHomeIs(p, k);
      assert LoadedInsn(p, k);
    }
  }

  lemma {:induction false} SplitHomeOf(p: Program, u: Program, y: nat, v: Program)
    requires Loaded(p) && u == Undelayed(p) && v == Split(p) && y < |v|
    ensures InDelay !in v[y].typ && BBStart !in v[y].typ
    ensures v[y].typ in {{}, {Cond}, {MemAdd}} || IsSplitHome(p, y)
  {
    var z, j := GroupOf(MemoryOps, u, |u|, y);
    SlotHomeClean(p, z);
    ElementFlags(MemoryOps, u, z, j, v);
    if v[y].typ !in {{}, {Cond}, {MemAdd}} {
      var k: nat :| k < |p| && SlotHome(p, k) == z;
      assert Home(MemoryOps, u, SlotHome(p, k)) == y;
    }
  }

  /** Nothing else in the lowered code is volatile, output, a branch or an access: it carries no
      flag, or that of a condition or of an address. */
  lemma {:induction false} NothingElseMarked(p: Program, x: nat)
    requires Loaded(p) && x < |Lowered(p)|
    ensures IsHome(p, x) || Lowered(p)[x].typ in {{}, {Cond}, {MemAdd}}
  {
    var u, v := Undelayed(p), Split(p);
    var y, j := GroupOf(SignedOps, v, |v|, x);
    SplitHomeOf(p, u, y, v);
    ElementFlags(SignedOps, v, y, j, Lowered(p));
    if Lowered(p)[x].typ !in {{}, {Cond}, {MemAdd}} {
      var k: nat :| k < |p| && Home(MemoryOps, u, SlotHome(p, k)) == y;
      assert FinalHome(p, k) == x;
    }
  }
}
