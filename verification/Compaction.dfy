/** What removing and inserting NOPs makes of the reference graph (cuc/insn.c). */
module Compaction {
  import opened Words
  import opened CucInsn
  import opened RefGraph

  /** An instruction with its list of dependencies. */
  datatype Item = Item(insn: Insn, dep: seq<nat>)

  type Code = Blocks<Item>

  predicate IsNop(i: Item) { i.insn.index.Nop? }

  predicate ItemRefs(f: Code, i: Item)
  {
    && (i.insn.op0.Ref? ==> ValidRef(f, i.insn.op0.ref)) && (i.insn.op1.Ref? ==> ValidRef(f, i.insn.op1.ref))
    && (i.insn.op2.Ref? ==> ValidRef(f, i.insn.op2.ref)) && (i.insn.op3.Ref? ==> ValidRef(f, i.insn.op3.ref))
    && forall k :: 0 <= k < |i.dep| ==> ValidRef(f, i.dep[k])
  }

  /** Operands and dependencies name instructions of f. */
  ghost predicate ClosedCode(f: Code)
  {
    forall r: nat :: ValidRef(f, r) ==> ItemRefs(f, At(f, r))
  }

  // -------------------------------------------------------------- compaction

  /** The instructions among the first i of a block that are not NOPs. */
  function Kept(blk: seq<Item>, i: nat): (k: nat)
    requires i <= |blk|
    ensures k <= i
  {
    if i == 0 then 0 else Kept(blk, i - 1) + (if IsNop(blk[i - 1]) then 0 else 1)
  }

  function Compact(blk: seq<Item>): (c: seq<Item>)
    ensures |c| == Kept(blk, |blk|)
  {
    if blk == [] then []
    else
      var n := |blk| - 1;
      KeptPrefix(blk, n, n);
      Compact(blk[..n]) + (if IsNop(blk[n]) then [] else [blk[n]])
  }

  lemma {:induction false} KeptPrefix(blk: seq<Item>, n: nat, i: nat)
    requires i <= n <= |blk|
    ensures Kept(blk[..n], i) == Kept(blk, i)
    decreases i
  {
    if i > 0 {
      KeptPrefix(blk, n, i - 1);
    }
  }

  lemma {:induction false} KeptGrows(blk: seq<Item>, i: nat, j: nat)
    requires i <= j <= |blk|
    ensures Kept(blk, i) <= Kept(blk, j)
    ensures i < j && !IsNop(blk[i]) ==> Kept(blk, i) < Kept(blk, j)
    decreases j
  {
    if i < j {
      KeptGrows(blk, i, j - 1);
    }
  }

  /** A kept instruction moves to the place its number of kept predecessors gives. */
  lemma {:induction false} CompactAt(blk: seq<Item>, i: nat)
    requires i < |blk| && !IsNop(blk[i])
    ensures Kept(blk, i) < |Compact(blk)| && Compact(blk)[Kept(blk, i)] == blk[i]
    decreases |blk|
  {
    var n := |blk| - 1;
    KeptPrefix(blk, n, if i < n then i else n);
    if i < n {
      CompactAt(blk[..n], i);
    }
  }

  /** Every place of the compacted block comes from one kept instruction. */
  lemma {:induction false} CompactFrom(blk: seq<Item>, k: nat) returns (i: nat)
    requires k < |Compact(blk)|
    ensures i < |blk| && !IsNop(blk[i]) && Kept(blk, i) == k
    decreases |blk|
  {
    var n := |blk| - 1;
    if k < |Compact(blk[..n])| {
      i := CompactFrom(blk[..n], k);
      KeptPrefix(blk, n, i);
    } else {
      i := n;
      KeptPrefix(blk, n, n);
    }
  }

  // -------------------------------------------------------------- relocation

  /** Where remove_nops sends reference r once the blocks below k are compacted. */
  function NewRef(f: Code, k: nat, r: nat): nat
  {
    var b := RefBB(r);
    if b < k && b < |f| && RefI(r) <= |f[b]| then MakeRef(b, Kept(f[b], RefI(r))) else r
  }

  function NewOperand(f: Code, k: nat, o: Operand): Operand
  {
    if o.Ref? then Ref(NewRef(f, k, o.ref)) else o
  }

  function NewDeps(f: Code, k: nat, dep: seq<nat>): (d: seq<nat>)
    ensures |d| == |dep|
  {
    seq(|dep|, j requires 0 <= j < |dep| => NewRef(f, k, dep[j]))
  }

  function NewItem(f: Code, k: nat, i: Item): Item
  {
    Item(Insn(i.insn.index, i.insn.typ, NewOperand(f, k, i.insn.op0), NewOperand(f, k, i.insn.op1),
              NewOperand(f, k, i.insn.op2), NewOperand(f, k, i.insn.op3)),
         NewDeps(f, k, i.dep))
  }

  function NewBlock(f: Code, k: nat, blk: seq<Item>): (c: seq<Item>)
    ensures |c| == |blk|
  {
    seq(|blk|, i requires 0 <= i < |blk| => NewItem(f, k, blk[i]))
  }

  /** The code once remove_nops has handled the blocks below k. */
  function Removing(f: Code, k: nat): (g: Code)
    ensures |g| == |f|
  {
    seq(|f|, b requires 0 <= b < |f| => NewBlock(f, k, if b < k then Compact(f[b]) else f[b]))
  }

  /** `remove_nops`. */
  function WithoutNops(f: Code): Code { Removing(f, |f|) }

  function NewPlace(f: Code, r: nat): nat { NewRef(f, |f|, r) }

  /** The compacted graph is the graph of the kept instructions, renamed: NewPlace maps
      kept instructions one to one onto the places of the new graph, and each place
      holds the kept instruction with its references renamed. */
  lemma {:induction false} KeptIsomorphic(f: Code, x: nat)
    requires Fits(f) && ValidRef(f, x) && !IsNop(At(f, x))
    ensures var g, y := WithoutNops(f), NewPlace(f, x);
            ValidRef(g, y) && At(g, y) == NewItem(f, |f|, At(f, x)) && RefBB(y) == RefBB(x)
  {
    var b, i := RefBB(x), RefI(x);
    CompactAt(f[b], i);
    KeptGrows(f[b], i, |f[b]|);
    RefParts(b, Kept(f[b], i));
  }

  /** o with its reference renamed. */
  predicate Renamed(f: Code, o: Operand, p: Operand) { if o.Ref? then p == Ref(NewPlace(f, o.ref)) else p == o }

  /** A kept instruction differs at its new place in its references only, which name the new places
      of what they named. */
  lemma {:induction false} KeptOperands(f: Code, x: nat)
    requires Fits(f) && ValidRef(f, x) && !IsNop(At(f, x))
    ensures var g, y := WithoutNops(f), NewPlace(f, x);
            ValidRef(g, y) &&
            var i, j := At(f, x), At(g, y);
            && j.insn.index == i.insn.index && j.insn.typ == i.insn.typ
            && Renamed(f, i.insn.op0, j.insn.op0) && Renamed(f, i.insn.op1, j.insn.op1)
            && Renamed(f, i.insn.op2, j.insn.op2) && Renamed(f, i.insn.op3, j.insn.op3)
            && |j.dep| == |i.dep| && forall k :: 0 <= k < |i.dep| ==> j.dep[k] == NewPlace(f, i.dep[k])
  {
    KeptIsomorphic(f, x);
  }

  /** The order within a block stays. */
  lemma {:induction false} KeptOrdered(f: Code, x: nat, y: nat)
    requires Fits(f) && ValidRef(f, x) && ValidRef(f, y) && RefBB(x) == RefBB(y) && x < y && !IsNop(At(f, x))
    ensures RefBB(NewPlace(f, x)) == RefBB(x) && NewPlace(f, x) < NewPlace(f, y)
  {
    var b := RefBB(x);
    assert RefI(x) < RefI(y);
    KeptGrows(f[b], RefI(x), RefI(y));
    RefParts(b, Kept(f[b], RefI(x)));
  }

  lemma {:induction false} KeptInjective(f: Code, x: nat, y: nat)
    requires Fits(f) && ValidRef(f, x) && ValidRef(f, y) && !IsNop(At(f, x)) && !IsNop(At(f, y))
    requires NewPlace(f, x) == NewPlace(f, y)
    ensures x == y
  {
    var b := RefBB(x);
    RefParts(b, Kept(f[b], RefI(x)));
    RefParts(RefBB(y), Kept(f[RefBB(y)], RefI(y)));
    if RefI(x) < RefI(y) {
      KeptGrows(f[b], RefI(x), RefI(y));
    } else if RefI(y) < RefI(x) {
      KeptGrows(f[b], RefI(y), RefI(x));
    }
  }

  lemma {:induction false} KeptBetween(blk: seq<Item>, i: nat, j: nat)
    requires i <= j <= |blk|
    ensures Kept(blk, i) == Kept(blk, j) <==> forall k :: i <= k < j ==> IsNop(blk[k])
    decreases j
  {
    if i < j {
      KeptBetween(blk, i, j - 1);
      KeptGrows(blk, i, j - 1);
    }
  }

  /** A reference to a NOP is sent where the next instruction of its block goes, and to no
      instruction when none follows. */
  lemma {:induction false} NopRetargeted(f: Code, r: nat)
    requires Fits(f) && ValidRef(f, r)
    ensures ValidRef(WithoutNops(f), NewPlace(f, r)) <==>
            exists j :: RefI(r) <= j < |f[RefBB(r)]| && !IsNop(f[RefBB(r)][j])
    ensures forall e: nat :: ValidRef(f, e) && RefBB(e) == RefBB(r) && RefI(r) <= RefI(e) ==>
              (NewPlace(f, e) == NewPlace(f, r) <==> forall j :: RefI(r) <= j < RefI(e) ==> IsNop(f[RefBB(r)][j]))
  {
    var b, blk := RefBB(r), f[RefBB(r)];
    RefParts(b, Kept(blk, RefI(r)));
    KeptBetween(blk, RefI(r), |blk|);
    KeptGrows(blk, RefI(r), |blk|);
    forall e: nat | ValidRef(f, e) && RefBB(e) == b && RefI(r) <= RefI(e)
      ensures NewPlace(f, e) == NewPlace(f, r) <==> forall j :: RefI(r) <= j < RefI(e) ==> IsNop(blk[j])
    {
      RefParts(b, Kept(blk, RefI(e)));
      KeptBetween(blk, RefI(r), RefI(e));
    }
  }

  lemma {:induction false} KeptOnto(f: Code, y: nat) returns (x: nat)
    requires Fits(f) && ValidRef(WithoutNops(f), y)
    ensures ValidRef(f, x) && !IsNop(At(f, x)) && NewPlace(f, x) == y
  {
    var b := RefBB(y);
    var i := CompactFrom(f[b], RefI(y));
    x := MakeRef(b, i);
    RefParts(b, i);
  }

  /** Relocating one block after the others below it composes to relocating them all. */
  function OneRef(b: nat, reloc: seq<nat>, r: nat): nat
  {
    if RefBB(r) == b && RefI(r) < |reloc| then MakeRef(b, reloc[RefI(r)]) else r
  }

  function OneOperand(b: nat, reloc: seq<nat>, o: Operand): Operand
  {
    if o.Ref? then Ref(OneRef(b, reloc, o.ref)) else o
  }

  function OneItem(b: nat, reloc: seq<nat>, i: Item): Item
  {
    Item(Insn(i.insn.index, i.insn.typ, OneOperand(b, reloc, i.insn.op0), OneOperand(b, reloc, i.insn.op1),
              OneOperand(b, reloc, i.insn.op2), OneOperand(b, reloc, i.insn.op3)),
         seq(|i.dep|, j requires 0 <= j < |i.dep| => OneRef(b, reloc, i.dep[j])))
  }

  predicate RelocOf(f: Code, k: nat, reloc: seq<nat>)
  {
    k < |f| && |reloc| == |f[k]| && forall i {:trigger reloc[i]} :: 0 <= i < |reloc| ==> reloc[i] == Kept(f[k], i)
  }

  lemma {:induction false} OneRefNext(f: Code, k: nat, reloc: seq<nat>, r: nat)
    requires Fits(f) && RelocOf(f, k, reloc) && ValidRef(f, r)
    ensures OneRef(k, reloc, NewRef(f, k, r)) == NewRef(f, k + 1, r)
  {
    var b := RefBB(r);
    if b < k {
      RefParts(b, Kept(f[b], RefI(r)));
    }
  }

  lemma {:induction false} OneItemNext(f: Code, k: nat, reloc: seq<nat>, i: Item)
    requires Fits(f) && RelocOf(f, k, reloc) && ItemRefs(f, i)
    ensures OneItem(k, reloc, NewItem(f, k, i)) == NewItem(f, k + 1, i)
  {
    if i.insn.op0.Ref? {
      OneRefNext(f, k, reloc, i.insn.op0.ref);
    }
    if i.insn.op1.Ref? {
      OneRefNext(f, k, reloc, i.insn.op1.ref);
    }
    if i.insn.op2.Ref? {
      OneRefNext(f, k, reloc, i.insn.op2.ref);
    }
    if i.insn.op3.Ref? {
      OneRefNext(f, k, reloc, i.insn.op3.ref);
    }
    forall j | 0 <= j < |i.dep|
      ensures OneRef(k, reloc, NewDeps(f, k, i.dep)[j]) == NewDeps(f, k + 1, i.dep)[j]
    {
      OneRefNext(f, k, reloc, i.dep[j]);
    }
  }

  // --------------------------------------------------------------- insertion

  function ShiftRef(b: nat, ins: nat, n: nat, r: nat): nat
  {
    if RefBB(r) == b && RefI(r) >= ins then MakeRef(b, RefI(r) + n) else r
  }

  function ShiftOperand(b: nat, ins: nat, n: nat, o: Operand): Operand
  {
    if o.Ref? then Ref(ShiftRef(b, ins, n, o.ref)) else o
  }

  function ShiftRefs(b: nat, ins: nat, n: nat, s: seq<nat>): (t: seq<nat>)
    ensures |t| == |s|
  {
    seq(|s|, j requires 0 <= j < |s| => ShiftRef(b, ins, n, s[j]))
  }

  function ShiftItem(b: nat, ins: nat, n: nat, i: Item): Item
  {
    Item(Insn(i.insn.index, i.insn.typ, ShiftOperand(b, ins, n, i.insn.op0), ShiftOperand(b, ins, n, i.insn.op1),
              ShiftOperand(b, ins, n, i.insn.op2), ShiftOperand(b, ins, n, i.insn.op3)),
         ShiftRefs(b, ins, n, i.dep))
  }

  function ShiftBlock(b: nat, ins: nat, n: nat, blk: seq<Item>): (c: seq<Item>)
    ensures |c| == |blk|
  {
    seq(|blk|, i requires 0 <= i < |blk| => ShiftItem(b, ins, n, blk[i]))
  }

  /** n NOPs in a block before its instruction ins. */
  function Widened(blk: seq<Item>, ins: nat, n: nat): (c: seq<Item>)
    requires ins <= |blk|
    ensures |c| == |blk| + n
  {
    blk[..ins] + seq(n, _ => Item(NOP, [])) + blk[ins..]
  }

  /** `insert_insns`: the code part. */
  function Inserted(f: Code, b: nat, ins: nat, n: nat): (g: Code)
    requires b < |f| && ins <= |f[b]|
    ensures |g| == |f|
  {
    seq(|f|, c requires 0 <= c < |f| => ShiftBlock(b, ins, n, if c == b then Widened(f[b], ins, n) else f[c]))
  }

  predicate NopFree(f: Code)
  {
    forall b, i :: 0 <= b < |f| && 0 <= i < |f[b]| ==> !IsNop(f[b][i])
  }

  lemma {:induction false} KeptAll(blk: seq<Item>, i: nat)
    requires i <= |blk| && forall j :: 0 <= j < i ==> !IsNop(blk[j])
    ensures Kept(blk, i) == i
  {
    if i > 0 {
      KeptAll(blk, i - 1);
    }
  }

  /** Places in a widened block, NOPs not counted. */
  lemma {:induction false} KeptWidened(blk: seq<Item>, ins: nat, n: nat, wide: seq<Item>, i: nat)
    requires ins <= |blk| && |wide| == |blk| + n && i <= |wide|
    requires forall j :: 0 <= j < |wide| ==> (IsNop(wide[j]) <==> ins <= j < ins + n)
    ensures Kept(wide, i) == if i <= ins then i else if i < ins + n then ins else i - n
    decreases i
  {
    if i > 0 {
      KeptWidened(blk, ins, n, wide, i - 1);
    }
  }

  lemma {:induction false} ShiftThenKept(f: Code, b: nat, ins: nat, n: nat, r: nat)
    requires b < |f| && ins <= |f[b]| && NopFree(f) && Fits(f) && |f[b]| + n < MAX_INSNS && ValidRef(f, r)
    ensures var g := Inserted(f, b, ins, n); NewRef(g, |g|, ShiftRef(b, ins, n, r)) == r
  {
    var g := Inserted(f, b, ins, n);
    var c, i := RefBB(r), RefI(r);
    if c == b {
      var k := if i >= ins then i + n else i;
      KeptBehind(f, b, ins, n, i, k, g);
      NewRefIs(g, b, k, i);
      assert r == MakeRef(b, i);
    } else {
      KeptAll(g[c], i);
    }
  }

  /** Where instruction i of the widened block goes when the NOPs are removed. */
  lemma {:induction false} KeptBehind(f: Code, b: nat, ins: nat, n: nat, i: nat, k: nat, g: Code)
    requires b < |f| && ins <= |f[b]| && NopFree(f) && i < |f[b]| && k == (if i >= ins then i + n else i)
    requires g == Inserted(f, b, ins, n)
    ensures b < |g| && k < |g[b]| == |f[b]| + n && Kept(g[b], k) == i
  {
    WidenedNops(f, b, ins, n);
    KeptWidened(f[b], ins, n, g[b], k);
  }

  lemma {:induction false} NewRefIs(g: Code, b: nat, k: nat, i: nat)
    requires b < |g| && k < |g[b]| && k < MAX_INSNS && Kept(g[b], k) == i
    ensures NewRef(g, |g|, MakeRef(b, k)) == MakeRef(b, i)
  {
    RefParts(b, k);
  }

  lemma {:induction false} WidenedNops(f: Code, b: nat, ins: nat, n: nat)
    requires b < |f| && ins <= |f[b]| && NopFree(f)
    ensures var w := Inserted(f, b, ins, n)[b];
            |w| == |f[b]| + n && forall j :: 0 <= j < |w| ==> (IsNop(w[j]) <==> ins <= j < ins + n)
  {
  }

  lemma {:induction false} ShiftThenNewItem(f: Code, b: nat, ins: nat, n: nat, i: Item)
    requires b < |f| && ins <= |f[b]| && NopFree(f) && Fits(f) && |f[b]| + n < MAX_INSNS && ItemRefs(f, i)
    ensures var g := Inserted(f, b, ins, n); NewItem(g, |g|, ShiftItem(b, ins, n, i)) == i
  {
    if i.insn.op0.Ref? {
      ShiftThenKept(f, b, ins, n, i.insn.op0.ref);
    }
    if i.insn.op1.Ref? {
      ShiftThenKept(f, b, ins, n, i.insn.op1.ref);
    }
    if i.insn.op2.Ref? {
      ShiftThenKept(f, b, ins, n, i.insn.op2.ref);
    }
    if i.insn.op3.Ref? {
      ShiftThenKept(f, b, ins, n, i.insn.op3.ref);
    }
    var g := Inserted(f, b, ins, n);
    var x := NewDeps(g, |g|, ShiftRefs(b, ins, n, i.dep));
    forall j | 0 <= j < |i.dep|
      ensures x[j] == i.dep[j]
    {
      ShiftThenKept(f, b, ins, n, i.dep[j]);
    }
  }

  /** Compaction takes the NOPs out of a widened block again. */
  lemma {:induction false} CompactWidened(f: Code, b: nat, ins: nat, n: nat, i: nat)
    requires b < |f| && ins <= |f[b]| && NopFree(f) && i < |f[b]|
    ensures var w := Compact(Inserted(f, b, ins, n)[b]); |w| == |f[b]| && w[i] == ShiftItem(b, ins, n, f[b][i])
  {
    WidenedNops(f, b, ins, n);
    var k := if i >= ins then i + n else i;
    assert Widened(f[b], ins, n)[k] == f[b][i];
    CompactOne(f[b], ins, n, Inserted(f, b, ins, n)[b], i);
  }

  lemma {:induction false} CompactOne(blk: seq<Item>, ins: nat, n: nat, w: seq<Item>, i: nat)
    requires ins <= |blk| && |w| == |blk| + n && i < |blk|
    requires forall j :: 0 <= j < |w| ==> (IsNop(w[j]) <==> ins <= j < ins + n)
    ensures |Compact(w)| == |blk| && Compact(w)[i] == w[if i >= ins then i + n else i]
  {
    var k := if i >= ins then i + n else i;
    KeptWidened(blk, ins, n, w, k);
    KeptWidened(blk, ins, n, w, |w|);
    CompactAt(w, k);
  }

  lemma {:induction false} CompactOther(f: Code, b: nat, ins: nat, n: nat, c: nat, i: nat)
    requires b < |f| && ins <= |f[b]| && NopFree(f) && c < |f| && c != b && i < |f[c]|
    ensures var w := Compact(Inserted(f, b, ins, n)[c]); |w| == |f[c]| && w[i] == ShiftItem(b, ins, n, f[c][i])
  {
    var w := Inserted(f, b, ins, n)[c];
    KeptAll(w, i);
    KeptAll(w, |w|);
    CompactAt(w, i);
  }

  /** Each instruction is back in its place with its references restored. */
  lemma {:induction false} RestoredAt(f: Code, b: nat, ins: nat, n: nat, c: nat, i: nat)
    requires b < |f| && ins <= |f[b]| && NopFree(f) && Fits(f) && |f[b]| + n < MAX_INSNS && ClosedCode(f)
    requires c < |f| && i < |f[c]|
    ensures var h := WithoutNops(Inserted(f, b, ins, n)); |h[c]| == |f[c]| && h[c][i] == f[c][i]
  {
    RefParts(c, i);
    assert At(f, MakeRef(c, i)) == f[c][i];
    if c == b {
      CompactWidened(f, b, ins, n, i);
    } else {
      CompactOther(f, b, ins, n, c, i);
    }
    ShiftThenNewItem(f, b, ins, n, f[c][i]);
  }

  /** Inserting n NOPs into code without NOPs and then removing NOPs restores every
      instruction, operand and dependency. */
  lemma {:induction false} InsertThenRemove(f: Code, b: nat, ins: nat, n: nat)
    requires b < |f| && ins <= |f[b]| && NopFree(f) && Fits(f) && |f[b]| + n < MAX_INSNS && ClosedCode(f)
    ensures WithoutNops(Inserted(f, b, ins, n)) == f
  {
    var h := WithoutNops(Inserted(f, b, ins, n));
    forall c: nat | c < |f|
      ensures h[c] == f[c]
    {
      RestoredLength(f, b, ins, n, c);
      forall i: nat | i < |f[c]|
        ensures h[c][i] == f[c][i]
      {
        RestoredAt(f, b, ins, n, c, i);
      }
    }
  }

  lemma {:induction false} RestoredLength(f: Code, b: nat, ins: nat, n: nat, c: nat)
    requires b < |f| && ins <= |f[b]| && NopFree(f) && c < |f|
    ensures |WithoutNops(Inserted(f, b, ins, n))[c]| == |f[c]|
  {
    var g := Inserted(f, b, ins, n);
    if c == b {
      WidenedNops(f, b, ins, n);
      KeptWidened(f[b], ins, n, g[b], |g[b]|);
    } else {
      KeptAll(g[c], |g[c]|);
    }
  }

  /** A schedule or a list of memory dependencies, which remove_nops does not touch,
      comes back exactly when nothing in it lies at or behind the insertion. */
  lemma {:induction false} ListRestored(b: nat, ins: nat, n: nat, s: seq<nat>)
    ensures ShiftRefs(b, ins, n, s) == s <==>
            n == 0 || forall j :: 0 <= j < |s| ==> !(RefBB(s[j]) == b && RefI(s[j]) >= ins)
  {
    var t := ShiftRefs(b, ins, n, s);
    forall j | 0 <= j < |s|
      ensures t[j] == s[j] <==> n == 0 || !(RefBB(s[j]) == b && RefI(s[j]) >= ins)
    {
      assert s[j] == MakeRef(RefBB(s[j]), RefI(s[j]));
    }
  }
}
