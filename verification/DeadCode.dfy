/** Dead-code removal over the reference graph (cuc/insn.c): marking from the roots, and
    the in-place compaction and insertion. */
module DeadCode {
  import opened CucInsn
  import opened RefGraph
  import opened Compaction

  datatype MemoryOrder = OrderNone | OrderWeak | OrderStrong | OrderExact

  // ------------------------------------------------------------- reachability

  function RefOf(o: Operand): set<nat> { if o.Ref? then {o.ref} else {} }

  /** The instructions that an instruction refers to. */
  function Targets(i: Insn): set<nat>
  {
    RefOf(i.op0) + RefOf(i.op1) + RefOf(i.op2) + RefOf(i.op3)
  }

  ghost predicate IsPath(f: Code, p: seq<nat>)
  {
    && p != [] && (forall k :: 0 <= k < |p| ==> ValidRef(f, p[k]))
    && (forall k :: 0 <= k < |p| - 1 ==> p[k + 1] in Targets(At(f, p[k]).insn))
  }

  /** A path of references leads from r to x. */
  ghost predicate Reaches(f: Code, r: nat, x: nat)
  {
    exists p :: IsPath(f, p) && p[0] == r && p[|p| - 1] == x
  }

  lemma {:induction false} ReachesSelf(f: Code, r: nat)
    requires ValidRef(f, r)
    ensures Reaches(f, r, r)
  {
    assert IsPath(f, [r]);
  }

  lemma {:induction false} ReachesFirst(f: Code, r: nat, q: nat, x: nat)
    requires ValidRef(f, r) && q in Targets(At(f, r).insn) && Reaches(f, q, x)
    ensures Reaches(f, r, x)
  {
    var p :| IsPath(f, p) && p[0] == q && p[|p| - 1] == x;
    var p' := [r] + p;
    assert IsPath(f, p') && p'[|p'| - 1] == x;
  }

  /** What may not be removed: volatile instructions, outputs, stores, and loads unless
      the memory order protects them otherwise. */
  predicate IsRoot(i: Insn, order: MemoryOrder)
  {
    Volatile in i.typ || Output in i.typ
    || (IsLoad(i.index) && (order.OrderNone? || order.OrderWeak?)) || IsStore(i.index)
  }

  /** Reachable from a root. */
  ghost predicate Live(f: Code, order: MemoryOrder, x: nat)
  {
    exists r :: ValidRef(f, r) && IsRoot(At(f, r).insn, order) && Reaches(f, r, x)
  }

  /** Every marked-as-used instruction's references are marked as used too. */
  ghost predicate ClosedUnder(f: Code, unused: set<nat>)
  {
    forall x: nat, q: nat :: ValidRef(f, x) && x !in unused && q in Targets(At(f, x).insn) ==> q !in unused
  }

  lemma {:induction false} PathStaysUsed(f: Code, unused: set<nat>, p: seq<nat>, k: nat)
    requires IsPath(f, p) && ClosedUnder(f, unused) && p[0] !in unused && k < |p|
    ensures p[k] !in unused
    decreases k
  {
    if k > 0 {
      PathStaysUsed(f, unused, p, k - 1);
    }
  }

  /** Instructions outside live become NOPs. */
  function Cleared(f: Code, live: set<nat>): (g: Code)
    ensures |g| == |f|
  {
    seq(|f|, b requires 0 <= b < |f| =>
      seq(|f[b]|, i requires 0 <= i < |f[b]| => if MakeRef(b, i) in live then f[b][i] else Item(NOP, [])))
  }

  ghost function LiveSet(f: Code, order: MemoryOrder): set<nat>
  {
    set x | x in Refs(f) && Live(f, order, x)
  }

  /** A live instruction refers to live instructions only, so none is lost that is used. */
  lemma {:induction false} LiveTargets(f: Code, order: MemoryOrder, x: nat, q: nat)
    requires ClosedCode(f) && ValidRef(f, x) && Live(f, order, x) && q in Targets(At(f, x).insn)
    ensures Live(f, order, q) && ValidRef(f, q)
  {
    assert ItemRefs(f, At(f, x));
    var r :| ValidRef(f, r) && IsRoot(At(f, r).insn, order) && Reaches(f, r, x);
    ReachesLast(f, r, x, q);
  }

  lemma {:induction false} ReachesLast(f: Code, r: nat, x: nat, q: nat)
    requires ValidRef(f, x) && ValidRef(f, q) && q in Targets(At(f, x).insn) && Reaches(f, r, x)
    ensures Reaches(f, r, q)
  {
    var p :| IsPath(f, p) && p[0] == r && p[|p| - 1] == x;
    var p' := p + [q];
    assert IsPath(f, p') && p'[0] == r && p'[|p'| - 1] == q;
  }

  function Operands(i: Insn): set<Operand> { {i.op0, i.op1, i.op2, i.op3} }

  /** Volatile instructions, outputs, stores, and under the two loose memory orders loads are live,
      and so is every operand of a live instruction ... */
  lemma {:induction false} LiveClosed(f: Code, order: MemoryOrder, x: nat)
    requires ClosedCode(f) && ValidRef(f, x)
    ensures var i := At(f, x).insn;
            Volatile in i.typ || Output in i.typ || IsStore(i.index) || (IsLoad(i.index) && order in {OrderNone, OrderWeak}) ==>
              Live(f, order, x)
    ensures forall o :: o in Operands(At(f, x).insn) && o.Ref? && Live(f, order, x) ==> Live(f, order, o.ref)
  {
    if IsRoot(At(f, x).insn, order) {
      ReachesSelf(f, x);
    }
    forall o | o in Operands(At(f, x).insn) && o.Ref? && Live(f, order, x)
      ensures Live(f, order, o.ref)
    {
      LiveTargets(f, order, x, o.ref);
    }
  }

  /** ... and nothing else: live instructions are in every set of which this is true. */
  lemma {:induction false} LiveLeast(f: Code, order: MemoryOrder, s: set<nat>, x: nat)
    requires ClosedCode(f) && Live(f, order, x)
    requires forall r: nat :: ValidRef(f, r) ==>
               var i := At(f, r).insn;
               Volatile in i.typ || Output in i.typ || IsStore(i.index) || (IsLoad(i.index) && order in {OrderNone, OrderWeak}) ==>
                 r in s
    requires forall y: nat :: y in s && ValidRef(f, y) ==> forall o :: o in Operands(At(f, y).insn) && o.Ref? ==> o.ref in s
    ensures x in s
  {
    var r :| ValidRef(f, r) && IsRoot(At(f, r).insn, order) && Reaches(f, r, x);
    var p :| IsPath(f, p) && p[0] == r && p[|p| - 1] == x;
    PathInside(f, s, p, |p| - 1);
  }

  lemma {:induction false} PathInside(f: Code, s: set<nat>, p: seq<nat>, k: nat)
    requires IsPath(f, p) && p[0] in s && k < |p|
    requires forall y: nat :: y in s && ValidRef(f, y) ==> forall o :: o in Operands(At(f, y).insn) && o.Ref? ==> o.ref in s
    ensures p[k] in s
  {
    if k > 0 {
      PathInside(f, s, p, k - 1);
      var i := At(f, p[k - 1]).insn;
      assert p[k] in Targets(i);
      var o :| o in Operands(i) && o == Ref(p[k]);
    }
  }

  lemma {:induction false} NothingMarked(f: Code)
    ensures ClosedUnder(f, Refs(f))
  {
    forall x: nat | ValidRef(f, x)
      ensures x in Refs(f)
    {
      RefInRefs(f, x);
    }
  }

  /** From the marks u to the marks w: only what r reaches is unmarked, with all it
      refers to. */
  ghost predicate Followed(f: Code, r: nat, u: set<nat>, w: set<nat>)
  {
    && w <= u && (forall x :: x in u && x !in w ==> Reaches(f, r, x))
    && (forall x: nat, q: nat :: ValidRef(f, x) && x in u && x !in w && q in Targets(At(f, x).insn) ==> q !in w)
  }

  lemma {:induction false} FollowedTwice(f: Code, r: nat, u: set<nat>, v: set<nat>, w: set<nat>)
    requires Followed(f, r, u, v) && Followed(f, r, v, w)
    ensures Followed(f, r, u, w)
  {
  }

  lemma {:induction false} FollowedSelf(f: Code, r: nat, u: set<nat>, w: set<nat>)
    requires ValidRef(f, r) && r in u && r !in w && Followed(f, r, u - {r}, w)
    requires forall q :: q in Targets(At(f, r).insn) ==> q !in w
    ensures Followed(f, r, u, w)
  {
    ReachesSelf(f, r);
  }

  lemma {:induction false} RefInCode(f: Code, b: nat, i: nat)
    requires Fits(f) && b < |f| && i < |f[b]|
    ensures ValidRef(f, MakeRef(b, i)) && MakeRef(b, i) in Refs(f)
  {
    RefParts(b, i);
    RefInRefs(f, MakeRef(b, i));
  }

  lemma {:induction false} WidenedIs(blk: seq<Item>, ins: nat, n: nat, wide: seq<Item>)
    requires ins <= |blk| && |wide| == |blk| + n
    requires (forall j :: 0 <= j < ins ==> wide[j] == blk[j]) && (forall j :: ins <= j < |blk| ==> wide[j + n] == blk[j])
    requires forall j :: ins <= j < ins + n ==> wide[j] == Item(NOP, [])
    ensures wide == Widened(blk, ins, n)
  {
    var w := Widened(blk, ins, n);
    forall j | 0 <= j < |w|
      ensures wide[j] == w[j]
    {
      if j >= ins + n {
        assert wide[(j - n) + n] == blk[j - n];
      }
    }
  }

  lemma {:induction false} CompactNext(was: seq<Item>, i: nat)
    requires i < |was|
    ensures Compact(was[..i + 1]) == Compact(was[..i]) + (if IsNop(was[i]) then [] else [was[i]])
    ensures |Compact(was[..i])| == Kept(was, i)
  {
    assert was[..i + 1][..i] == was[..i];
    KeptPrefix(was, i, i);
  }

  lemma {:induction false} AppendKept(blk: seq<Item>, d: nat, i: nat)
    requires d <= i < |blk|
    ensures blk[d := blk[i]][..d + 1] == blk[..d] + [blk[i]]
  {
  }

  lemma {:induction false} NothingRemoved(f: Code)
    ensures Removing(f, 0) == f
  {
    var g := Removing(f, 0);
    forall b | 0 <= b < |f|
      ensures g[b] == f[b]
    {
      forall i | 0 <= i < |f[b]|
        ensures g[b][i] == f[b][i]
      {
        assert NewDeps(f, 0, f[b][i].dep) == f[b][i].dep;
      }
    }
  }

  /** Relocation does not change which instructions are NOPs. */
  lemma {:induction false} SameNops(f: Code, b: nat)
    requires b < |f|
    ensures var blk := Removing(f, b)[b];
            |blk| == |f[b]| && (forall i :: 0 <= i < |blk| ==> IsNop(blk[i]) == IsNop(f[b][i]))
            && (forall i: nat :: i <= |blk| ==> Kept(blk, i) == Kept(f[b], i))
  {
    var blk := Removing(f, b)[b];
    forall i: nat | i <= |blk|
      ensures Kept(blk, i) == Kept(f[b], i)
    {
      KeptSame(blk, f[b], i);
    }
  }

  lemma {:induction false} KeptSame(x: seq<Item>, y: seq<Item>, i: nat)
    requires i <= |x| == |y| && forall j :: 0 <= j < |x| ==> IsNop(x[j]) == IsNop(y[j])
    ensures Kept(x, i) == Kept(y, i)
  {
    if i > 0 {
      KeptSame(x, y, i - 1);
    }
  }

  /** Compacting a relocated block is relocating the compacted block. */
  lemma {:induction false} CompactRelocated(f: Code, k: nat, blk: seq<Item>)
    ensures Compact(NewBlock(f, k, blk)) == NewBlock(f, k, Compact(blk))
    decreases |blk|
  {
    if blk != [] {
      var n := |blk| - 1;
      CompactRelocated(f, k, blk[..n]);
      assert NewBlock(f, k, blk)[..n] == NewBlock(f, k, blk[..n]);
      NewBlockLast(f, k, Compact(blk[..n]), blk[n]);
    }
  }

  lemma {:induction false} NewBlockLast(f: Code, k: nat, blk: seq<Item>, i: Item)
    ensures NewBlock(f, k, blk + [i]) == NewBlock(f, k, blk) + [NewItem(f, k, i)]
  {
  }

  lemma {:induction false} CompactMember(blk: seq<Item>, i: Item)
    requires i in Compact(blk)
    ensures i in blk
    decreases |blk|
  {
    var n := |blk| - 1;
    if i in Compact(blk[..n]) {
      CompactMember(blk[..n], i);
    }
  }

  lemma {:induction false} RemovedNext(f: Code, b: nat, reloc: seq<nat>, half: Code, g: Code)
    requires ClosedCode(f) && Fits(f) && RelocOf(f, b, reloc)
    requires half == Removing(f, b)[b := Compact(Removing(f, b)[b])] && |g| == |half|
    requires forall c :: 0 <= c < |g| ==>
               |g[c]| == |half[c]| && forall i :: 0 <= i < |g[c]| ==> g[c][i] == OneItem(b, reloc, half[c][i])
    ensures g == Removing(f, b + 1)
  {
    CompactRelocated(f, b, f[b]);
    var h := Removing(f, b + 1);
    forall c | 0 <= c < |f|
      ensures g[c] == h[c]
    {
      RemovedBlock(f, b, reloc, c, if c <= b then Compact(f[c]) else f[c], half[c], g[c]);
    }
  }

  lemma {:induction false} RemovedBlock(f: Code, b: nat, reloc: seq<nat>, c: nat, blk: seq<Item>, half: seq<Item>, g: seq<Item>)
    requires ClosedCode(f) && Fits(f) && RelocOf(f, b, reloc) && c < |f| && (blk == f[c] || blk == Compact(f[c]))
    requires half == NewBlock(f, b, blk) && |g| == |half|
    requires forall i :: 0 <= i < |g| ==> g[i] == OneItem(b, reloc, half[i])
    ensures g == NewBlock(f, b + 1, blk)
  {
    forall i | 0 <= i < |blk|
      ensures g[i] == NewItem(f, b + 1, blk[i])
    {
      if blk == Compact(f[c]) {
        CompactMember(f[c], blk[i]);
      }
      BlockRefs(f, c, blk[i]);
      OneItemNext(f, b, reloc, blk[i]);
    }
  }

  lemma {:induction false} BlockRefs(f: Code, c: nat, i: Item)
    requires ClosedCode(f) && Fits(f) && c < |f| && i in f[c]
    ensures ItemRefs(f, i)
  {
    var j :| 0 <= j < |f[c]| && f[c][j] == i;
    RefParts(c, j);
    assert At(f, MakeRef(c, j)) == i;
  }

  /** Some block below b loses instructions. */
  ghost predicate HasNops(f: Code, b: nat)
    requires b <= |f|
  {
    exists c :: 0 <= c < b && Kept(f[c], |f[c]|) != |f[c]|
  }

  lemma {:induction false} HasNopsNext(f: Code, b: nat)
    requires b < |f|
    ensures HasNops(f, b + 1) <==> HasNops(f, b) || Kept(f[b], |f[b]|) != |f[b]|
  {
  }

  lemma {:induction false} ModifiedExactly(f: Code)
    ensures HasNops(f, |f|) <==> !NopFree(f)
  {
    forall c | 0 <= c < |f|
      ensures Kept(f[c], |f[c]|) != |f[c]| <==> exists i :: 0 <= i < |f[c]| && IsNop(f[c][i])
    {
      KeptLoss(f[c], |f[c]|);
    }
  }

  lemma {:induction false} KeptLoss(blk: seq<Item>, n: nat)
    requires n <= |blk|
    ensures Kept(blk, n) != n <==> exists i :: 0 <= i < n && IsNop(blk[i])
  {
    if n > 0 {
      KeptLoss(blk, n - 1);
    }
  }

  lemma {:induction false} ClearedClosed(f: Code, live: set<nat>)
    requires ClosedCode(f) && Fits(f)
    ensures ClosedCode(Cleared(f, live)) && Fits(Cleared(f, live))
  {
    var g := Cleared(f, live);
    forall r: nat | ValidRef(g, r)
      ensures ItemRefs(g, At(g, r))
    {
      assert ItemRefs(f, At(f, r));
    }
  }

  /** Exactly the live instructions are kept when the others are cleared. */
  lemma {:induction false} ClearedExactly(f: Code, order: MemoryOrder, x: nat)
    requires ValidRef(f, x) && !IsNop(At(f, x))
    ensures var c := Cleared(f, LiveSet(f, order));
            ValidRef(c, x) && (IsNop(At(c, x)) <==> !Live(f, order, x)) && (Live(f, order, x) ==> At(c, x) == At(f, x))
  {
    RefInRefs(f, x);
    assert x == MakeRef(RefBB(x), RefI(x));
  }

  /** After remove_dead each live instruction is at its new place with its references
      renamed, and what it refers to is there too. */
  lemma {:induction false} DeadRemoved(f: Code, order: MemoryOrder, x: nat, c: Code, g: Code)
    requires ClosedCode(f) && Fits(f) && ValidRef(f, x) && !IsNop(At(f, x)) && Live(f, order, x)
    requires c == Cleared(f, LiveSet(f, order)) && g == WithoutNops(c)
    ensures ValidRef(g, NewPlace(c, x)) && At(g, NewPlace(c, x)) == NewItem(c, |c|, At(f, x))
    ensures forall q :: q in Targets(At(f, x).insn) ==>
              ValidRef(f, q) && Live(f, order, q) && (!IsNop(At(f, q)) ==> ValidRef(g, NewPlace(c, q)))
  {
    ClearedClosed(f, LiveSet(f, order));
    ClearedExactly(f, order, x);
    KeptIsomorphic(c, x);
    forall q | q in Targets(At(f, x).insn)
      ensures ValidRef(f, q) && Live(f, order, q) && (!IsNop(At(f, q)) ==> ValidRef(g, NewPlace(c, q)))
    {
      LiveTargets(f, order, x, q);
      if !IsNop(At(f, q)) {
        ClearedExactly(f, order, q);
        KeptIsomorphic(c, q);
      }
    }
  }

  /** remove_dead drops an instruction that is dead or a NOP already. */
  ghost predicate Dropped(f: Code, order: MemoryOrder, r: nat)
    requires ValidRef(f, r)
  {
    IsNop(At(f, r)) || !Live(f, order, r)
  }

  lemma {:induction false} ClearedNop(f: Code, order: MemoryOrder, r: nat)
    requires ValidRef(f, r)
    ensures var c := Cleared(f, LiveSet(f, order)); ValidRef(c, r) && (IsNop(At(c, r)) <==> Dropped(f, order, r))
  {
    RefInRefs(f, r);
    assert r == MakeRef(RefBB(r), RefI(r));
  }

  lemma {:induction false} DroppedSome(f: Code, order: MemoryOrder)
    requires Fits(f)
    ensures NopFree(Cleared(f, LiveSet(f, order))) <==> forall r: nat :: ValidRef(f, r) ==> !Dropped(f, order, r)
  {
    var c := Cleared(f, LiveSet(f, order));
    forall r: nat | ValidRef(f, r)
      ensures ValidRef(c, r) && (IsNop(At(c, r)) <==> Dropped(f, order, r))
    {
      ClearedNop(f, order, r);
    }
    forall b: nat, i: nat | b < |c| && i < |c[b]|
      ensures ValidRef(f, MakeRef(b, i)) && At(c, MakeRef(b, i)) == c[b][i]
    {
      RefParts(b, i);
    }
  }

  lemma {:induction false} DroppedAt(f: Code, order: MemoryOrder, b: nat, j: nat, r: nat)
    requires Fits(f) && b < |f| && j < |f[b]| && r == MakeRef(b, j)
    ensures ValidRef(f, r) && RefBB(r) == b && RefI(r) == j
    ensures IsNop(Cleared(f, LiveSet(f, order))[b][j]) <==> Dropped(f, order, r)
  {
    RefParts(b, j);
    ClearedNop(f, order, r);
  }

  /** x lies behind d in the same block. */
  predicate Behind(f: Code, d: nat, x: nat)
  {
    ValidRef(f, d) && ValidRef(f, x) && RefBB(x) == RefBB(d) && RefI(d) < RefI(x)
  }

  /** A dependency on a dropped instruction d comes to name the next instruction of d's
      block that is kept ... */
  lemma {:induction false} DependencyMoved(f: Code, order: MemoryOrder, d: nat, e: nat, c: Code)
    requires ClosedCode(f) && Fits(f) && Behind(f, d, e) && Dropped(f, order, d) && !Dropped(f, order, e)
    requires c == Cleared(f, LiveSet(f, order))
    ensures NewPlace(c, e) == NewPlace(c, d) <==>
            forall x: nat :: Behind(f, d, x) && RefI(x) < RefI(e) ==> Dropped(f, order, x)
  {
    ClearedClosed(f, LiveSet(f, order));
    NopRetargeted(c, d);
    var b := RefBB(d);
    if forall x: nat :: Behind(f, d, x) && RefI(x) < RefI(e) ==> Dropped(f, order, x) {
      forall j | RefI(d) <= j < RefI(e)
        ensures IsNop(c[b][j])
      {
        DroppedAt(f, order, b, j, MakeRef(b, j));
        assert j == RefI(d) ==> MakeRef(b, j) == d;
      }
    }
    forall x: nat | Behind(f, d, x) && RefI(x) < RefI(e) && !Dropped(f, order, x)
      ensures NewPlace(c, e) != NewPlace(c, d)
    {
      ClearedNop(f, order, x);
    }
  }

  lemma {:induction false} KeptBehind(f: Code, order: MemoryOrder, d: nat, c: Code)
    requires Fits(f) && ValidRef(f, d) && Dropped(f, order, d) && c == Cleared(f, LiveSet(f, order))
    ensures (exists j :: RefI(d) <= j < |c[RefBB(d)]| && !IsNop(c[RefBB(d)][j])) <==>
            exists x: nat :: Behind(f, d, x) && !Dropped(f, order, x)
  {
    var b := RefBB(d);
    if j :| RefI(d) <= j < |c[b]| && !IsNop(c[b][j]) {
      ClearedNop(f, order, d);
      DroppedAt(f, order, b, j, MakeRef(b, j));
      assert Behind(f, d, MakeRef(b, j));
    }
    if x: nat :| Behind(f, d, x) && !Dropped(f, order, x) {
      ClearedNop(f, order, x);
      assert !IsNop(c[b][RefI(x)]);
    }
  }

  /** ... and is left naming no instruction exactly when no kept one follows. */
  lemma {:induction false} DependencyDangles(f: Code, order: MemoryOrder, d: nat, c: Code)
    requires ClosedCode(f) && Fits(f) && ValidRef(f, d) && Dropped(f, order, d) && c == Cleared(f, LiveSet(f, order))
    ensures !ValidRef(WithoutNops(c), NewPlace(c, d)) <==> forall x: nat :: Behind(f, d, x) ==> Dropped(f, order, x)
  {
    ClearedClosed(f, LiveSet(f, order));
    NopRetargeted(c, d);
    KeptBehind(f, order, d, c);
  }

  class CodeFunc {
    var bb: Code
    /** The instructions marked IT_UNUSED. */
    var unused: set<nat>
    /** Memory dependencies of each block, and the memory schedule. */
    var mdep: seq<seq<nat>>
    var msched: seq<nat>
    const order: MemoryOrder

    /** `unmark_tree`: ends on cyclic graphs too, because a mark once cleared stays so. */
    method UnmarkTree(r: nat)
      requires ClosedCode(bb) && ValidRef(bb, r)
      modifies this`unused
      ensures Followed(bb, r, old(unused), unused) && r !in unused
      decreases unused, 1
    {
      if r in unused {
        ghost var u0 := unused;
        unused := unused - {r};
        assert ItemRefs(bb, At(bb, r));
        var i := At(bb, r).insn;
        ghost var u1 := unused;
        UnmarkOperand(r, i.op0);
        ghost var u2 := unused;
        UnmarkOperand(r, i.op1);
        FollowedTwice(bb, r, u1, u2, unused);
        u2 := unused;
        UnmarkOperand(r, i.op2);
        FollowedTwice(bb, r, u1, u2, unused);
        u2 := unused;
        UnmarkOperand(r, i.op3);
        FollowedTwice(bb, r, u1, u2, unused);
        FollowedSelf(bb, r, u0, unused);
      }
    }

    method UnmarkOperand(ghost r: nat, o: Operand)
      requires ClosedCode(bb) && ValidRef(bb, r) && (o.Ref? ==> ValidRef(bb, o.ref) && o.ref in Targets(At(bb, r).insn))
      modifies this`unused
      ensures Followed(bb, r, old(unused), unused) && (o.Ref? ==> o.ref !in unused)
      decreases unused, 2
    {
      if o.Ref? {
        UnmarkTree(o.ref);
        forall x | x in old(unused) && x !in unused
          ensures Reaches(bb, r, x)
        {
          ReachesFirst(bb, r, o.ref, x);
        }
      }
    }

    /** The marking loops of `remove_dead`. */
    method MarkUnused()
      requires ClosedCode(bb) && Fits(bb)
      modifies this`unused
      ensures forall x :: x in Refs(bb) ==> (x in unused <==> !Live(bb, order, x))
    {
      unused := Refs(bb);
      NothingMarked(bb);
      for b := 0 to |bb|
        invariant Marking(b, 0)
      {
        for i := 0 to |bb[b]|
          invariant Marking(b, i)
        {
          MarkRoot(b, i);
        }
      }
      Marked();
    }

    method MarkRoot(b: nat, i: nat)
      requires ClosedCode(bb) && Fits(bb) && b < |bb| && i < |bb[b]| && Marking(b, i)
      modifies this`unused
      ensures Marking(b, i + 1)
    {
      RefParts(b, i);
      if IsRoot(bb[b][i].insn, order) {
        UnmarkTree(MakeRef(b, i));
      }
    }

    /** The roots before instruction i of block b have been followed. */
    ghost predicate Marking(b: nat, i: nat)
      reads this
    {
      && ClosedUnder(bb, unused) && unused <= Refs(bb)
      && (forall x :: x in Refs(bb) && x !in unused ==> Live(bb, order, x))
      && (forall c: nat, j: nat :: c < |bb| && j < |bb[c]| && (c < b || (c == b && j < i)) && IsRoot(bb[c][j].insn, order) ==>
            MakeRef(c, j) !in unused)
    }

    lemma {:induction false} Marked()
      requires Marking(|bb|, 0)
      ensures forall x :: x in Refs(bb) ==> (x in unused <==> !Live(bb, order, x))
    {
      forall x | Live(bb, order, x)
        ensures x !in unused
      {
        var r :| ValidRef(bb, r) && IsRoot(At(bb, r).insn, order) && Reaches(bb, r, x);
        var p :| IsPath(bb, p) && p[0] == r && p[|p| - 1] == x;
        assert r == MakeRef(RefBB(r), RefI(r));
        PathStaysUsed(bb, unused, p, |p| - 1);
      }
    }

    /** The compaction loop of `remove_nops` for one block. */
    method CompactBlock(was: seq<Item>) returns (blk: seq<Item>, reloc: seq<nat>)
      ensures blk == Compact(was)
      ensures |reloc| == |was| && forall i {:trigger reloc[i]} :: 0 <= i < |reloc| ==> reloc[i] == Kept(was, i)
    {
      var d: nat := 0;
      blk, reloc := was, [];
      for i := 0 to |was|
        invariant |blk| == |was| && d == Kept(was, i) <= i && |reloc| == i
        invariant blk[..d] == Compact(was[..i]) && forall j :: i <= j < |was| ==> blk[j] == was[j]
        invariant forall j {:trigger reloc[j]} :: 0 <= j < i ==> reloc[j] == Kept(was, j)
      {
        CompactNext(was, i);
        reloc := reloc + [d];
        if !IsNop(blk[i]) {
          AppendKept(blk, d, i);
          blk := blk[d := blk[i]];
          d := d + 1;
        }
      }
      assert was[..|was|] == was;
      blk := blk[..d];
    }

    /** Relocates the references to block b from all blocks. */
    method RelocateOne(b: nat, reloc: seq<nat>, o: Operand) returns (r: Operand)
      ensures r == OneOperand(b, reloc, o)
    {
      r := o;
      if o.Ref? && RefBB(o.ref) == b && RefI(o.ref) < |reloc| {
        r := Ref(MakeRef(b, reloc[RefI(o.ref)]));
      }
    }

    /** The relocation of one instruction by `remove_nops`. */
    method RelocateInsn(b: nat, reloc: seq<nat>, i: Item) returns (r: Item)
      ensures r == OneItem(b, reloc, i)
    {
      var op0 := RelocateOne(b, reloc, i.insn.op0);
      var op1 := RelocateOne(b, reloc, i.insn.op1);
      var op2 := RelocateOne(b, reloc, i.insn.op2);
      var op3 := RelocateOne(b, reloc, i.insn.op3);
      var dep := i.dep;
      for k := 0 to |dep|
        invariant |dep| == |i.dep|
        invariant forall x :: 0 <= x < k ==> dep[x] == OneRef(b, reloc, i.dep[x])
        invariant forall x :: k <= x < |dep| ==> dep[x] == i.dep[x]
      {
        if RefBB(dep[k]) == b && RefI(dep[k]) < |reloc| {
          dep := dep[k := MakeRef(b, reloc[RefI(dep[k])])];
        }
      }
      r := i.(dep := dep, insn := i.insn.(op0 := op0, op1 := op1, op2 := op2, op3 := op3));
    }

    method RelocateBlock(b: nat, reloc: seq<nat>)
      modifies this`bb
      ensures |bb| == |old(bb)| && forall c :: 0 <= c < |bb| ==>
                |bb[c]| == |old(bb)[c]| && forall i :: 0 <= i < |bb[c]| ==> bb[c][i] == OneItem(b, reloc, old(bb)[c][i])
    {
      for c := 0 to |bb|
        invariant |bb| == |old(bb)| && forall x :: c <= x < |bb| ==> bb[x] == old(bb)[x]
        invariant forall x :: 0 <= x < c ==>
                    |bb[x]| == |old(bb)[x]| && forall i :: 0 <= i < |bb[x]| ==> bb[x][i] == OneItem(b, reloc, old(bb)[x][i])
      {
        var blk := bb[c];
        ghost var now := bb;
        for i := 0 to |blk|
          invariant bb == now && |blk| == |old(bb)[c]|
          invariant forall x :: 0 <= x < i ==> blk[x] == OneItem(b, reloc, old(bb)[c][x])
          invariant forall x :: i <= x < |blk| ==> blk[x] == old(bb)[c][x]
        {
          var item := RelocateInsn(b, reloc, blk[i]);
          blk := blk[i := item];
        }
        bb := bb[c := blk];
      }
    }

    /** One turn of the outer loop of `remove_nops`. */
    method RemoveFromBlock(ghost f: Code, b: nat) returns (modified: bool)
      requires ClosedCode(f) && Fits(f) && b < |f| == |bb| && bb == Removing(f, b)
      modifies this`bb
      ensures bb == Removing(f, b + 1) && modified == (Kept(f[b], |f[b]|) != |f[b]|)
    {
      SameNops(f, b);
      ghost var before := bb[b];
      var blk, reloc := CompactBlock(bb[b]);
      modified := |blk| != |bb[b]|;
      bb := bb[b := blk];
      ghost var half := bb;
      RelocateBlock(b, reloc);
      RemovedNext(f, b, reloc, half, bb);
    }

    method RemoveNext(ghost f: Code, b: nat, before: bool) returns (modified: bool)
      requires ClosedCode(f) && Fits(f) && b < |f| == |bb| && bb == Removing(f, b) && before == HasNops(f, b)
      modifies this`bb
      ensures bb == Removing(f, b + 1) && modified == HasNops(f, b + 1)
    {
      modified := RemoveFromBlock(f, b);
      HasNopsNext(f, b);
      modified := before || modified;
    }

    /** `remove_nops`. */
    method RemoveNops() returns (modified: bool)
      requires ClosedCode(bb) && Fits(bb)
      modifies this`bb
      ensures bb == WithoutNops(old(bb))
      ensures modified <==> !NopFree(old(bb))
    {
      ghost var f := bb;
      modified := false;
      NothingRemoved(f);
      for b := 0 to |bb|
        invariant |bb| == |f| && bb == Removing(f, b)
        invariant modified == HasNops(f, b)
      {
        modified := RemoveNext(f, b, modified);
      }
      ModifiedExactly(f);
    }

    /** `remove_dead`. */
    method RemoveDead() returns (modified: bool)
      requires ClosedCode(bb) && Fits(bb)
      modifies this`bb, this`unused
      ensures bb == WithoutNops(Cleared(old(bb), LiveSet(old(bb), order)))
      ensures modified <==> exists r: nat :: ValidRef(old(bb), r) && Dropped(old(bb), order, r)
    {
      ghost var f := bb;
      MarkUnused();
      ghost var marked := unused;
      for b := 0 to |bb|
        invariant unused == marked && |bb| == |f| && forall c :: b <= c < |f| ==> bb[c] == f[c]
        invariant forall c :: 0 <= c < b ==> bb[c] == Cleared(f, LiveSet(f, order))[c]
      {
        var blk := bb[b];
        ghost var now := bb;
        for i := 0 to |blk|
          invariant unused == marked && bb == now && |blk| == |f[b]| && forall j :: i <= j < |blk| ==> blk[j] == f[b][j]
          invariant forall j :: 0 <= j < i ==> blk[j] == if MakeRef(b, j) in LiveSet(f, order) then f[b][j] else Item(NOP, [])
        {
          RefInCode(f, b, i);
          if MakeRef(b, i) in unused {
            blk := blk[i := Item(NOP, [])];
          }
        }
        bb := bb[b := blk];
      }
      assert bb == Cleared(f, LiveSet(f, order));
      ClearedClosed(f, LiveSet(f, order));
      DroppedSome(f, order);
      modified := RemoveNops();
    }

    /** `insert_insns`: n NOPs before instruction ins of block b. */
    method InsertInsns(b: nat, ins: nat, n: nat)
      requires b < |bb| && ins <= |bb[b]| && |bb[b]| + n < MAX_INSNS
      modifies this`bb, this`mdep, this`msched
      ensures bb == Inserted(old(bb), b, ins, n)
      ensures |mdep| == |old(mdep)| && forall c :: 0 <= c < |mdep| ==> mdep[c] == ShiftRefs(b, ins, n, old(mdep)[c])
      ensures msched == ShiftRefs(b, ins, n, old(msched))
    {
      ghost var f := bb;
      var blk := bb[b] + seq(n, _ => Item(NOP, []));
      var i := |bb[b]|;
      while i > ins
        invariant ins <= i <= |f[b]| && |blk| == |f[b]| + n
        invariant forall j :: 0 <= j < i ==> blk[j] == f[b][j]
        invariant forall j :: i <= j < |f[b]| ==> blk[j + n] == f[b][j]
      {
        i := i - 1;
        blk := blk[i + n := blk[i]];
      }
      for k := 0 to n
        invariant |blk| == |f[b]| + n && forall j :: 0 <= j < ins ==> blk[j] == f[b][j]
        invariant forall j :: ins <= j < |f[b]| ==> blk[j + n] == f[b][j]
        invariant forall j :: ins <= j < ins + k ==> blk[j] == Item(NOP, [])
      {
        blk := blk[ins + k := Item(NOP, [])];
      }
      WidenedIs(f[b], ins, n, blk);
      bb := bb[b := blk];
      ShiftAll(b, ins, n, f);
    }

    /** The relocation of a list of references by `insert_insns`. */
    method ShiftList(b: nat, ins: nat, n: nat, list: seq<nat>) returns (s: seq<nat>)
      ensures s == ShiftRefs(b, ins, n, list)
    {
      s := list;
      for k := 0 to |list|
        invariant |s| == |list|
        invariant forall x :: 0 <= x < k ==> s[x] == ShiftRef(b, ins, n, list[x])
        invariant forall x :: k <= x < |s| ==> s[x] == list[x]
      {
        if RefBB(s[k]) == b && RefI(s[k]) >= ins {
          s := s[k := MakeRef(b, RefI(s[k]) + n)];
        }
      }
    }

    method ShiftOne(b: nat, ins: nat, n: nat, o: Operand) returns (r: Operand)
      ensures r == ShiftOperand(b, ins, n, o)
    {
      r := o;
      if o.Ref? && RefBB(o.ref) == b && RefI(o.ref) >= ins {
        r := Ref(MakeRef(b, RefI(o.ref) + n));
      }
    }

    method ShiftInsn(b: nat, ins: nat, n: nat, i: Item) returns (r: Item)
      ensures r == ShiftItem(b, ins, n, i)
    {
      var dep := ShiftList(b, ins, n, i.dep);
      var op0 := ShiftOne(b, ins, n, i.insn.op0);
      var op1 := ShiftOne(b, ins, n, i.insn.op1);
      var op2 := ShiftOne(b, ins, n, i.insn.op2);
      var op3 := ShiftOne(b, ins, n, i.insn.op3);
      r := i.(dep := dep, insn := i.insn.(op0 := op0, op1 := op1, op2 := op2, op3 := op3));
    }

    method ShiftInsns(b: nat, ins: nat, n: nat, blk: seq<Item>) returns (r: seq<Item>)
      ensures r == ShiftBlock(b, ins, n, blk)
    {
      r := blk;
      for i := 0 to |blk|
        invariant |r| == |blk|
        invariant forall x :: 0 <= x < i ==> r[x] == ShiftItem(b, ins, n, blk[x])
        invariant forall x :: i <= x < |r| ==> r[x] == blk[x]
      {
        var item := ShiftInsn(b, ins, n, r[i]);
        r := r[i := item];
      }
    }

    /** The relocation loops of `insert_insns`. */
    method ShiftAll(b: nat, ins: nat, n: nat, ghost f: Code)
      requires b < |f| && ins <= |f[b]| && bb == f[b := Widened(f[b], ins, n)]
      modifies this`bb, this`mdep, this`msched
      ensures bb == Inserted(f, b, ins, n)
      ensures |mdep| == |old(mdep)| && forall c :: 0 <= c < |mdep| ==> mdep[c] == ShiftRefs(b, ins, n, old(mdep)[c])
      ensures msched == ShiftRefs(b, ins, n, old(msched))
    {
      for c := 0 to |mdep|
        invariant |mdep| == |old(mdep)| && msched == old(msched) && bb == old(bb)
        invariant forall x :: 0 <= x < c ==> mdep[x] == ShiftRefs(b, ins, n, old(mdep)[x])
        invariant forall x :: c <= x < |mdep| ==> mdep[x] == old(mdep)[x]
      {
        var list := ShiftList(b, ins, n, mdep[c]);
        mdep := mdep[c := list];
      }
      for c := 0 to |bb|
        invariant |bb| == |f| && msched == old(msched) && |mdep| == |old(mdep)|
        invariant forall x :: 0 <= x < |mdep| ==> mdep[x] == ShiftRefs(b, ins, n, old(mdep)[x])
        invariant forall x :: 0 <= x < c ==> bb[x] == ShiftBlock(b, ins, n, old(bb)[x])
        invariant forall x :: c <= x < |bb| ==> bb[x] == old(bb)[x]
      {
        var blk := ShiftInsns(b, ins, n, bb[c]);
        bb := bb[c := blk];
      }
      msched := ShiftList(b, ins, n, msched);
      assert bb == Inserted(f, b, ins, n);
    }
  }
}
