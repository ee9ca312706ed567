/** `detect_bb` (cuc/bb.c): the passes over the instruction and block arrays that
    build the graph of module BlockGraph in place.  The `prev` links of a block are
    kept in arrays of their own; loop-repetition and timing fields are left out. */
module BlockDetection {
  import opened CucInsn
  import opened Lowering
  import opened BlockGraph

  const MAX_BB: nat := 0x1000
  const BBID_START: int := MAX_BB
  const BBID_END: int := MAX_BB + 1

  datatype Block = Block(first: int, last: int, next0: int, next1: int, tmp: int)

  // ---------------------------------------------------- input and specification

  predicate Unmarked(i: Insn)
  {
    && BBStart !in i.typ && BBEnd !in i.typ
    && !i.op0.Link? && !i.op1.Link? && !i.op2.Link? && !i.op3.Link?
    && (IsBranch(i) ==> i.index.Bf? && i.op0.Jump? && i.op0.target > 0)
  }

  /** What the function body must look like: it does not end in a branch and no branch
      leads back to instruction 0. */
  predicate Wellformed(p: Program)
  {
    |p| > 0 && !IsBranch(p[|p| - 1]) && forall k: nat :: k < |p| ==> Unmarked(p[k])
  }

  predicate InFunction(p: Program, n: nat)
  {
    forall b: nat :: b < n && b < |p| && IsBranch(p[b]) ==> Target(p[b]) < |p|
  }

  function Mark(i: Insn, start: bool, end: bool): Insn
  {
    i.(typ := i.typ + (if start then {BBStart} else {}) + (if end then {BBEnd} else {}))
  }

  function StartBy(p: Program, i: nat, k: nat): bool
    requires k < |p|
  {
    TargetedBy(p, i, k) || (0 < k < i && IsBranch(p[k - 1]))
  }

  function EndBy(p: Program, i: nat, k: nat): bool
    requires k < |p|
  {
    TargetedBy(p, i, k + 1) || (k < i && IsBranch(p[k]))
  }

  function Marked(p: Program): (q: Program)
    ensures |q| == |p|
  {
    seq(|p|, k requires 0 <= k < |p| => Mark(p[k], Starts(p, k), Ends(p, k)))
  }

  lemma {:induction false} TargetedNext(p: Program, i: nat, x: nat)
    requires i < |p|
    ensures TargetedBy(p, i + 1, x) <==> TargetedBy(p, i, x) || (IsBranch(p[i]) && Target(p[i]) == x)
  {
    if TargetedBy(p, i + 1, x) {
      var b: nat :| b < i + 1 && b < |p| && IsBranch(p[b]) && Target(p[b]) == x;
      assert b < i || b == i;
    }
  }

  /** The marks that visiting instruction i adds to instruction k. */
  predicate StartMark(p: Program, i: nat, k: nat)
    requires i < |p|
  {
    (k == i && i > 0 && IsBranch(p[i - 1])) || (IsBranch(p[i]) && Target(p[i]) == k)
  }

  predicate EndMark(p: Program, i: nat, k: nat)
    requires i < |p|
  {
    IsBranch(p[i]) && (k == i || Target(p[i]) == k + 1)
  }

  lemma {:induction false} MarkNext(p: Program, i: nat, k: nat)
    requires i < |p| && k < |p|
    ensures StartBy(p, i + 1, k) == (StartBy(p, i, k) || StartMark(p, i, k))
    ensures EndBy(p, i + 1, k) == (EndBy(p, i, k) || EndMark(p, i, k))
  {
    TargetedNext(p, i, k);
    TargetedNext(p, i, k + 1);
  }

  lemma {:induction false} MarkTwice(x: Insn, a: bool, b: bool, c: bool, d: bool)
    ensures Mark(Mark(x, a, b), c, d) == Mark(x, a || c, b || d)
  {
    assert Mark(Mark(x, a, b), c, d).typ == Mark(x, a || c, b || d).typ;
  }

  function MarkOne(q: Program, k: nat, start: bool, end: bool): Program
    requires k < |q|
  {
    q[k := Mark(q[k], start, end)]
  }

  lemma {:induction false} MarkOneAt(q: Program, k: nat, start: bool, end: bool, x: nat)
    requires k < |q| && x < |q|
    ensures MarkOne(q, k, start, end)[x] == Mark(q[x], x == k && start, x == k && end)
  {
  }

  lemma {:induction false} BranchVisited(p: Program, q: Program, i: nat)
    requires i < |p| == |q| && IsBranch(p[i]) && 0 < Target(p[i]) < |p|
    ensures var jt := Target(p[i]);
            var r := MarkOne(MarkOne(q, i, i > 0 && IsBranch(p[i - 1]), false), i, false, true);
            Visited(p, q, MarkOne(MarkOne(r, jt - 1, false, true), jt, true, false), i)
  {
    var jt, s := Target(p[i]), i > 0 && IsBranch(p[i - 1]);
    var r1 := MarkOne(q, i, s, false);
    var r2 := MarkOne(r1, i, false, true);
    var r3 := MarkOne(r2, jt - 1, false, true);
    forall k: nat | k < |p|
      ensures MarkOne(r3, jt, true, false)[k] == Mark(q[k], StartMark(p, i, k), EndMark(p, i, k))
    {
      MarkOneAt(q, i, s, false, k);
      MarkOneAt(r1, i, false, true, k);
      MarkOneAt(r2, jt - 1, false, true, k);
      MarkOneAt(r3, jt, true, false, k);
      MarkTwice(q[k], k == i && s, false, false, k == i);
      MarkTwice(q[k], k == i && s, k == i, false, k == jt - 1);
      MarkTwice(q[k], k == i && s, k == i || k == jt - 1, k == jt, false);
    }
  }

  /** q carries the marks of the instructions below i. */
  ghost predicate MarkedBy(p: Program, q: Program, i: nat)
  {
    |q| == |p| && forall k: nat :: k < |p| ==> q[k] == Mark(p[k], StartBy(p, i, k), EndBy(p, i, k))
  }

  ghost predicate Visited(p: Program, q: Program, r: Program, i: nat)
    requires i < |p|
  {
    |r| == |q| == |p| && forall k: nat :: k < |p| ==> r[k] == Mark(q[k], StartMark(p, i, k), EndMark(p, i, k))
  }

  lemma {:induction false} VisitMarks(p: Program, q: Program, r: Program, i: nat)
    requires i < |p| && MarkedBy(p, q, i) && Visited(p, q, r, i)
    ensures MarkedBy(p, r, i + 1)
  {
    forall k: nat | k < |p|
      ensures r[k] == Mark(p[k], StartBy(p, i + 1, k), EndBy(p, i + 1, k))
    {
      MarkNext(p, i, k);
      MarkTwice(p[k], StartBy(p, i, k), EndBy(p, i, k), StartMark(p, i, k), EndMark(p, i, k));
    }
  }

  /** All branches visited, and the first and last instruction marked. */
  lemma {:induction false} MarksComplete(p: Program, q: Program)
    requires |p| > 0 && MarkedBy(p, q, |p|)
    ensures var r := q[0 := Mark(q[0], true, false)];
            r[|p| - 1 := Mark(r[|p| - 1], false, true)] == Marked(p)
  {
    var r := q[0 := Mark(q[0], true, false)];
    var m := r[|p| - 1 := Mark(r[|p| - 1], false, true)];
    forall k: nat | k < |p|
      ensures m[k] == Mark(p[k], Starts(p, k), Ends(p, k))
    {
      MarkTwice(p[k], StartBy(p, |p|, k), EndBy(p, |p|, k), k == 0, false);
      MarkTwice(p[k], StartBy(p, |p|, k) || k == 0, EndBy(p, |p|, k), false, k == |p| - 1);
      MarkTwice(p[k], StartBy(p, |p|, k), EndBy(p, |p|, k), false, k == |p| - 1);
    }
  }

  // ------------------------------------------------------------------ blocks

  function Fresh(r: Range): Block { Block(r.first, r.last, -1, -1, 0) }

  lemma {:induction false} CutGrows(p: Program, i: nat, j: nat)
    requires i <= j <= |p|
    ensures |Cut(p, i)| <= |Cut(p, j)|
    decreases j
  {
    if i < j {
      CutGrows(p, i, j - 1);
    }
  }

  lemma {:induction false} OpenIffStart(p: Program, i: nat)
    requires i < |p|
    ensures Open(p, i) == i <==> Starts(p, i)
  {
    if i > 0 {
      StartAfterEnd(p, i);
    }
  }

  /** s holds the blocks that end below i and the start of the next. */
  ghost predicate CutDone(s: seq<Block>, p: Program, i: nat)
    requires i <= |p|
  {
    var c := Cut(p, i);
    && |c| < |s| && (forall u: nat :: u < |c| ==> s[u] == Fresh(c[u]))
    && (Open(p, i) < i ==> s[|c|].first == Open(p, i))
  }

  lemma {:induction false} MarksAt(p: Program, q: Program, i: nat)
    requires Wellformed(p) && q == Marked(p) && i < |p|
    ensures BBStart in q[i].typ <==> Starts(p, i)
    ensures BBEnd in q[i].typ <==> Ends(p, i)
  {
    assert Unmarked(p[i]);
  }

  lemma {:induction false} CutOne(s: seq<Block>, s': seq<Block>, p: Program, i: nat)
    requires i < |p| && CutDone(s, p, i) && |Cut(p, i + 1)| < |s|
    requires var n := |Cut(p, i)|;
             var s1 := if Starts(p, i) then s[n := s[n].(first := i)] else s;
             s' == if Ends(p, i) then s1[n := s1[n].(last := i, next0 := -1, next1 := -1, tmp := 0)] else s1
    ensures CutDone(s', p, i + 1)
  {
    OpenIffStart(p, i);
    var c := Cut(p, i);
    assert forall u: nat :: u < |c| ==> s'[u] == s[u];
  }

  /** The blocks c and edges e of p. */
  ghost predicate GraphOf(p: Program, c: seq<Range>, e: seq<Out>)
  {
    && |p| > 0 && Partition(p, c, |p|) && Closed(e) && |e| == |c| > 0
    && (forall u: nat :: u < |c| ==> e[u] == OutOf(p, c, u))
    && c[|c| - 1].last == |p| - 1 && !IsBranch(p[|p| - 1])
  }

  lemma {:induction false} GraphBuilt(p: Program)
    requires |p| > 0 && !IsBranch(p[|p| - 1]) && InFunction(p, |p|)
    ensures GraphOf(p, Cut(p, |p|), Edges(p))
  {
    CutPartitions(p, |p|);
    EdgesClosed(p);
    assert Open(p, |p|) == |p|;
  }

  // ----------------------------------------------------------- forward links

  function PartBlock(c: seq<Range>, e: seq<Out>, i: nat, v: nat): Block
    requires v < |c| == |e| && i <= |e|
  {
    Block(c[v].first, c[v].last, if v < i then e[v].next0 else -1, if v < i then e[v].next1 else -1, |Preds(e, i, v)|)
  }

  /** Forward links of the blocks below i are made. */
  ghost predicate PartlyLinked(s: seq<Block>, c: seq<Range>, e: seq<Out>, i: nat)
    requires i <= |e|
  {
    |c| == |e| <= |s| && forall v: nat :: v < |c| ==> s[v] == PartBlock(c, e, i, v)
  }

  ghost predicate LinkMade(s: seq<Block>, s': seq<Block>, e: seq<Out>, i: nat)
    requires i < |e|
  {
    |e| <= |s| == |s'| && forall v: nat :: v < |e| ==>
      s'[v] == Block(s[v].first, s[v].last, if v == i then e[i].next0 else s[v].next0,
                     if v == i then e[i].next1 else s[v].next1, s[v].tmp + |Hit(e[i], i, v)|)
  }

  lemma {:induction false} LinkedNext(s: seq<Block>, s': seq<Block>, c: seq<Range>, e: seq<Out>, i: nat)
    requires i < |e| && PartlyLinked(s, c, e, i) && LinkMade(s, s', e, i)
    ensures PartlyLinked(s', c, e, i + 1)
  {
  }

  /** Jumps of the blocks below i name their target's block. */
  ghost predicate JumpsLinked(q: Program, p: Program, c: seq<Range>, i: nat)
    requires i <= |c|
  {
    |q| == |p| && forall k: nat :: k < |p| ==> q[k] == LinkedInsn(p, c, i, k)
  }

  function Limit(p: Program, c: seq<Range>, i: nat): nat
    requires i <= |c|
  {
    if i < |c| then c[i].first else |p|
  }

  function LinkedInsn(p: Program, c: seq<Range>, i: nat, k: nat): Insn
    requires i <= |c| && k < |p|
  {
    var m := Mark(p[k], Starts(p, k), Ends(p, k));
    if IsBranch(p[k]) && k < Limit(p, c, i) then m.(op0 := Link(Find(c, Target(p[k]), 0))) else m
  }

  /** A block contains no branch but its last instruction. */
  lemma {:induction false} BranchIsLast(p: Program, c: seq<Range>, e: seq<Out>, i: nat, k: nat)
    requires GraphOf(p, c, e) && i < |c| && c[i].first <= k < Limit(p, c, i + 1) && k < |p| && IsBranch(p[k])
    ensures k == c[i].last
  {
    assert EndsAtLast(p, c[i]) && Ends(p, k);
  }

  /** The last instruction of block i while i's links are still to be made. */
  lemma {:induction false} LastOf(q: Program, p: Program, c: seq<Range>, e: seq<Out>, i: nat)
    requires GraphOf(p, c, e) && i < |c| && JumpsLinked(q, p, c, i)
    ensures var l := c[i].last;
            && l < |p| && IsBranch(q[l]) == IsBranch(p[l]) && Target(q[l]) == Target(p[l])
            && e[i] == if IsBranch(p[l]) then Out(Find(c, Target(p[l]), 0), i + 1)
                       else if l == |p| - 1 then Out(-1, -1) else Out(i + 1, -1)
  {
    assert EndsAtLast(p, c[i]) && e[i] == OutOf(p, c, i);
  }

  lemma {:induction false} JumpsNext(q: Program, q': Program, p: Program, c: seq<Range>, e: seq<Out>, i: nat)
    requires GraphOf(p, c, e) && i < |c| && JumpsLinked(q, p, c, i) && |q'| == |q|
    requires var l := c[i].last;
             l < |p| && q' == if IsBranch(p[l]) then q[l := q[l].(op0 := Link(Find(c, Target(p[l]), 0)))] else q
    ensures JumpsLinked(q', p, c, i + 1)
  {
    forall k: nat | k < |p|
      ensures q'[k] == LinkedInsn(p, c, i + 1, k)
    {
      if IsBranch(p[k]) && c[i].first <= k < Limit(p, c, i + 1) {
        BranchIsLast(p, c, e, i, k);
      }
    }
  }

  function Bump(d: seq<nat>, w: int): seq<nat>
    requires w < |d|
  {
    if w < 0 then d else d[w := d[w] + 1]
  }

  lemma {:induction false} DegreesNext(e: seq<Out>, i: nat)
    requires Closed(e) && i < |e|
    ensures Degrees(e, i + 1) == Bump(Bump(Degrees(e, i), e[i].next0), e[i].next1)
  {
    var d := Bump(Bump(Degrees(e, i), e[i].next0), e[i].next1);
    forall v: nat | v < |e|
      ensures Degrees(e, i + 1)[v] == d[v]
    {
      assert Preds(e, i + 1, v) == Preds(e, i, v) + Hit(e[i], i, v);
    }
  }

  lemma {:induction false} BaseBumped(d: seq<nat>, w: int)
    requires w < |d|
    ensures Base(Bump(d, w), |d|) == Base(d, |d|) + (if w >= 0 && d[w] >= 2 then 1 else 0)
  {
    if w >= 0 {
      BaseBump(d, w, |d|);
    }
  }

  function Above2(b: bool): nat { if b then 1 else 0 }

  /** The artificial blocks that the edges of block i call for. */
  lemma {:induction false} BaseNext(e: seq<Out>, i: nat)
    requires Closed(e) && i < |e|
    ensures var w0, w1 := e[i].next0, e[i].next1;
            Base(Degrees(e, i + 1), |e|) == Base(Degrees(e, i), |e|)
              + Above2(w0 >= 0 && |Preds(e, i, w0)| >= 2)
              + Above2(w1 >= 0 && |Preds(e, i, w1)| + (if w0 == w1 then 1 else 0) >= 2)
  {
    DegreesNext(e, i);
    var d := Degrees(e, i);
    BaseBumped(d, e[i].next0);
    BaseBumped(Bump(d, e[i].next0), e[i].next1);
  }

  lemma {:induction false} NoDegrees(e: seq<Out>, n: nat)
    requires n <= |e|
    ensures Base(Degrees(e, 0), n) == n
  {
    if n > 0 {
      NoDegrees(e, n - 1);
    }
  }

  lemma {:induction false} NothingLinked(q: Program, p: Program, c: seq<Range>, e: seq<Out>)
    requires GraphOf(p, c, e) && q == Marked(p)
    ensures JumpsLinked(q, p, c, 0) && Base(Degrees(e, 0), |e|) == |e|
  {
    NoDegrees(e, |e|);
    assert c[0].first == 0;
  }

  // ------------------------------------------------------- artificial blocks

  /** The counter of a block with n predecessors once c of them are relinked. */
  function TmpState(n: nat, c: nat): int
  {
    var all: int, left: int := n, n - c + 1;
    if n <= 2 then all else if c == 0 then -all else if left > 2 then left else 2
  }

  /** Where v's chain of blocks lies, before relinking. */
  function MovedAt(c: seq<Range>, e: seq<Out>, d: seq<nat>, v: nat, t: nat): Block
    requires v < |c| == |e| == |d|
  {
    if t == Place(d, v) then Block(c[v].first, c[v].last, e[v].next0, e[v].next1, TmpState(d[v], 0))
    else Block(c[v].first, -1, -1, -1, 0)
  }

  /** New block t once the old blocks below u and the new ones below i are relinked. */
  function RelinkedAt(c: seq<Range>, e: seq<Out>, d: seq<nat>, i: nat, u: nat, t: nat): Block
    requires Closed(e) && |c| == |e| == |d| && u <= |e| && t < Base(d, |d|)
  {
    var v := Owner(d, |d|, t);
    if t == Place(d, v) then
      Block(c[v].first, c[v].last, if v < u then Hop0(e, d, v) else e[v].next0,
            if v < u then Hop1(e, d, v) else e[v].next1, TmpState(d[v], |Preds(e, u, v)|))
    else Block(c[v].first, -1, if t < i then t + 1 else -1, -1, 0)
  }

  /** reloc holds the places of the blocks from i on. */
  ghost predicate Placed(r: seq<nat>, d: seq<nat>, i: nat)
  {
    |d| <= |r| && forall v: nat :: i <= v < |d| ==> r[v] == Place(d, v)
  }

  lemma {:induction false} MovedOwner(c: seq<Range>, e: seq<Out>, d: seq<nat>, v: nat)
    requires Closed(e) && v < |c| == |e| == |d|
    ensures Base(d, v + 1) <= Base(d, |d|)
    ensures forall t: nat :: Base(d, v) <= t < Base(d, v + 1) ==> RelinkedAt(c, e, d, 0, 0, t) == MovedAt(c, e, d, v, t)
  {
    BaseGap(d, v, |d|);
    forall t: nat | Base(d, v) <= t < Base(d, v + 1)
      ensures RelinkedAt(c, e, d, 0, 0, t) == MovedAt(c, e, d, v, t)
    {
      OwnerIs(d, t, v);
    }
  }

  predicate Unconditional(i: Insn) { IsBranch(i) && i.op1.Const? }

  /** Instruction k with its link relocated; unconditional branches that end old
      blocks below u are gone. */
  function PlacedInsn(p: Program, c: seq<Range>, d: seq<nat>, u: nat, k: nat): Insn
    requires u <= |c| && k < |p|
  {
    var m := Mark(p[k], Starts(p, k), Ends(p, k));
    if !IsBranch(p[k]) then m
    else if Unconditional(p[k]) && k < Limit(p, c, u) then NOP
    else
      var j := Find(c, Target(p[k]), 0);
      m.(op0 := Link(if j < |d| then Place(d, j) else 0))
  }

  lemma {:induction false} LinkInRange(p: Program, c: seq<Range>, e: seq<Out>, d: seq<nat>, i: Insn, k: nat)
    requires Wellformed(p) && GraphOf(p, c, e) && |d| == |e| && k < |p| && i == LinkedInsn(p, c, |c|, k)
    ensures i.op0.Link? ==> i.op0.block < |d|
    ensures !i.op1.Link? && !i.op2.Link? && !i.op3.Link?
    ensures PlacedInsn(p, c, d, 0, k) ==
            if i.op0.Link? && i.op0.block < |d| then i.(op0 := Link(Place(d, i.op0.block))) else i
  {
    assert Unmarked(p[k]);
    if IsBranch(p[k]) {
      BranchOwner(p, c, e, k, |c|);
    }
  }

  /** The block that a branch ends. */
  lemma {:induction false} BranchOwner(p: Program, c: seq<Range>, e: seq<Out>, k: nat, n: nat)
    requires GraphOf(p, c, e) && n <= |c| && k < |p| && IsBranch(p[k]) && k < Limit(p, c, n)
    ensures 0 <= Find(c, Target(p[k]), 0) < |c|
    decreases n
  {
    if n > 0 {
      if k < Limit(p, c, n - 1) {
        BranchOwner(p, c, e, k, n - 1);
      } else {
        BranchIsLast(p, c, e, n - 1, k);
        assert e[n - 1] == OutOf(p, c, n - 1);
      }
    }
  }

  // --------------------------------------------------------------- relinking

  ghost predicate Relinking(s: seq<Block>, c: seq<Range>, e: seq<Out>, d: seq<nat>, i: nat, u: nat)
    requires Closed(e) && |c| == |e| == |d| && u <= |e|
  {
    Base(d, |d|) <= |s| && forall t: nat :: t < Base(d, |d|) ==> s[t] == RelinkedAt(c, e, d, i, u, t)
  }

  /** Old block v while the blocks below u are relinked. */
  lemma {:induction false} RealAt(s: seq<Block>, c: seq<Range>, e: seq<Out>, d: seq<nat>, i: nat, u: nat, v: nat)
    requires Closed(e) && |c| == |e| == |d| && u <= |e| && v < |e| && Relinking(s, c, e, d, i, u)
    ensures Place(d, v) < Base(d, |d|)
    ensures s[Place(d, v)] == Block(c[v].first, c[v].last, if v < u then Hop0(e, d, v) else e[v].next0,
                                    if v < u then Hop1(e, d, v) else e[v].next1, TmpState(d[v], |Preds(e, u, v)|))
  {
    OwnerIs(d, Place(d, v), v);
  }

  /** An edge of block u is among its target's predecessors. */
  lemma {:induction false} EdgeCounted(e: seq<Out>, u: nat, w: nat)
    requires u < |e|
    ensures |Preds(e, u, w)| + (if e[u].next0 == w then 1 else 0) + (if e[u].next1 == w then 1 else 0) <= |Preds(e, |e|, w)|
  {
    PredsGrow(e, u + 1, |e|, w);
  }

  ghost predicate Room(e: seq<Out>, d: seq<nat>, w: nat)
  {
    w < |d| && |Preds(e, |e|, w)| <= d[w]
  }

  /** d counts at least the predecessors of each block. */
  ghost predicate EnoughRoom(e: seq<Out>, d: seq<nat>)
  {
    forall w: nat {:trigger Room(e, d, w)} :: w < |d| ==> Room(e, d, w)
  }

  lemma {:induction false} EdgeFits(s: seq<Block>, c: seq<Range>, e: seq<Out>, d: seq<nat>, i: nat, u: nat, w: nat)
    requires Closed(e) && |c| == |e| == |d| && u < |e| && Relinking(s, c, e, d, i, u)
    requires w < |e| && (e[u].next0 == w || e[u].next1 == w) && Room(e, d, w)
    ensures Place(d, w) < |s| && s[Place(d, w)].tmp == TmpState(d[w], |Preds(e, u, w)|)
    ensures |Preds(e, u, w)| + (if e[u].next0 == w && e[u].next1 == w then 2 else 1) <= d[w]
  {
    RealAt(s, c, e, d, i, u, w);
    EdgeCounted(e, u, w);
  }

  function Retmp(s: seq<Block>, x: nat, tmp: int): seq<Block>
    requires x < |s|
  {
    s[x := s[x].(tmp := tmp)]
  }

  /** The effect of relinking next[0] of old block u, which is at i. */
  ghost function EdgeDone0(s: seq<Block>, e: seq<Out>, d: seq<nat>, u: nat, i: nat): seq<Block>
    requires Closed(e) && |d| == |e| && u < |e| && i < |s|
  {
    var w := e[u].next0;
    if w < 0 || Place(d, w) >= |s| then s
    else
      var r := Retmp(s, Place(d, w), TmpState(d[w], |Preds(e, u, w)| + 1));
      r[i := r[i].(next0 := Hop0(e, d, u))]
  }

  ghost function EdgeDone1(s: seq<Block>, e: seq<Out>, d: seq<nat>, u: nat, i: nat): seq<Block>
    requires Closed(e) && |d| == |e| && u < |e| && i < |s|
  {
    var w := e[u].next1;
    if w < 0 || Place(d, w) >= |s| then s
    else
      var r := Retmp(s, Place(d, w), TmpState(d[w], |Preds(e, u, w)| + (if e[u].next0 == w then 2 else 1)));
      r[i := r[i].(next1 := Hop1(e, d, u))]
  }

  /** The target w of an edge that k edges precede can be followed. */
  ghost predicate EdgeReady(s: seq<Block>, d: seq<nat>, w: int, k: nat)
    requires w < |d|
  {
    w >= 0 ==> Place(d, w) < |s| && k < d[w] && s[Place(d, w)].tmp == TmpState(d[w], k)
  }

  lemma {:induction false} EdgesReady(s: seq<Block>, c: seq<Range>, e: seq<Out>, d: seq<nat>, i: nat, u: nat)
    requires Closed(e) && |c| == |e| == |d| && EnoughRoom(e, d) && u < |e| && i == Place(d, u) && Relinking(s, c, e, d, i, u)
    ensures i < |s| && s[i].next0 == e[u].next0
    ensures var s1, w0, w1 := EdgeDone0(s, e, d, u, i), e[u].next0, e[u].next1;
            && EdgeReady(s, d, w0, if w0 < 0 then 0 else |Preds(e, u, w0)|)
            && s1[i].next1 == w1 && EdgeReady(s1, d, w1, if w1 < 0 then 0 else |Preds(e, u, w1)| + Above2(w0 == w1))
  {
    var w0, w1 := e[u].next0, e[u].next1;
    RealAt(s, c, e, d, i, u, u);
    if w0 >= 0 {
      assert Room(e, d, w0);
      EdgeFits(s, c, e, d, i, u, w0);
    }
    if w1 >= 0 {
      assert Room(e, d, w1);
      EdgeFits(s, c, e, d, i, u, w1);
      SecondReady(s, e, d, i, u);
    }
  }

  lemma {:induction false} SecondReady(s: seq<Block>, e: seq<Out>, d: seq<nat>, i: nat, u: nat)
    requires Closed(e) && |d| == |e| && u < |e| && i < |s|
    requires var w := e[u].next1;
             && 0 <= w && Place(d, w) < |s| && s[Place(d, w)].tmp == TmpState(d[w], |Preds(e, u, w)|)
             && |Preds(e, u, w)| + Above2(e[u].next0 == w) < d[w]
    ensures var w, s1 := e[u].next1, EdgeDone0(s, e, d, u, i);
            s1[i].next1 == s[i].next1 && EdgeReady(s1, d, w, |Preds(e, u, w)| + Above2(e[u].next0 == w))
  {
    var w0, w := e[u].next0, e[u].next1;
    if w0 >= 0 && Place(d, w0) == Place(d, w) {
      PlaceInjective(d, w0, w);
    }
  }

  lemma {:induction false} EdgesDone(s: seq<Block>, s': seq<Block>, c: seq<Range>, e: seq<Out>, d: seq<nat>, i: nat, u: nat)
    requires Closed(e) && |c| == |e| == |d| && u < |e| && i == Place(d, u) && Relinking(s, c, e, d, i, u)
    requires i < |s| && s' == EdgeDone1(EdgeDone0(s, e, d, u, i), e, d, u, i)
    ensures Relinking(s', c, e, d, i + 1, u + 1)
  {
    forall t: nat | t < Base(d, |d|)
      ensures s'[t] == RelinkedAt(c, e, d, i + 1, u + 1, t)
    {
      EdgesDoneAt(s, c, e, d, i, u, t);
    }
  }

  /** The counter of new block t after both edges of u. */
  ghost function TmpDone(s: seq<Block>, e: seq<Out>, d: seq<nat>, u: nat, t: nat): int
    requires Closed(e) && |d| == |e| && u < |e| && t < |s|
  {
    var w0, w1 := e[u].next0, e[u].next1;
    if w1 >= 0 && t == Place(d, w1) then TmpState(d[w1], |Preds(e, u, w1)| + (if w0 == w1 then 2 else 1))
    else if w0 >= 0 && t == Place(d, w0) then TmpState(d[w0], |Preds(e, u, w0)| + 1)
    else s[t].tmp
  }

  lemma {:induction false} PointDone(s: seq<Block>, e: seq<Out>, d: seq<nat>, i: nat, u: nat, t: nat)
    requires Closed(e) && |d| == |e| && u < |e| && i < |s| && t < |s| && forall w: nat :: w < |d| ==> Place(d, w) < |s|
    ensures EdgeDone1(EdgeDone0(s, e, d, u, i), e, d, u, i)[t] ==
            Block(s[t].first, s[t].last, if t == i && e[u].next0 >= 0 then Hop0(e, d, u) else s[t].next0,
                  if t == i && e[u].next1 >= 0 then Hop1(e, d, u) else s[t].next1, TmpDone(s, e, d, u, t))
  {
  }

  lemma {:induction false} PlaceInjective(d: seq<nat>, v: nat, w: nat)
    requires v < |d| && w < |d| && Place(d, v) == Place(d, w)
    ensures v == w
  {
    OwnerIs(d, Place(d, v), v);
    OwnerIs(d, Place(d, v), w);
  }

  /** A real block's counter follows its predecessors. */
  lemma {:induction false} TmpReal(s: seq<Block>, e: seq<Out>, d: seq<nat>, u: nat, v: nat)
    requires Closed(e) && |d| == |e| && u < |e| && v < |e| && Place(d, v) < |s|
    requires s[Place(d, v)].tmp == TmpState(d[v], |Preds(e, u, v)|)
    ensures TmpDone(s, e, d, u, Place(d, v)) == TmpState(d[v], |Preds(e, u + 1, v)|)
  {
    var w0, w1 := e[u].next0, e[u].next1;
    if w0 >= 0 && Place(d, w0) == Place(d, v) {
      PlaceInjective(d, w0, v);
    }
    if w1 >= 0 && Place(d, w1) == Place(d, v) {
      PlaceInjective(d, w1, v);
    }
  }

  lemma {:induction false} RealDone(s: seq<Block>, c: seq<Range>, e: seq<Out>, d: seq<nat>, i: nat, u: nat, v: nat)
    requires Closed(e) && |c| == |e| == |d| && u < |e| && i == Place(d, u) && Relinking(s, c, e, d, i, u) && v < |e|
    requires i < |s| && forall w: nat :: w < |d| ==> Place(d, w) < |s|
    ensures EdgeDone1(EdgeDone0(s, e, d, u, i), e, d, u, i)[Place(d, v)] ==
            Block(c[v].first, c[v].last, if v < u + 1 then Hop0(e, d, v) else e[v].next0,
                  if v < u + 1 then Hop1(e, d, v) else e[v].next1, TmpState(d[v], |Preds(e, u + 1, v)|))
  {
    RealAt(s, c, e, d, i, u, v);
    PointDone(s, e, d, i, u, Place(d, v));
    TmpReal(s, e, d, u, v);
    if Place(d, v) == i {
      PlaceInjective(d, v, u);
    }
  }

  lemma {:induction false} ArtificialDone(s: seq<Block>, c: seq<Range>, e: seq<Out>, d: seq<nat>, i: nat, u: nat, t: nat)
    requires Closed(e) && |c| == |e| == |d| && u < |e| && i == Place(d, u) && Relinking(s, c, e, d, i, u)
    requires i < |s| && forall w: nat :: w < |d| ==> Place(d, w) < |s|
    requires t < Base(d, |d|) && t != Place(d, Owner(d, |d|, t))
    ensures EdgeDone1(EdgeDone0(s, e, d, u, i), e, d, u, i)[t] == s[t] == RelinkedAt(c, e, d, i + 1, u + 1, t)
  {
    PointDone(s, e, d, i, u, t);
    OwnerIs(d, i, u);
    var w0, w1 := e[u].next0, e[u].next1;
    if w0 >= 0 {
      OwnerIs(d, Place(d, w0), w0);
    }
    if w1 >= 0 {
      OwnerIs(d, Place(d, w1), w1);
    }
  }

  lemma {:induction false} EdgesDoneAt(s: seq<Block>, c: seq<Range>, e: seq<Out>, d: seq<nat>, i: nat, u: nat, t: nat)
    requires Closed(e) && |c| == |e| == |d| && u < |e| && i == Place(d, u) && Relinking(s, c, e, d, i, u)
    requires i < |s| && t < Base(d, |d|)
    ensures EdgeDone1(EdgeDone0(s, e, d, u, i), e, d, u, i)[t] == RelinkedAt(c, e, d, i + 1, u + 1, t)
  {
    forall w: nat | w < |d|
      ensures Place(d, w) < |s|
    {
      BaseGap(d, w, |d|);
    }
    var v := Owner(d, |d|, t);
    if t == Place(d, v) {
      RealDone(s, c, e, d, i, u, v);
    } else {
      ArtificialDone(s, c, e, d, i, u, t);
    }
  }

  /** While the new blocks are visited in order, u is the old block whose chain i is in. */
  ghost predicate Cursor(d: seq<nat>, u: nat, i: nat)
  {
    u <= |d| && Base(d, u) <= i && (if u < |d| then i <= Place(d, u) else i == Base(d, u))
  }

  lemma {:induction false} CursorEnd(d: seq<nat>, u: nat)
    requires Cursor(d, u, Base(d, |d|))
    ensures u == |d|
  {
    if u < |d| {
      BaseGap(d, u, |d|);
    }
  }

  lemma {:induction false} CursorNext(d: seq<nat>, u: nat, i: nat)
    requires Cursor(d, u, i) && i < Base(d, |d|)
    ensures u < |d| && Owner(d, |d|, i) == u
    ensures if i == Place(d, u) then Cursor(d, u + 1, i + 1) else Cursor(d, u, i + 1)
  {
    OwnerIs(d, i, u);
  }

  /** Real blocks are told from artificial ones by `last`. */
  lemma {:induction false} CursorAt(s: seq<Block>, c: seq<Range>, e: seq<Out>, d: seq<nat>, i: nat, u: nat)
    requires Closed(e) && |c| == |e| == |d| && Cursor(d, u, i) && i < Base(d, |d|) && Relinking(s, c, e, d, i, u)
    ensures u < |d| && Base(d, u) <= i <= Place(d, u) && (s[i].last >= 0 <==> i == Place(d, u))
    ensures if i == Place(d, u) then Cursor(d, u + 1, i + 1) else Cursor(d, u, i + 1)
  {
    CursorNext(d, u, i);
  }

  ghost predicate Dropping(s: seq<Block>, p: Program, c: seq<Range>, e: seq<Out>, d: seq<nat>, u: nat)
    requires Closed(e) && |c| == |e| == |d| && u <= |e|
  {
    Base(d, |d|) <= |s| && forall t: nat :: t < Base(d, |d|) ==> s[t] == DroppedAt(p, c, e, d, u, t)
  }

  ghost predicate Jumps(q: Program, p: Program, c: seq<Range>, d: seq<nat>, u: nat)
    requires u <= |c|
  {
    |q| == |p| && forall k: nat :: k < |p| ==> q[k] == PlacedInsn(p, c, d, u, k)
  }

  lemma {:induction false} NothingDropped(s: seq<Block>, p: Program, c: seq<Range>, e: seq<Out>, d: seq<nat>)
    requires Closed(e) && |c| == |e| == |d| && Relinking(s, c, e, d, Base(d, |d|), |e|)
    ensures Dropping(s, p, c, e, d, 0)
  {
  }

  lemma {:induction false} DropCursor(s: seq<Block>, p: Program, c: seq<Range>, e: seq<Out>, d: seq<nat>, i: nat, u: nat)
    requires Closed(e) && |c| == |e| == |d| && Cursor(d, u, i) && i < Base(d, |d|) && Dropping(s, p, c, e, d, u)
    ensures u < |d| && (s[i].last >= 0 <==> i == Place(d, u))
    ensures if i == Place(d, u) then Cursor(d, u + 1, i + 1) else Cursor(d, u, i + 1)
  {
    CursorNext(d, u, i);
  }

  lemma {:induction false} LinkArtificial(s: seq<Block>, s': seq<Block>, c: seq<Range>, e: seq<Out>, d: seq<nat>, i: nat, u: nat)
    requires Closed(e) && |c| == |e| == |d| && u < |e| && Base(d, u) <= i < Place(d, u) && i < Base(d, |d|)
    requires Relinking(s, c, e, d, i, u) && s' == s[i := s[i].(next0 := i + 1)]
    ensures Relinking(s', c, e, d, i + 1, u)
  {
    OwnerIs(d, i, u);
  }

  /** New block t once the fall-through edges of old blocks below u are dropped. */
  function DroppedAt(p: Program, c: seq<Range>, e: seq<Out>, d: seq<nat>, u: nat, t: nat): Block
    requires Closed(e) && |c| == |e| == |d| && u <= |e| && t < Base(d, |d|)
  {
    var v, b := Owner(d, |d|, t), RelinkedAt(c, e, d, Base(d, |d|), |e|, t);
    if t == Place(d, v) && v < u && c[v].last < |p| && Unconditional(p[c[v].last]) then b.(next1 := -1) else b
  }

  lemma {:induction false} DroppedNext(p: Program, c: seq<Range>, e: seq<Out>, d: seq<nat>, u: nat, x: nat)
    requires Closed(e) && |c| == |e| == |d| && u < |e| && x < Base(d, |d|) && x != Place(d, u)
    ensures DroppedAt(p, c, e, d, u + 1, x) == DroppedAt(p, c, e, d, u, x)
  {
  }

  lemma {:induction false} PlacedNext(p: Program, c: seq<Range>, e: seq<Out>, d: seq<nat>, u: nat, k: nat)
    requires GraphOf(p, c, e) && |d| == |e| && u < |e| && k < |p|
    ensures PlacedInsn(p, c, d, u + 1, k) ==
            if k == c[u].last && Unconditional(p[k]) then NOP else PlacedInsn(p, c, d, u, k)
  {
    if IsBranch(p[k]) && Limit(p, c, u) <= k < Limit(p, c, u + 1) {
      BranchIsLast(p, c, e, u, k);
    }
    assert c[u].first <= c[u].last < Limit(p, c, u + 1);
  }

  lemma {:induction false} DropInsn(q: Program, q': Program, p: Program, c: seq<Range>, e: seq<Out>, d: seq<nat>, u: nat)
    requires GraphOf(p, c, e) && |d| == |e| && u < |e| && Jumps(q, p, c, d, u)
    requires c[u].last < |p| && q' == if Unconditional(p[c[u].last]) then q[c[u].last := NOP] else q
    ensures Jumps(q', p, c, d, u + 1)
  {
    forall k: nat | k < |p|
      ensures q'[k] == PlacedInsn(p, c, d, u + 1, k)
    {
      PlacedNext(p, c, e, d, u, k);
    }
  }

  lemma {:induction false} DropOut(s: seq<Block>, s': seq<Block>, p: Program, c: seq<Range>, e: seq<Out>, d: seq<nat>, u: nat)
    requires Closed(e) && |c| == |e| == |d| && u < |e| && Dropping(s, p, c, e, d, u) && c[u].last < |p| && Place(d, u) < |s|
    requires var t := Place(d, u); s' == if Unconditional(p[c[u].last]) then s[t := s[t].(next1 := -1)] else s
    ensures Dropping(s', p, c, e, d, u + 1)
  {
    forall x: nat | x < Base(d, |d|)
      ensures s'[x] == DroppedAt(p, c, e, d, u + 1, x)
    {
      if x == Place(d, u) {
        OwnerIs(d, x, u);
      } else {
        DroppedNext(p, c, e, d, u, x);
      }
    }
  }

  // ----------------------------------------------------------- backward links

  function At(q: seq<nat>, k: nat): int { if k < |q| then q[k] else -1 }

  /** prev[0] and prev[1] list the predecessors below i. */
  ghost predicate PrevLinks(a: seq<int>, b: seq<int>, g: seq<Out>, i: nat)
    requires i <= |g|
  {
    && |g| <= |a| && |g| <= |b|
    && (forall t: nat :: t < |g| ==> a[t] == At(Preds(g, i, t), 0) && b[t] == At(Preds(g, i, t), 1))
  }

  /** The predecessors of t below i, and i itself for its first edge. */
  function Mid(g: seq<Out>, i: nat, t: nat): seq<nat>
    requires i < |g|
  {
    Preds(g, i, t) + (if g[i].next0 == t then [i] else [])
  }

  ghost predicate MidLinks(a: seq<int>, b: seq<int>, g: seq<Out>, i: nat)
    requires i < |g|
  {
    && |g| <= |a| && |g| <= |b|
    && (forall t: nat :: t < |g| ==> a[t] == At(Mid(g, i, t), 0) && b[t] == At(Mid(g, i, t), 1))
  }

  lemma {:induction false} PrevHalf(a: seq<int>, b: seq<int>, a': seq<int>, b': seq<int>, g: seq<Out>, i: nat)
    requires Closed(g) && i < |g| && PrevLinks(a, b, g, i)
    requires var t0 := g[i].next0;
             if t0 < 0 then a' == a && b' == b
             else a' == a[t0 := At(Preds(g, i, t0) + [i], 0)] && b' == b[t0 := At(Preds(g, i, t0) + [i], 1)]
    ensures MidLinks(a', b', g, i)
  {
  }

  lemma {:induction false} PrevNext(a: seq<int>, b: seq<int>, a': seq<int>, b': seq<int>, g: seq<Out>, i: nat)
    requires Closed(g) && i < |g| && MidLinks(a, b, g, i)
    requires var t1 := g[i].next1;
             if t1 < 0 then a' == a && b' == b
             else a' == a[t1 := At(Mid(g, i, t1) + [i], 0)] && b' == b[t1 := At(Mid(g, i, t1) + [i], 1)]
    ensures PrevLinks(a', b', g, i + 1)
  {
    forall t: nat | t < |g|
      ensures a'[t] == At(Preds(g, i + 1, t), 0) && b'[t] == At(Preds(g, i + 1, t), 1)
    {
      assert Preds(g, i + 1, t) == Mid(g, i, t) + (if g[i].next1 == t then [i] else []);
    }
  }

  // ---------------------------------------------------------------- the result

  /** The table sizes the source asserts, and the one it does not: room for the
      artificial blocks. */
  predicate FitsTables(p: Program)
  {
    var e := Edges(p);
    |e| < MAX_BB && Base(Degrees(e, |e|), |e|) <= MAX_BB
  }

  lemma {:induction false} MarkerUndone(s: seq<Block>, s': seq<Block>, k: nat)
    requires k < |s| && s' == s[k := s[k].(next0 := BBID_END)] && s[k].next0 == -1
    ensures s'[k := s'[k].(next0 := -1)] == s
  {
  }

  lemma {:induction false} AlwaysRoom(e: seq<Out>, d: seq<nat>)
    requires d == Degrees(e, |e|)
    ensures EnoughRoom(e, d)
  {
    forall w: nat | w < |d|
      ensures Room(e, d, w)
    {
    }
  }

  /** The edges of the finished graph, without the START and END markers. */
  function FinalEdges(p: Program, c: seq<Range>, e: seq<Out>, d: seq<nat>): (g: seq<Out>)
    requires Closed(e) && |c| == |e| == |d|
    ensures |g| == Base(d, |d|)
  {
    seq(Base(d, |d|), t requires 0 <= t < Base(d, |d|) =>
      var b := DroppedAt(p, c, e, d, |e|, t); Out(b.next0, b.next1))
  }

  /** s, a, b and q are the blocks, their prev links and the instructions that
      `detect_bb` makes of p. */
  ghost predicate Detected(p: Program, q: Program, s: seq<Block>, n: nat, a: seq<int>, b: seq<int>)
  {
    var c, e := Cut(p, |p|), Edges(p);
    var d := Degrees(e, |e|);
    && GraphOf(p, c, e) && n == Base(d, |d|)
    && Dropping(s, p, c, e, d, |e|) && Jumps(q, p, c, d, |c|)
    && AllPrevs(FinalEdges(p, c, e, d), a, b)
  }

  /** prev[0] and prev[1] are all the predecessors of every block. */
  ghost predicate AllPrevs(g: seq<Out>, a: seq<int>, b: seq<int>)
  {
    PrevLinks(a, b, g, |g|) && forall t: nat :: t < |g| ==> |Preds(g, |g|, t)| <= 2
  }

  lemma {:induction false} FinalEdgeAt(p: Program, c: seq<Range>, e: seq<Out>, d: seq<nat>, t: nat)
    requires Closed(e) && |c| == |e| == |d| && t < Base(d, |d|)
    ensures var f, g, v := NewOut(e, d, t), FinalEdges(p, c, e, d)[t], Owner(d, |d|, t);
            && g.next0 == f.next0
            && g.next1 == if t == Place(d, v) && c[v].last < |p| && Unconditional(p[c[v].last]) then -1 else f.next1
  {
  }

  lemma {:induction false} FinalDropped(p: Program, c: seq<Range>, e: seq<Out>, d: seq<nat>)
    requires Closed(e) && |c| == |e| == |d|
    ensures Dropped(NewEdges(e, d), FinalEdges(p, c, e, d))
  {
    forall t: nat | t < Base(d, |d|)
      ensures var f, g := NewEdges(e, d)[t], FinalEdges(p, c, e, d)[t];
              g.next0 == f.next0 && (g.next1 == f.next1 || g.next1 == -1)
    {
      FinalEdgeAt(p, c, e, d, t);
    }
  }

  lemma {:induction false} HopInside(e: seq<Out>, d: seq<nat>, u: nat)
    requires Closed(e) && d == Degrees(e, |e|) && u < |e|
    ensures -1 <= Hop0(e, d, u) < Base(d, |d|) && -1 <= Hop1(e, d, u) < Base(d, |d|)
  {
    var w0, w1 := e[u].next0, e[u].next1;
    if w0 >= 0 {
      EdgeCounted(e, u, w0);
      BaseGap(d, w0, |d|);
    }
    if w1 >= 0 {
      EdgeCounted(e, u, w1);
      BaseGap(d, w1, |d|);
    }
  }

  /** The new graph is closed and each block has at most two predecessors. */
  lemma {:induction false} FinalLinks(p: Program, c: seq<Range>, e: seq<Out>, d: seq<nat>)
    requires Closed(e) && |c| == |e| && d == Degrees(e, |e|)
    ensures var g := FinalEdges(p, c, e, d);
            Closed(g) && forall t: nat :: t < |g| ==> |Preds(g, |g|, t)| <= 2
  {
    var f, g := NewEdges(e, d), FinalEdges(p, c, e, d);
    FinalDropped(p, c, e, d);
    forall t: nat | t < |g|
      ensures -1 <= g[t].next0 < |g| && -1 <= g[t].next1 < |g|
    {
      HopInside(e, d, Owner(d, |d|, t));
      if t != Place(d, Owner(d, |d|, t)) {
        ArtificialInside(d, t);
      }
      FinalEdgeAt(p, c, e, d, t);
    }
    forall t: nat | t < |g|
      ensures |Preds(g, |g|, t)| <= 2
    {
      AtMostTwo(e, d, t);
      DroppedPreds(f, g, |g|, t);
    }
  }

  lemma {:induction false} ArtificialInside(d: seq<nat>, t: nat)
    requires t < Base(d, |d|) && t != Place(d, Owner(d, |d|, t))
    ensures t + 1 < Base(d, |d|)
  {
    BaseGap(d, Owner(d, |d|, t), |d|);
  }

  lemma {:induction false} NoneToZero(e: seq<Out>, n: nat)
    requires n <= |e| && forall u: nat :: u < |e| ==> e[u].next0 != 0 && e[u].next1 != 0
    ensures Preds(e, n, 0) == []
  {
    if n > 0 {
      NoneToZero(e, n - 1);
    }
  }

  lemma {:induction false} NoEdgeToZero(p: Program, c: seq<Range>, e: seq<Out>, u: nat)
    requires Wellformed(p) && GraphOf(p, c, e) && u < |e|
    ensures e[u].next0 != 0 && e[u].next1 != 0
  {
    assert e[u] == OutOf(p, c, u) && EndsAtLast(p, c[u]) && Unmarked(p[c[u].last]) && c[0].first == 0;
  }

  /** The first block has no predecessor and the last no successor, so the START and
      END markers overwrite nothing. */
  lemma {:induction false} EdgeEnds(p: Program, c: seq<Range>, e: seq<Out>, d: seq<nat>)
    requires Wellformed(p) && GraphOf(p, c, e) && d == Degrees(e, |e|)
    ensures var g := FinalEdges(p, c, e, d);
            |g| > 0 && Preds(g, |g|, 0) == [] && g[|g| - 1] == Out(-1, -1)
  {
    var f, g := NewEdges(e, d), FinalEdges(p, c, e, d);
    forall u: nat | u < |e|
      ensures e[u].next0 != 0 && e[u].next1 != 0
    {
      NoEdgeToZero(p, c, e, u);
    }
    NoneToZero(e, |e|);
    OwnerIs(d, 0, 0);
    AtMostTwo(e, d, 0);
    FinalDropped(p, c, e, d);
    DroppedPreds(f, g, |g|, 0);
    LastOut(p, c, e, d);
  }

  lemma {:induction false} LastOut(p: Program, c: seq<Range>, e: seq<Out>, d: seq<nat>)
    requires GraphOf(p, c, e) && |d| == |e|
    ensures FinalEdges(p, c, e, d)[Base(d, |d|) - 1] == Out(-1, -1)
  {
    var v: nat := |d| - 1;
    var t: nat := Base(d, |d|) - 1;
    assert t == Place(d, v) && e[v] == OutOf(p, c, v);
    OwnerIs(d, t, v);
    FinalEdgeAt(p, c, e, d, t);
  }

  /** Each surviving edge of the original graph is a path through artificial blocks
      only; a fall-through edge survives unless its block ends in an unconditional jump. */
  lemma {:induction false} EdgesSurvive(p: Program, c: seq<Range>, e: seq<Out>, u: nat)
    requires GraphOf(p, c, e) && u < |e|
    ensures var d := Degrees(e, |e|);
            var g, x := FinalEdges(p, c, e, d), Place(d, u);
            && x < |g| && c[u].last < |p|
            && (if e[u].next0 >= 0 then Path(d, g, g[x].next0, Place(d, e[u].next0)) else g[x].next0 == -1)
            && (if e[u].next1 >= 0 && !Unconditional(p[c[u].last]) then Path(d, g, g[x].next1, Place(d, e[u].next1))
                else g[x].next1 == -1)
  {
    var d := Degrees(e, |e|);
    var x := Place(d, u);
    assert EndsAtLast(p, c[u]);
    EdgeBecomesPath(e, d, u);
    OwnerIs(d, x, u);
    FinalEdgeAt(p, c, e, d, x);
    if e[u].next0 >= 0 {
      PathKept(p, c, e, d, NewEdges(e, d)[x].next0, Place(d, e[u].next0));
    }
    if e[u].next1 >= 0 && !Unconditional(p[c[u].last]) {
      PathKept(p, c, e, d, NewEdges(e, d)[x].next1, Place(d, e[u].next1));
    }
  }

  lemma {:induction false} PathKept(p: Program, c: seq<Range>, e: seq<Out>, d: seq<nat>, t: int, x: int)
    requires Closed(e) && |c| == |e| == |d| && Path(d, NewEdges(e, d), t, x)
    ensures Path(d, FinalEdges(p, c, e, d), t, x)
  {
    var f, g := NewEdges(e, d), FinalEdges(p, c, e, d);
    forall y | t <= y < x
      ensures g[y] == Out(y + 1, -1)
    {
      assert f[y] == Out(y + 1, -1) && Artificial(d, y);
      FinalEdgeAt(p, c, e, d, y);
    }
  }

  // ------------------------------------------- what the graph means for the program

  /** From t, artificial blocks only lead to block x. */
  ghost predicate LeadsTo(s: seq<Block>, n: nat, t: int, x: nat)
  {
    && n <= |s| && 0 <= t <= x < n && s[x].last >= 0
    && forall y :: t <= y < x ==> s[y].last < 0 && s[y].next0 == y + 1 && s[y].next1 == -1
  }

  /** From t, artificial blocks only lead to the block that starts with instruction k. */
  ghost predicate Reaches(s: seq<Block>, n: nat, t: int, k: int)
  {
    exists x: nat :: LeadsTo(s, n, t, x) && s[x].first == k
  }

  /** Block x goes where its last instruction goes: next[0] to the target of a branch, next[1]
      behind it unless the branch is unconditional; without a branch next[0] goes on. */
  ghost predicate FlowsOn(p: Program, s: seq<Block>, n: nat, x: nat)
    requires x < n <= |s|
  {
    var b, l := s[x], s[x].last;
    && 0 <= b.first <= l < |p|
    && if IsBranch(p[l]) then
         Reaches(s, n, b.next0, Target(p[l])) && if p[l].op1.Const? then b.next1 == -1 else Reaches(s, n, b.next1, l + 1)
       else b.next1 == -1 && if l == |p| - 1 then b.next0 == -1 else Reaches(s, n, b.next0, l + 1)
  }

  /** No branch stands inside block x. */
  ghost predicate Straight(p: Program, s: seq<Block>, x: nat)
    requires x < |s|
  {
    forall k: nat :: s[x].first <= k < s[x].last && k < |p| ==> !IsBranch(p[k])
  }

  ghost predicate Holds(s: seq<Block>, x: nat, k: nat)
  {
    x < |s| && s[x].first <= k <= s[x].last
  }

  /** Instruction k is in exactly one of the n blocks. */
  ghost predicate InOneBlock(s: seq<Block>, n: nat, k: nat)
  {
    (exists x: nat :: x < n && Holds(s, x, k)) && forall x: nat, y: nat :: x < n && y < n && Holds(s, x, k) && Holds(s, y, k) ==> x == y
  }

  /** The control flow of the blocks is that of the program. */
  ghost predicate SameFlow(p: Program, s: seq<Block>, n: nat)
  {
    && n <= |s| && (forall k: nat :: k < |p| ==> InOneBlock(s, n, k))
    && (forall x: nat :: x < n && s[x].last >= 0 ==> FlowsOn(p, s, n, x) && Straight(p, s, x))
    && (forall x: nat :: x < n && s[x].last < 0 ==> Reaches(s, n, x, s[x].first))
  }

  /** Conditional jumps name the block their target starts, unconditional ones are gone, and
      nothing else has changed but the marks. */
  ghost predicate JumpsToBlocks(p: Program, q: Program, s: seq<Block>, n: nat)
  {
    && n <= |s| && |q| == |p|
    && forall k: nat :: k < |p| ==>
         if !IsBranch(p[k]) then SameButMarks(p[k], q[k]) && q[k].op0 == p[k].op0
         else if p[k].op1.Const? then q[k] == NOP
         else SameButMarks(p[k], q[k]) && q[k].op0.Link? && q[k].op0.block < n && s[q[k].op0.block].last >= 0
              && s[q[k].op0.block].first == Target(p[k])
  }

  predicate SameButMarks(i: Insn, j: Insn)
  {
    && j.index == i.index && j.op1 == i.op1 && j.op2 == i.op2 && j.op3 == i.op3
    && j.typ - {BBStart, BBEnd} == i.typ - {BBStart, BBEnd}
  }

  /** prev[0] and prev[1] name the blocks that lead to t, a block that leads there twice in both;
      a single one is in prev[0]. */
  ghost predicate PrevsOf(s: seq<Block>, n: nat, a: seq<int>, b: seq<int>, t: nat)
    requires n <= |s|
  {
    && t < |a| && t < |b| && (a[t] == -1 ==> b[t] == -1)
    && (forall x: nat :: x < n ==> (x == a[t] || x == b[t] <==> s[x].next0 == t || s[x].next1 == t))
    && (forall x: nat :: x < n && x == a[t] == b[t] <==> x < n && s[x].next0 == t && s[x].next1 == t)
    && -1 <= a[t] < n && -1 <= b[t] < n
  }

  /** Block v of the partition at its new place. */
  lemma {:induction false} BlockIs(p: Program, s: seq<Block>, c: seq<Range>, e: seq<Out>, d: seq<nat>, v: nat, x: nat)
    requires Closed(e) && |c| == |e| == |d| && Dropping(s, p, c, e, d, |e|) && v < |c| && x == Place(d, v)
    ensures x < Base(d, |d|) <= |s| && s[x].first == c[v].first && s[x].last == c[v].last
    ensures Out(s[x].next0, s[x].next1) == FinalEdges(p, c, e, d)[x]
  {
    OwnerIs(d, x, v);
  }

  lemma {:induction false} ArtificialIs(p: Program, s: seq<Block>, c: seq<Range>, e: seq<Out>, d: seq<nat>, y: nat)
    requires Closed(e) && |c| == |e| == |d| && Dropping(s, p, c, e, d, |e|) && y < Base(d, |d|)
    requires y != Place(d, Owner(d, |d|, y))
    ensures s[y].last == -1 && s[y].next0 == y + 1 && s[y].next1 == -1 && s[y].first == c[Owner(d, |d|, y)].first
  {
  }

  lemma {:induction false} PathLeads(p: Program, s: seq<Block>, c: seq<Range>, e: seq<Out>, d: seq<nat>, t: int, w: nat)
    requires Closed(e) && |c| == |e| == |d| && Dropping(s, p, c, e, d, |e|) && w < |c|
    requires Path(d, FinalEdges(p, c, e, d), t, Place(d, w))
    ensures LeadsTo(s, Base(d, |d|), t, Place(d, w)) && s[Place(d, w)].first == c[w].first
    ensures Reaches(s, Base(d, |d|), t, c[w].first)
  {
    BlockIs(p, s, c, e, d, w, Place(d, w));
    forall y | t <= y < Place(d, w)
      ensures s[y].last < 0 && s[y].next0 == y + 1 && s[y].next1 == -1
    {
      assert Artificial(d, y);
      ArtificialIs(p, s, c, e, d, y);
    }
  }

  /** Where the edges of block v lead. */
  lemma {:induction false} EdgeTargets(p: Program, c: seq<Range>, e: seq<Out>, v: nat)
    requires GraphOf(p, c, e) && c == Cut(p, |p|) && InFunction(p, |p|) && v < |c|
    ensures var l := c[v].last;
            && c[v].first <= l < |p|
            && (if IsBranch(p[l]) then FirstOf(c, Target(p[l]), e[v].next0) && FirstOf(c, l + 1, e[v].next1)
                else if l == |p| - 1 then e[v] == Out(-1, -1) else FirstOf(c, l + 1, e[v].next0) && e[v].next1 == -1)
  {
    var l := c[v].last;
    assert EndsAtLast(p, c[v]) && e[v] == OutOf(p, c, v);
    if IsBranch(p[l]) {
      TargetFound(p, l);
    }
    if l < |p| - 1 {
      assert v + 1 < |c|;
    }
  }

  /** Where next[0] and next[1] of block v lead. */
  lemma {:induction false} NextsLead(p: Program, s: seq<Block>, c: seq<Range>, e: seq<Out>, d: seq<nat>, v: nat, x: nat, n: nat)
    requires GraphOf(p, c, e) && d == Degrees(e, |e|) && v < |c| && Dropping(s, p, c, e, d, |e|)
    requires x == Place(d, v) && n == Base(d, |d|)
    ensures x < n <= |s| && s[x].first == c[v].first && s[x].last == c[v].last < |p|
    ensures if e[v].next0 >= 0 then Reaches(s, n, s[x].next0, c[e[v].next0].first) else s[x].next0 == -1
    ensures if e[v].next1 >= 0 && !Unconditional(p[c[v].last]) then Reaches(s, n, s[x].next1, c[e[v].next1].first)
            else s[x].next1 == -1
  {
    BlockIs(p, s, c, e, d, v, x);
    EdgesSurvive(p, c, e, v);
    if e[v].next0 >= 0 {
      PathLeads(p, s, c, e, d, s[x].next0, e[v].next0);
    }
    if e[v].next1 >= 0 && !Unconditional(p[c[v].last]) {
      PathLeads(p, s, c, e, d, s[x].next1, e[v].next1);
    }
  }

  lemma {:induction false} BlockFlows(p: Program, s: seq<Block>, c: seq<Range>, e: seq<Out>, d: seq<nat>, v: nat, x: nat, n: nat)
    requires GraphOf(p, c, e) && c == Cut(p, |p|) && InFunction(p, |p|) && d == Degrees(e, |e|) && v < |c|
    requires Dropping(s, p, c, e, d, |e|) && x == Place(d, v) && n == Base(d, |d|)
    ensures x < n <= |s| && FlowsOn(p, s, n, x) && Straight(p, s, x)
  {
    NextsLead(p, s, c, e, d, v, x, n);
    EdgeTargets(p, c, e, v);
    NoBranchInside(p, s, c[v], x);
  }

  lemma {:induction false} NoBranchInside(p: Program, s: seq<Block>, r: Range, x: nat)
    requires EndsAtLast(p, r) && x < |s| && s[x].first == r.first && s[x].last == r.last
    ensures Straight(p, s, x)
  {
    forall k: nat | s[x].first <= k < s[x].last && k < |p|
      ensures !IsBranch(p[k])
    {
      assert !Ends(p, k);
    }
  }

  lemma {:induction false} ArtificialReaches(p: Program, s: seq<Block>, c: seq<Range>, e: seq<Out>, d: seq<nat>, y: nat)
    requires Closed(e) && |c| == |e| == |d| && Dropping(s, p, c, e, d, |e|) && y < Base(d, |d|)
    requires y != Place(d, Owner(d, |d|, y))
    requires forall u: nat :: u < |c| ==> 0 <= c[u].last
    ensures Reaches(s, Base(d, |d|), y, s[y].first)
  {
    var v := Owner(d, |d|, y);
    BlockIs(p, s, c, e, d, v, Place(d, v));
    forall z | y <= z < Place(d, v)
      ensures s[z].last < 0 && s[z].next0 == z + 1 && s[z].next1 == -1
    {
      OwnerIs(d, z, v);
      ArtificialIs(p, s, c, e, d, z);
    }
    ArtificialIs(p, s, c, e, d, y);
    assert LeadsTo(s, Base(d, |d|), y, Place(d, v));
  }

  /** The block of a partition that holds instruction k. */
  lemma {:induction false} HeldBy(p: Program, c: seq<Range>, k: nat, n: nat) returns (v: nat)
    requires Partition(p, c, |p|) && 0 < n <= |c| && k <= c[n - 1].last
    ensures v < n && c[v].first <= k <= c[v].last
    decreases n
  {
    if k >= c[n - 1].first {
      v := n - 1;
    } else {
      v := HeldBy(p, c, k, n - 1);
    }
  }

  lemma {:induction false} Disjoint(p: Program, c: seq<Range>, v: nat, w: nat)
    requires Partition(p, c, |p|) && v < w < |c|
    ensures c[v].last < c[w].first
    decreases w
  {
    if v < w - 1 {
      Disjoint(p, c, v, w - 1);
    }
  }

  lemma {:induction false} HeldOnce(p: Program, s: seq<Block>, c: seq<Range>, e: seq<Out>, d: seq<nat>, k: nat)
    requires GraphOf(p, c, e) && |d| == |e| && Dropping(s, p, c, e, d, |e|) && k < |p|
    ensures InOneBlock(s, Base(d, |d|), k)
  {
    var n := Base(d, |d|);
    var v := HeldBy(p, c, k, |c|);
    BlockIs(p, s, c, e, d, v, Place(d, v));
    assert Holds(s, Place(d, v), k);
    forall x: nat | x < n && Holds(s, x, k)
      ensures x == Place(d, v)
    {
      var w := Owner(d, |d|, x);
      if x != Place(d, w) {
        ArtificialIs(p, s, c, e, d, x);
      } else {
        BlockIs(p, s, c, e, d, w, x);
        if v < w {
          Disjoint(p, c, v, w);
        } else if w < v {
          Disjoint(p, c, w, v);
        }
      }
    }
  }

  /** The blocks of the finished graph do what the program does. */
  lemma {:induction false} FlowKept(p: Program, s: seq<Block>, c: seq<Range>, e: seq<Out>, d: seq<nat>)
    requires GraphOf(p, c, e) && c == Cut(p, |p|) && InFunction(p, |p|) && d == Degrees(e, |e|)
    requires Dropping(s, p, c, e, d, |e|)
    ensures SameFlow(p, s, Base(d, |d|))
  {
    var n := Base(d, |d|);
    forall k: nat | k < |p|
      ensures InOneBlock(s, n, k)
    {
      HeldOnce(p, s, c, e, d, k);
    }
    forall x: nat | x < n
      ensures if s[x].last >= 0 then FlowsOn(p, s, n, x) && Straight(p, s, x) else Reaches(s, n, x, s[x].first)
    {
      var v := Owner(d, |d|, x);
      if x == Place(d, v) {
        BlockIs(p, s, c, e, d, v, x);
        BlockFlows(p, s, c, e, d, v, x, n);
      } else {
        ArtificialIs(p, s, c, e, d, x);
        ArtificialReaches(p, s, c, e, d, x);
      }
    }
  }

  lemma {:induction false} JumpPlaced(p: Program, q: Program, s: seq<Block>, c: seq<Range>, e: seq<Out>, d: seq<nat>, k: nat)
    requires Wellformed(p) && GraphOf(p, c, e) && c == Cut(p, |p|) && InFunction(p, |p|) && |d| == |e|
    requires Dropping(s, p, c, e, d, |e|) && Jumps(q, p, c, d, |c|) && k < |p|
    ensures if !IsBranch(p[k]) then SameButMarks(p[k], q[k]) && q[k].op0 == p[k].op0
            else if p[k].op1.Const? then q[k] == NOP
            else SameButMarks(p[k], q[k]) && q[k].op0.Link? && q[k].op0.block < Base(d, |d|)
                 && s[q[k].op0.block].last >= 0 && s[q[k].op0.block].first == Target(p[k])
  {
    assert q[k] == PlacedInsn(p, c, d, |c|, k);
    if IsBranch(p[k]) && !p[k].op1.Const? {
      TargetFound(p, k);
      var j := Find(c, Target(p[k]), 0);
      BlockIs(p, s, c, e, d, j, Place(d, j));
    }
  }

  lemma {:induction false} PrevsAre(s: seq<Block>, g: seq<Out>, a: seq<int>, b: seq<int>, t: nat)
    requires |g| <= |s| && (forall x: nat :: x < |g| ==> g[x] == Out(s[x].next0, s[x].next1)) && AllPrevs(g, a, b) && t < |g|
    ensures PrevsOf(s, |g|, a, b, t)
  {
    var ps := Preds(g, |g|, t);
    assert |ps| <= 2 && a[t] == At(ps, 0) && b[t] == At(ps, 1);
    PredsBelow(g, |g|, t);
    forall x: nat | x < |g|
      ensures (if x == a[t] then 1 else 0) + (if x == b[t] then 1 else 0) ==
              (if s[x].next0 == t then 1 else 0) + (if s[x].next1 == t then 1 else 0)
    {
      PredsCount(g, |g|, t, x);
      ShortCount(ps, x);
      assert g[x] == Out(s[x].next0, s[x].next1);
    }
  }

  lemma {:induction false} ShortCount(ps: seq<nat>, x: nat)
    requires |ps| <= 2
    ensures Occurs(ps, x) == (if x == At(ps, 0) then 1 else 0) + (if x == At(ps, 1) then 1 else 0)
  {
    if |ps| == 1 {
      OccursOnce(ps[0], x);
      assert ps == [ps[0]];
    } else if |ps| == 2 {
      OccursOnce(ps[0], x);
      OccursOnce(ps[1], x);
      CountJoins([ps[0]], [ps[1]], x);
      assert ps == [ps[0]] + [ps[1]];
    }
  }

  function Occurs(s: seq<nat>, x: nat): nat
  {
    if s == [] then 0 else Occurs(s[..|s| - 1], x) + (if s[|s| - 1] == x then 1 else 0)
  }

  /** x is listed once for each of its edges to t. */
  lemma {:induction false} PredsCount(g: seq<Out>, n: nat, t: nat, x: nat)
    requires n <= |g|
    ensures Occurs(Preds(g, n, t), x) ==
            if x < n then (if g[x].next0 == t then 1 else 0) + (if g[x].next1 == t then 1 else 0) else 0
  {
    if n > 0 {
      PredsCount(g, n - 1, t, x);
      var ps, h := Preds(g, n - 1, t), Hit(g[n - 1], n - 1, t);
      assert Preds(g, n, t) == ps + h;
      CountJoins(ps, h, x);
      HitCount(g[n - 1], n - 1, t, x);
    }
  }

  lemma {:induction false} CountJoins(a: seq<nat>, b: seq<nat>, x: nat)
    ensures Occurs(a + b, x) == Occurs(a, x) + Occurs(b, x)
    decreases |b|
  {
    if b == [] {
      assert a + b == a;
    } else {
      var k := |b| - 1;
      CountJoins(a, b[..k], x);
      assert (a + b)[..|a| + k] == a + b[..k];
    }
  }

  lemma {:induction false} HitCount(o: Out, u: nat, t: nat, x: nat)
    ensures Occurs(Hit(o, u, t), x) ==
            if x == u then (if o.next0 == t then 1 else 0) + (if o.next1 == t then 1 else 0) else 0
  {
    OccursOnce(u, x);
    CountJoins(if o.next0 == t then [u] else [], if o.next1 == t then [u] else [], x);
  }

  lemma {:induction false} OccursOnce(u: nat, x: nat)
    ensures Occurs([u], x) == if x == u then 1 else 0
  {
    assert [u][..0] == [];
  }

  lemma {:induction false} PredsBelow(g: seq<Out>, n: nat, t: nat)
    requires n <= |g|
    ensures forall i :: 0 <= i < |Preds(g, n, t)| ==> Preds(g, n, t)[i] < n
  {
    if n > 0 {
      PredsBelow(g, n - 1, t);
    }
  }

  /** What `detect_bb` makes of p. */
  ghost predicate Understood(p: Program, q: Program, s: seq<Block>, n: nat, a: seq<int>, b: seq<int>)
  {
    SameFlow(p, s, n) && JumpsToBlocks(p, q, s, n) && forall t: nat :: t < n ==> PrevsOf(s, n, a, b, t)
  }

  lemma {:induction false} DetectedFlow(p: Program, q: Program, s: seq<Block>, n: nat, a: seq<int>, b: seq<int>)
    requires Wellformed(p) && InFunction(p, |p|) && Detected(p, q, s, n, a, b)
    ensures Understood(p, q, s, n, a, b)
  {
    var c, e := Cut(p, |p|), Edges(p);
    var d := Degrees(e, |e|);
    FlowKept(p, s, c, e, d);
    forall k: nat | k < |p|
      ensures if !IsBranch(p[k]) then SameButMarks(p[k], q[k]) && q[k].op0 == p[k].op0
              else if p[k].op1.Const? then q[k] == NOP
              else SameButMarks(p[k], q[k]) && q[k].op0.Link? && q[k].op0.block < n
                   && s[q[k].op0.block].last >= 0 && s[q[k].op0.block].first == Target(p[k])
    {
      JumpPlaced(p, q, s, c, e, d, k);
    }
    forall t: nat | t < n
      ensures PrevsOf(s, n, a, b, t)
    {
      PrevsAre(s, FinalEdges(p, c, e, d), a, b, t);
    }
  }

  /** Old blocks below i are still in place; the chains of the others are made. */
  ghost predicate Inserting(s: seq<Block>, c: seq<Range>, e: seq<Out>, d: seq<nat>, i: nat)
    requires Closed(e) && |c| == |e| == |d| && i <= |d|
  {
    && Base(d, |d|) <= |s| && (forall v: nat :: v < i ==> v < |s| && s[v] == PartBlock(c, e, |e|, v))
    && forall t: nat :: Base(d, i) <= t < Base(d, |d|) ==> s[t] == RelinkedAt(c, e, d, 0, 0, t)
  }

  lemma {:induction false} PartAt(s: seq<Block>, c: seq<Range>, e: seq<Out>, d: seq<nat>, i: nat)
    requires Closed(e) && |c| == |e| && d == Degrees(e, |e|) && i < |d| && Inserting(s, c, e, d, i + 1)
    ensures i < |s| && s[i] == Block(c[i].first, c[i].last, e[i].next0, e[i].next1, d[i])
    ensures Base(d, i + 1) <= |s|
  {
    BaseGap(d, i, |d|);
  }

  lemma {:induction false} InsertNext(s: seq<Block>, s': seq<Block>, c: seq<Range>, e: seq<Out>, d: seq<nat>, i: nat)
    requires Closed(e) && |c| == |e| == |d| && i < |d| && Inserting(s, c, e, d, i + 1) && |s'| == |s|
    requires forall t: nat :: Base(d, i) <= t < Base(d, i + 1) && t < |s| ==> s'[t] == MovedAt(c, e, d, i, t)
    requires forall t: nat :: t < |s| && (t < i || Base(d, i + 1) <= t) ==> s'[t] == s[t]
    ensures Inserting(s', c, e, d, i)
  {
    MovedOwner(c, e, d, i);
  }

  class Detector {
    const insn: array<Insn>
    const bb: array<Block>
    const reloc: array<nat>
    const prev0: array<int>
    const prev1: array<int>
    var numInsn: nat
    var numBB: nat

    predicate Valid()
      reads this
    {
      && insn.Length == MAX_INSNS && reloc.Length == MAX_INSNS && numInsn <= MAX_INSNS
      && bb.Length == prev0.Length == prev1.Length == MAX_BB && numBB <= MAX_BB && prev0 != prev1
    }

    method SetMark(k: nat, start: bool, end: bool)
      requires k < insn.Length
      modifies insn
      ensures insn[..] == MarkOne(old(insn[..]), k, start, end)
    {
      insn[k] := insn[k].(typ := insn[k].typ + (if start then {BBStart} else {}) + (if end then {BBEnd} else {}));
    }

    method Visit(ghost p: Program, i: nat, endBB: bool) returns (ok: bool)
      requires Valid() && i < numInsn == |p| && endBB == (i > 0 && IsBranch(p[i - 1]))
      requires IsBranch(p[i]) ==> Target(p[i]) > 0
      requires IsBranch(insn[i]) == IsBranch(p[i]) && Target(insn[i]) == Target(p[i])
      modifies insn
      ensures ok == (IsBranch(p[i]) ==> Target(p[i]) < |p|)
      ensures ok ==> Visited(p, old(insn[..numInsn]), insn[..numInsn], i)
    {
      ok := true;
      ghost var q := insn[..numInsn];
      SetMark(i, endBB, false);
      assert insn[..numInsn] == MarkOne(q, i, endBB, false);
      if Branch in insn[i].typ {
        var jt := Target(insn[i]);
        SetMark(i, false, true);
        if jt >= numInsn {
          return false;
        }
        ghost var r := insn[..numInsn];
        assert r == MarkOne(MarkOne(q, i, endBB, false), i, false, true);
        if jt > 0 {
          SetMark(jt - 1, false, true);
        }
        SetMark(jt, true, false);
        assert insn[..numInsn] == MarkOne(MarkOne(r, jt - 1, false, true), jt, true, false);
        BranchVisited(p, q, i);
      } else {
        forall k: nat | k < |p|
          ensures insn[k] == Mark(q[k], StartMark(p, i, k), EndMark(p, i, k))
        {
          MarkOneAt(q, i, endBB, false, k);
        }
      }
    }

    /** Marks block starts and ends; false is the "jump out of function" exit. */
    method MarkLimits() returns (ok: bool)
      requires Valid() && Wellformed(insn[..numInsn])
      modifies insn
      ensures ok == InFunction(old(insn[..numInsn]), numInsn)
      ensures ok ==> insn[..numInsn] == Marked(old(insn[..numInsn]))
    {
      ghost var p := insn[..numInsn];
      var endBB := false;
      for i := 0 to numInsn
        invariant endBB == (i > 0 && IsBranch(p[i - 1]))
        invariant MarkedBy(p, insn[..numInsn], i)
        invariant InFunction(p, i)
      {
        assert insn[i] == insn[..numInsn][i] && Unmarked(p[i]);
        ghost var q := insn[..numInsn];
        var branch := Branch in insn[i].typ;
        ok := Visit(p, i, endBB);
        if !ok {
          return;
        }
        VisitMarks(p, q, insn[..numInsn], i);
        endBB := branch;
      }
      ok := true;
      MarkEnds(p);
    }

    /** The first and the last instruction. */
    method MarkEnds(ghost p: Program)
      requires Valid() && numInsn == |p| > 0 && MarkedBy(p, insn[..numInsn], |p|)
      modifies insn
      ensures insn[..numInsn] == Marked(p)
    {
      ghost var q := insn[..numInsn];
      SetMark(0, true, false);
      assert insn[..numInsn] == q[0 := Mark(q[0], true, false)];
      SetMark(numInsn - 1, false, true);
      MarksComplete(p, q);
    }

    /** Fills the block array from the marks. */
    method CutBlocks(ghost p: Program)
      requires Valid() && |p| > 0 && insn[..numInsn] == Marked(p) && Wellformed(p) && |Cut(p, |p|)| < MAX_BB
      modifies this`numBB, bb
      ensures Valid() && numBB == |Cut(p, |p|)|
      ensures forall u: nat :: u < numBB ==> bb[u] == Fresh(Cut(p, |p|)[u])
    {
      numBB := 0;
      for i := 0 to numInsn
        invariant Valid() && numBB == |Cut(p, i)| && CutDone(bb[..], p, i)
      {
        CutGrows(p, i + 1, |p|);
        MarksAt(p, insn[..numInsn], i);
        ghost var s := bb[..];
        if BBStart in insn[i].typ {
          bb[numBB] := bb[numBB].(first := i);
        }
        if BBEnd in insn[i].typ {
          bb[numBB] := bb[numBB].(last := i, next0 := -1, next1 := -1, tmp := 0);
          numBB := numBB + 1;
        }
        CutOne(s, bb[..], p, i);
      }
    }

    /** Makes an edge of block i to block w; the result counts an artificial block. */
    method CountEdge(w: nat) returns (extra: nat)
      requires w < bb.Length
      modifies bb
      ensures bb[..] == old(bb[..])[w := old(bb[w]).(tmp := old(bb[w]).tmp + 1)]
      ensures extra == if old(bb[w]).tmp >= 2 then 1 else 0
    {
      bb[w] := bb[w].(tmp := bb[w].tmp + 1);
      extra := if bb[w].tmp > 2 then 1 else 0;
    }

    method FindBlock(ghost c: seq<Range>, x: nat) returns (j: nat)
      requires Valid() && numBB == |c| && forall u: nat :: u < |c| ==> bb[u].first == c[u].first
      ensures j == Find(c, x, 0)
    {
      j := 0;
      while j < numBB && bb[j].first != x
        invariant j <= numBB && Find(c, x, j) == Find(c, x, 0)
      {
        j := j + 1;
      }
    }

    /** next[0] and, unless it is -1, next[1] of block i. */
    method AddEdges(i: nat, ghost e: seq<Out>, o: Out) returns (extra: nat)
      requires i < |e| <= bb.Length && 0 <= o.next0 < |e| && -1 <= o.next1 < |e|
      requires o == e[i] && bb[i].next1 == -1
      modifies bb
      ensures LinkMade(old(bb[..]), bb[..], e, i)
      ensures extra == Above2(old(bb[o.next0]).tmp >= 2)
                + Above2(o.next1 >= 0 && old(bb[o.next1]).tmp + (if o.next0 == o.next1 then 1 else 0) >= 2)
    {
      bb[i] := bb[i].(next0 := o.next0);
      extra := CountEdge(o.next0);
      if o.next1 >= 0 {
        bb[i] := bb[i].(next1 := o.next1);
        var more := CountEdge(o.next1);
        extra := extra + more;
      }
    }

    /** The forward links of block i. */
    method LinkBlock(ghost p: Program, ghost c: seq<Range>, ghost e: seq<Out>, i: nat) returns (extra: nat)
      requires Valid() && GraphOf(p, c, e) && numInsn == |p| && i < numBB == |c|
      requires PartlyLinked(bb[..], c, e, i) && JumpsLinked(insn[..numInsn], p, c, i)
      modifies insn, bb
      ensures PartlyLinked(bb[..], c, e, i + 1) && JumpsLinked(insn[..numInsn], p, c, i + 1)
      ensures extra + Base(Degrees(e, i), |e|) == Base(Degrees(e, i + 1), |e|)
    {
      ghost var s, q := bb[..], insn[..numInsn];
      var last := bb[i].last;
      LastOf(q, p, c, e, i);
      assert insn[last] == q[last] && bb[i] == s[i] == PartBlock(c, e, i, i);
      extra := 0;
      if Branch in insn[last].typ {
        var j := FindBlock(c, Target(insn[last]));
        insn[last] := insn[last].(op0 := Link(j));
        assert insn[..numInsn] == q[last := q[last].(op0 := Link(j))];
        extra := AddEdges(i, e, Out(j, i + 1));
      } else if last != numInsn - 1 {
        extra := AddEdges(i, e, Out(i + 1, -1));
      }
      LinkedNext(s, bb[..], c, e, i);
      JumpsNext(q, insn[..numInsn], p, c, e, i);
      BaseNext(e, i);
    }

    /** All forward links; eb is the number of artificial blocks they call for. */
    method LinkForward(ghost p: Program, ghost c: seq<Range>, ghost e: seq<Out>) returns (eb: nat)
      requires Valid() && GraphOf(p, c, e) && numInsn == |p| && numBB == |c|
      requires insn[..numInsn] == Marked(p) && forall u: nat :: u < |c| ==> bb[u] == Fresh(c[u])
      modifies insn, bb
      ensures PartlyLinked(bb[..], c, e, |e|) && JumpsLinked(insn[..numInsn], p, c, |c|)
      ensures eb + |e| == Base(Degrees(e, |e|), |e|)
    {
      eb := 0;
      NothingLinked(insn[..numInsn], p, c, e);
      for i := 0 to numBB
        invariant PartlyLinked(bb[..], c, e, i) && JumpsLinked(insn[..numInsn], p, c, i)
        invariant eb + |e| == Base(Degrees(e, i), |e|)
      {
        var extra := LinkBlock(p, c, e, i);
        eb := eb + extra;
      }
    }

    /** Moves block i to its new place below end, with its artificial blocks below it. */
    method MoveBlock(ghost c: seq<Range>, ghost e: seq<Out>, ghost d: seq<nat>, i: nat, end: nat) returns (start: nat)
      requires Valid() && |c| == |e| == |d| && i < |d| <= reloc.Length && end == Base(d, i + 1) <= bb.Length
      requires bb[i] == Block(c[i].first, c[i].last, e[i].next0, e[i].next1, d[i])
      modifies bb, reloc
      ensures start == Base(d, i) && reloc[..] == old(reloc[..])[i := Place(d, i)]
      ensures forall t: nat :: start <= t < end ==> bb[t] == MovedAt(c, e, d, i, t)
      ensures forall t: nat :: t < i || end <= t < bb.Length ==> bb[t] == old(bb[t])
    {
      var j: int := bb[i].tmp;
      if bb[i].tmp > 2 {
        bb[i] := bb[i].(tmp := -bb[i].tmp);
      }
      start := end - 1;
      bb[start] := bb[i];
      reloc[i] := start;
      while j > 2
        invariant j <= d[i] && (j < d[i] ==> j >= 2) && (j >= 0 ==> start == Base(d, i) + Art(j)) && j >= 0
        invariant bb[i].first == c[i].first && reloc[..] == old(reloc[..])[i := Place(d, i)]
        invariant forall t: nat :: start <= t < end ==> bb[t] == MovedAt(c, e, d, i, t)
        invariant forall t: nat :: t < i || end <= t < bb.Length ==> bb[t] == old(bb[t])
      {
        start := start - 1;
        bb[start] := Block(bb[i].first, -1, -1, -1, 0);
        j := j - 1;
      }
    }

    /** Inserts the artificial blocks, from the top. */
    method InsertBlocks(ghost c: seq<Range>, ghost e: seq<Out>, ghost d: seq<nat>, eb: nat)
      requires Valid() && Closed(e) && |c| == |e| && d == Degrees(e, |e|) && numBB == |e|
      requires eb + |e| == Base(d, |e|) <= MAX_BB && PartlyLinked(bb[..], c, e, |e|)
      modifies this`numBB, bb, reloc
      ensures Valid() && numBB == Base(d, |d|) && Placed(reloc[..], d, 0)
      ensures forall t: nat :: t < numBB ==> bb[t] == RelinkedAt(c, e, d, 0, 0, t)
    {
      var i: nat, end: nat := numBB, numBB + eb;
      while i > 0
        invariant Valid() && numBB == |e|
        invariant i <= |d| && end == Base(d, i) && Placed(reloc[..], d, i) && Inserting(bb[..], c, e, d, i)
      {
        i := i - 1;
        ghost var s := bb[..];
        PartAt(s, c, e, d, i);
        end := MoveBlock(c, e, d, i, end);
        InsertNext(s, bb[..], c, e, d, i);
      }
      numBB := numBB + eb;
    }

    /** Relocates the block links of all instructions. */
    method RelocateLinks(ghost p: Program, ghost c: seq<Range>, ghost e: seq<Out>, ghost d: seq<nat>)
      requires Valid() && Wellformed(p) && GraphOf(p, c, e) && |d| == |e| && numInsn == |p|
      requires Placed(reloc[..], d, 0) && JumpsLinked(insn[..numInsn], p, c, |c|)
      modifies insn
      ensures Jumps(insn[..numInsn], p, c, d, 0)
    {
      ghost var q := insn[..numInsn];
      for k := 0 to numInsn
        invariant forall x: nat :: x < k ==> insn[x] == PlacedInsn(p, c, d, 0, x)
        invariant forall x: nat :: k <= x < numInsn ==> insn[x] == q[x]
      {
        var i := insn[k];
        LinkInRange(p, c, e, d, q[k], k);
        var op0 := RelocateLink(i.op0);
        var op1 := RelocateLink(i.op1);
        var op2 := RelocateLink(i.op2);
        var op3 := RelocateLink(i.op3);
        insn[k] := Insn(i.index, i.typ, op0, op1, op2, op3);
      }
    }

    method RelocateLink(o: Operand) returns (r: Operand)
      requires o.Link? ==> o.block < reloc.Length
      ensures r == if o.Link? then Link(reloc[o.block]) else o
    {
      r := if o.Link? then Link(reloc[o.block]) else o;
    }

    /** The next block for one more edge into old block w. */
    method FollowEdge(w: nat, ghost n: nat, ghost k: nat) returns (t: int)
      requires w < reloc.Length && reloc[w] < bb.Length && k < n && bb[reloc[w]].tmp == TmpState(n, k)
      modifies bb
      ensures t == reloc[w] - Art(n) + Art(k + 1)
      ensures bb[..] == old(bb[..])[reloc[w] := old(bb[reloc[w]]).(tmp := TmpState(n, k + 1))]
    {
      var x := reloc[w];
      t := x;
      if bb[x].tmp < 0 {
        bb[x] := bb[x].(tmp := -bb[x].tmp);
        t := t - (bb[x].tmp - 2);
      } else if bb[x].tmp > 2 {
        t := t - (bb[x].tmp - 2);
        bb[x] := bb[x].(tmp := bb[x].tmp - 1);
      }
    }

    method RelinkNext0(ghost e: seq<Out>, ghost d: seq<nat>, ghost u: nat, i: nat)
      requires Closed(e) && |d| == |e| && u < |e| && i < bb.Length && bb[i].next0 == e[u].next0
      requires Placed(reloc[..], d, 0)
      requires EdgeReady(bb[..], d, e[u].next0, if e[u].next0 < 0 then 0 else |Preds(e, u, e[u].next0)|)
      modifies bb
      ensures bb[..] == EdgeDone0(old(bb[..]), e, d, u, i)
    {
      var w := bb[i].next0;
      if w >= 0 {
        assert reloc[w] == reloc[..][w];
        var t := FollowEdge(w, d[w], |Preds(e, u, w)|);
        bb[i] := bb[i].(next0 := t);
      }
    }

    method RelinkNext1(ghost e: seq<Out>, ghost d: seq<nat>, ghost u: nat, i: nat)
      requires Closed(e) && |d| == |e| && u < |e| && i < bb.Length && bb[i].next1 == e[u].next1
      requires Placed(reloc[..], d, 0)
      requires EdgeReady(bb[..], d, e[u].next1,
                         if e[u].next1 < 0 then 0 else |Preds(e, u, e[u].next1)| + Above2(e[u].next0 == e[u].next1))
      modifies bb
      ensures bb[..] == EdgeDone1(old(bb[..]), e, d, u, i)
    {
      var w := bb[i].next1;
      if w >= 0 {
        assert reloc[w] == reloc[..][w];
        var t := FollowEdge(w, d[w], |Preds(e, u, w)| + Above2(e[u].next0 == w));
        bb[i] := bb[i].(next1 := t);
      }
    }

    /** Relinks the edges of old block u, now at i. */
    method RelinkReal(ghost c: seq<Range>, ghost e: seq<Out>, ghost d: seq<nat>, ghost u: nat, i: nat)
      requires Valid() && Closed(e) && |c| == |e| == |d| && EnoughRoom(e, d) && u < |e| && i == Place(d, u)
      requires Base(d, |d|) <= bb.Length && Placed(reloc[..], d, 0) && Relinking(bb[..], c, e, d, i, u)
      modifies bb
      ensures Relinking(bb[..], c, e, d, i + 1, u + 1)
    {
      ghost var s := bb[..];
      EdgesReady(s, c, e, d, i, u);
      RelinkNext0(e, d, u, i);
      RelinkNext1(e, d, u, i);
      EdgesDone(s, bb[..], c, e, d, i, u);
    }

    /** Relinks new block i; u is the old block whose chain it is in. */
    method RelinkBlock(ghost c: seq<Range>, ghost e: seq<Out>, ghost d: seq<nat>, ghost u: nat, i: nat)
      requires Valid() && Closed(e) && |c| == |e| == |d| && EnoughRoom(e, d) && i < Base(d, |d|) <= bb.Length
      requires Placed(reloc[..], d, 0) && Cursor(d, u, i) && Relinking(bb[..], c, e, d, i, u)
      modifies bb
      ensures u < |d| && Relinking(bb[..], c, e, d, i + 1, if i == Place(d, u) then u + 1 else u)
    {
      CursorAt(bb[..], c, e, d, i, u);
      if bb[i].last >= 0 {
        RelinkReal(c, e, d, u, i);
      } else {
        ghost var s := bb[..];
        bb[i] := bb[i].(next0 := i + 1);
        LinkArtificial(s, bb[..], c, e, d, i, u);
      }
    }

    /** Moves every edge to its place in its target's chain. */
    method Relink(ghost c: seq<Range>, ghost e: seq<Out>, ghost d: seq<nat>)
      requires Valid() && Closed(e) && |c| == |e| == |d| && EnoughRoom(e, d) && numBB == Base(d, |d|)
      requires Placed(reloc[..], d, 0) && Relinking(bb[..], c, e, d, 0, 0)
      modifies bb
      ensures Relinking(bb[..], c, e, d, numBB, |e|)
    {
      ghost var u: nat := 0;
      for i := 0 to numBB
        invariant Cursor(d, u, i) && Relinking(bb[..], c, e, d, i, u)
      {
        RelinkBlock(c, e, d, u, i);
        CursorNext(d, u, i);
        if i == Place(d, u) {
          u := u + 1;
        }
      }
      CursorEnd(d, u);
    }

    /** Unconditional branches become NOPs and lose their fall-through edge. */
    method DropFallThrough(ghost p: Program, ghost c: seq<Range>, ghost e: seq<Out>, ghost d: seq<nat>)
      requires Valid() && Wellformed(p) && GraphOf(p, c, e) && |d| == |e| && numBB == Base(d, |d|) && numInsn == |p|
      requires Relinking(bb[..], c, e, d, numBB, |e|) && Jumps(insn[..numInsn], p, c, d, 0)
      modifies insn, bb
      ensures Dropping(bb[..], p, c, e, d, |e|) && Jumps(insn[..numInsn], p, c, d, |c|)
    {
      ghost var u: nat := 0;
      NothingDropped(bb[..], p, c, e, d);
      for t := 0 to numBB
        invariant Cursor(d, u, t) && Dropping(bb[..], p, c, e, d, u) && Jumps(insn[..numInsn], p, c, d, u)
      {
        DropCursor(bb[..], p, c, e, d, t, u);
        if bb[t].last >= 0 {
          DropBlock(p, c, e, d, u, t);
          u := u + 1;
        }
      }
      CursorEnd(d, u);
    }

    method DropBlock(ghost p: Program, ghost c: seq<Range>, ghost e: seq<Out>, ghost d: seq<nat>, ghost u: nat, t: nat)
      requires Valid() && Wellformed(p) && GraphOf(p, c, e) && |d| == |e| && numBB == Base(d, |d|) && numInsn == |p|
      requires u < |e| && t == Place(d, u) && t < numBB
      requires Dropping(bb[..], p, c, e, d, u) && Jumps(insn[..numInsn], p, c, d, u)
      modifies insn, bb
      ensures Dropping(bb[..], p, c, e, d, u + 1) && Jumps(insn[..numInsn], p, c, d, u + 1)
    {
      OwnerIs(d, t, u);
      ghost var s, q := bb[..], insn[..numInsn];
      var last := bb[t].last;
      assert EndsAtLast(p, c[u]) && bb[t] == s[t] && last == c[u].last && insn[last] == q[last];
      if Branch in insn[last].typ && insn[last].op1.Const? {
        insn[last] := NOP;
        bb[t] := bb[t].(next1 := -1);
        assert insn[..numInsn] == q[last := NOP];
      }
      DropInsn(q, insn[..numInsn], p, c, e, d, u);
      DropOut(s, bb[..], p, c, e, d, u);
    }

    method AddPrev(t: nat, i: nat, ghost q: seq<nat>)
      requires Valid() && t < MAX_BB && |q| < 2 && prev0[t] == At(q, 0) && prev1[t] == At(q, 1)
      modifies prev0, prev1
      ensures prev0[..] == old(prev0[..])[t := At(q + [i], 0)] && prev1[..] == old(prev1[..])[t := At(q + [i], 1)]
    {
      if prev0[t] < 0 {
        prev0[t] := i;
      } else {
        assert prev1[t] < 0;
        prev1[t] := i;
      }
    }

    method AddPrevs(t0: int, t1: int, i: nat, ghost g: seq<Out>)
      requires Valid() && i < |g| <= MAX_BB && Closed(g) && g[i] == Out(t0, t1)
      requires forall t: nat :: t < |g| ==> |Preds(g, |g|, t)| <= 2
      requires PrevLinks(prev0[..], prev1[..], g, i)
      modifies prev0, prev1
      ensures PrevLinks(prev0[..], prev1[..], g, i + 1)
    {
      ghost var a, b := prev0[..], prev1[..];
      if t0 >= 0 {
        PredsGrow(g, i + 1, |g|, t0);
        AddPrev(t0, i, Preds(g, i, t0));
      }
      PrevHalf(a, b, prev0[..], prev1[..], g, i);
      ghost var a1, b1 := prev0[..], prev1[..];
      if t1 >= 0 {
        PredsGrow(g, i + 1, |g|, t1);
        AddPrev(t1, i, Mid(g, i, t1));
      }
      PrevNext(a1, b1, prev0[..], prev1[..], g, i);
    }

    /** Backward links; the assertion on prev[1] cannot fail. */
    method LinkBackward(ghost g: seq<Out>)
      requires Valid() && numBB == |g| && forall t: nat :: t < |g| ==> bb[t].next0 == g[t].next0 && bb[t].next1 == g[t].next1
      requires Closed(g) && forall t: nat :: t < |g| ==> |Preds(g, |g|, t)| <= 2
      modifies prev0, prev1
      ensures PrevLinks(prev0[..], prev1[..], g, |g|)
    {
      for i := 0 to numBB
        invariant forall t: nat :: t < i ==> prev0[t] == prev1[t] == -1
      {
        prev0[i] := -1;
        prev1[i] := -1;
      }
      for i := 0 to numBB
        invariant PrevLinks(prev0[..], prev1[..], g, i)
      {
        AddPrevs(bb[i].next0, bb[i].next1, i, g);
      }
    }

    /** Both blocks arrays and all links; false is the "jump out of function" exit. */
    method DetectBB() returns (ok: bool)
      requires Valid() && Wellformed(insn[..numInsn]) && FitsTables(insn[..numInsn])
      modifies this`numBB, insn, bb, reloc, prev0, prev1
      ensures ok == InFunction(old(insn[..numInsn]), numInsn)
      ensures ok ==> Valid() && numBB > 0 && bb[numBB - 1].next0 == BBID_END && prev0[0] == BBID_START
      ensures ok ==> Detected(old(insn[..numInsn]), insn[..numInsn], bb[..][numBB - 1 := bb[numBB - 1].(next0 := -1)],
                              numBB, prev0[..][0 := -1], prev1[..])
      ensures ok ==> Understood(old(insn[..numInsn]), insn[..numInsn], bb[..][numBB - 1 := bb[numBB - 1].(next0 := -1)],
                                numBB, prev0[..][0 := -1], prev1[..])
    {
      ghost var p := insn[..numInsn];
      ghost var c := Cut(p, |p|);
      ok := MarkLimits();
      if ok {
        GraphBuilt(p);
        ghost var e := Edges(p);
        ghost var d := Degrees(e, |e|);
        CutBlocks(p);
        var eb := LinkForward(p, c, e);
        BuildBlocks(p, c, e, d, eb);
        DetectedFlow(p, insn[..numInsn], bb[..][numBB - 1 := bb[numBB - 1].(next0 := -1)], numBB, prev0[..][0 := -1], prev1[..]);
      }
    }

    method BuildBlocks(ghost p: Program, ghost c: seq<Range>, ghost e: seq<Out>, ghost d: seq<nat>, eb: nat)
      requires Valid() && Wellformed(p) && GraphOf(p, c, e) && d == Degrees(e, |e|) && c == Cut(p, |p|) && e == Edges(p)
      requires numBB == |e| && numInsn == |p| && eb + |e| == Base(d, |e|) <= MAX_BB
      requires PartlyLinked(bb[..], c, e, |e|) && JumpsLinked(insn[..numInsn], p, c, |c|)
      modifies this`numBB, insn, bb, reloc, prev0, prev1
      ensures Valid() && numBB > 0 && bb[numBB - 1].next0 == BBID_END && prev0[0] == BBID_START
      ensures Detected(p, insn[..numInsn], bb[..][numBB - 1 := bb[numBB - 1].(next0 := -1)],
                       numBB, prev0[..][0 := -1], prev1[..])
    {
      InsertBlocks(c, e, d, eb);
      RelocateLinks(p, c, e, d);
      AlwaysRoom(e, d);
      Relink(c, e, d);
      DropFallThrough(p, c, e, d);
      FinalLinks(p, c, e, d);
      EdgeEnds(p, c, e, d);
      ghost var s, g := bb[..], FinalEdges(p, c, e, d);
      assert s[numBB - 1].next0 == g[numBB - 1].next0 == -1;
      CloseGraph(g);
      MarkerUndone(s, bb[..], numBB - 1);
    }

    /** The backward links and the START and END markers. */
    method CloseGraph(ghost g: seq<Out>)
      requires Valid() && numBB == |g| > 0 && forall t: nat :: t < |g| ==> bb[t].next0 == g[t].next0 && bb[t].next1 == g[t].next1
      requires Closed(g) && forall t: nat :: t < |g| ==> |Preds(g, |g|, t)| <= 2
      requires Preds(g, |g|, 0) == [] && g[|g| - 1] == Out(-1, -1)
      modifies bb, prev0, prev1
      ensures AllPrevs(g, prev0[..][0 := -1], prev1[..]) && prev0[0] == BBID_START
      ensures bb[..] == old(bb[..])[numBB - 1 := old(bb[numBB - 1]).(next0 := BBID_END)]
    {
      LinkBackward(g);
      ghost var a := prev0[..];
      assert prev0[0] == a[0] == -1;
      prev0[0] := BBID_START;
      assert prev0[..][0 := -1] == a;
      assert bb[numBB - 1].next0 < 0 && bb[numBB - 1].next1 < 0;
      bb[numBB - 1] := bb[numBB - 1].(next0 := BBID_END);
    }
  }
}
