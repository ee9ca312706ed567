/** The control-flow graph that `detect_bb` (cuc/bb.c) builds: block limits, edges,
    and the artificial blocks that cap predecessors at two. */
module BlockGraph {
  import opened CucInsn
  import opened Lowering

  // ------------------------------------------------------------ block limits

  /** Some branch below i jumps to x. */
  predicate TargetedBy(p: Program, i: nat, x: nat)
  {
    exists b: nat :: b < i && b < |p| && IsBranch(p[b]) && Target(p[b]) == x
  }

  predicate Starts(p: Program, k: nat)
    requires k < |p|
  {
    k == 0 || IsBranch(p[k - 1]) || TargetedBy(p, |p|, k)
  }

  predicate Ends(p: Program, k: nat)
    requires k < |p|
  {
    k == |p| - 1 || IsBranch(p[k]) || TargetedBy(p, |p|, k + 1)
  }

  /** Instructions first..last, both included. */
  datatype Range = Range(first: nat, last: nat)

  /** The blocks that end below i. */
  function Cut(p: Program, i: nat): (c: seq<Range>)
    requires i <= |p|
    ensures |c| <= i
  {
    if i == 0 then []
    else if Ends(p, i - 1) then Cut(p, i - 1) + [Range(Open(p, i - 1), i - 1)]
    else Cut(p, i - 1)
  }

  /** Where the block containing i starts, i being below or at its end. */
  function Open(p: Program, i: nat): (o: nat)
    requires i <= |p|
    ensures o <= i
  {
    if i == 0 then 0 else if Ends(p, i - 1) then i else Open(p, i - 1)
  }

  /** Consecutive ranges, up to the block still open at i. */
  ghost predicate Consecutive(p: Program, c: seq<Range>, i: nat)
    requires i <= |p|
  {
    && (|c| > 0 ==> c[0].first == 0) && (forall u: nat :: u < |c| ==> c[u].first <= c[u].last < i)
    && (forall u: nat :: 0 < u < |c| ==> c[u].first == c[u - 1].last + 1)
    && Open(p, i) == (if |c| == 0 then 0 else c[|c| - 1].last + 1)
  }

  /** A block's last instruction ends it and no earlier one does. */
  ghost predicate EndsAtLast(p: Program, r: Range)
  {
    r.last < |p| && Ends(p, r.last) && forall k: nat :: r.first <= k < r.last ==> !Ends(p, k)
  }

  ghost predicate Partition(p: Program, c: seq<Range>, i: nat)
    requires i <= |p|
  {
    && Consecutive(p, c, i) && (forall u: nat :: u < |c| ==> EndsAtLast(p, c[u]))
    && (forall k: nat :: Open(p, i) <= k < i ==> !Ends(p, k))
  }

  lemma {:induction false} ConsecutiveClose(p: Program, c: seq<Range>, i: nat)
    requires i < |p| && Ends(p, i) && Consecutive(p, c, i)
    ensures Consecutive(p, c + [Range(Open(p, i), i)], i + 1)
  {
  }

  lemma {:induction false} PartitionClose(p: Program, c: seq<Range>, i: nat)
    requires i < |p| && Ends(p, i) && Partition(p, c, i)
    ensures Partition(p, c + [Range(Open(p, i), i)], i + 1)
  {
    ConsecutiveClose(p, c, i);
    assert EndsAtLast(p, Range(Open(p, i), i));
  }

  lemma {:induction false} PartitionGoOn(p: Program, c: seq<Range>, i: nat)
    requires i < |p| && !Ends(p, i) && Partition(p, c, i)
    ensures Partition(p, c, i + 1)
  {
  }

  /** Blocks partition the instructions, in order, and end exactly where `Ends` says. */
  lemma {:induction false} CutPartitions(p: Program, i: nat)
    requires i <= |p|
    ensures Partition(p, Cut(p, i), i)
  {
    if i > 0 {
      CutPartitions(p, i - 1);
      if Ends(p, i - 1) {
        PartitionClose(p, Cut(p, i - 1), i - 1);
      } else {
        PartitionGoOn(p, Cut(p, i - 1), i - 1);
      }
    }
  }

  /** A block starts exactly after a block's end. */
  lemma {:induction false} StartAfterEnd(p: Program, k: nat)
    requires 0 < k < |p|
    ensures Starts(p, k) <==> Ends(p, k - 1)
  {
  }

  predicate FirstOf(c: seq<Range>, x: nat, u: nat)
  {
    u < |c| && c[u].first == x
  }

  lemma {:induction false} StartIsFirst(p: Program, i: nat, x: nat) returns (u: nat)
    requires x < i <= |p| && Starts(p, x) && Open(p, i) > x
    ensures FirstOf(Cut(p, i), x, u)
    decreases i
  {
    if Open(p, i - 1) > x {
      u := StartIsFirst(p, i - 1, x);
    } else {
      u := |Cut(p, i - 1)|;
      OpenAt(p, i - 1, x);
    }
  }

  /** A start not yet closed is the open block's start. */
  lemma {:induction false} OpenAt(p: Program, i: nat, x: nat)
    requires x <= i < |p| && Starts(p, x) && Open(p, i) <= x
    ensures Open(p, i) == x
    decreases i
  {
    if x < i {
      OpenAt(p, i - 1, x);
    }
  }

  /** The block that starts at x; the search the source does with a loop. */
  function Find(c: seq<Range>, x: nat, j: nat): (r: nat)
    requires j <= |c|
    ensures j <= r <= |c|
    decreases |c| - j
  {
    if j == |c| || c[j].first == x then j else Find(c, x, j + 1)
  }

  lemma {:induction false} FindHits(c: seq<Range>, x: nat, j: nat, u: nat)
    requires j <= u && FirstOf(c, x, u)
    ensures FirstOf(c, x, Find(c, x, j))
    decreases u - j
  {
    if c[j].first != x {
      FindHits(c, x, j + 1, u);
    }
  }

  /** Every jump in the function lands on a block start. */
  lemma {:induction false} TargetFound(p: Program, b: nat)
    requires b < |p| && IsBranch(p[b]) && Target(p[b]) < |p|
    ensures FirstOf(Cut(p, |p|), Target(p[b]), Find(Cut(p, |p|), Target(p[b]), 0))
  {
    var u := StartIsFirst(p, |p|, Target(p[b]));
    FindHits(Cut(p, |p|), Target(p[b]), 0, u);
  }

  // ------------------------------------------------------------------- edges

  /** next[0] and next[1]; -1 is no edge. */
  datatype Out = Out(next0: int, next1: int)

  function OutOf(p: Program, c: seq<Range>, u: nat): Out
    requires u < |c| && c[u].last < |p|
  {
    var i := p[c[u].last];
    if IsBranch(i) then Out(Find(c, Target(i), 0), u + 1)
    else if c[u].last == |p| - 1 then Out(-1, -1)
    else Out(u + 1, -1)
  }

  function Edges(p: Program): (e: seq<Out>)
    ensures |e| == |Cut(p, |p|)|
  {
    var c := Cut(p, |p|);
    CutPartitions(p, |p|);
    seq(|c|, u requires 0 <= u < |c| => OutOf(p, c, u))
  }

  function Hit(o: Out, u: nat, v: nat): seq<nat>
  {
    (if o.next0 == v then [u] else []) + (if o.next1 == v then [u] else [])
  }

  /** The blocks below n with an edge to v, once per edge, in order. */
  function Preds(e: seq<Out>, n: nat, v: nat): seq<nat>
    requires n <= |e|
  {
    if n == 0 then [] else Preds(e, n - 1, v) + Hit(e[n - 1], n - 1, v)
  }

  /** Edges lead into the graph. */
  ghost predicate Closed(e: seq<Out>)
  {
    forall u: nat :: u < |e| ==> -1 <= e[u].next0 < |e| && -1 <= e[u].next1 < |e|
  }

  lemma {:induction false} EdgesClosed(p: Program)
    requires |p| > 0 && !IsBranch(p[|p| - 1]) && forall b: nat :: b < |p| && IsBranch(p[b]) ==> Target(p[b]) < |p|
    ensures Closed(Edges(p))
  {
    var c, e := Cut(p, |p|), Edges(p);
    CutPartitions(p, |p|);
    forall u: nat | u < |e|
      ensures -1 <= e[u].next0 < |e| && -1 <= e[u].next1 < |e|
    {
      if u + 1 == |c| {
        assert c[u].last == Open(p, |p|) - 1;
      }
      if IsBranch(p[c[u].last]) {
        TargetFound(p, c[u].last);
      }
    }
  }

  // -------------------------------------------------------- artificial blocks

  /** How many artificial blocks n predecessors need. */
  function Art(n: nat): nat { if n > 2 then n - 2 else 0 }

  function Degrees(e: seq<Out>, n: nat): (d: seq<nat>)
    requires n <= |e|
    ensures |d| == |e|
  {
    seq(|e|, v requires 0 <= v < |e| => |Preds(e, n, v)|)
  }

  /** The first new index used for old block v: its artificial blocks, then itself. */
  function Base(d: seq<nat>, v: nat): (b: nat)
    requires v <= |d|
    ensures b >= v
  {
    if v == 0 then 0 else Base(d, v - 1) + Art(d[v - 1]) + 1
  }

  /** reloc[v]. */
  function Place(d: seq<nat>, v: nat): (b: nat)
    requires v < |d|
    ensures Base(d, v) <= b && b + 1 == Base(d, v + 1)
  {
    Base(d, v) + Art(d[v])
  }

  lemma {:induction false} BaseGap(d: seq<nat>, v: nat, w: nat)
    requires v < w <= |d|
    ensures Place(d, v) < Base(d, w)
    decreases w
  {
    if v < w - 1 {
      BaseGap(d, v, w - 1);
    }
  }

  /** One more edge into v needs one more block when v already has two. */
  lemma {:induction false} BaseBump(d: seq<nat>, v: nat, n: nat)
    requires v < |d| && n <= |d|
    ensures Base(d[v := d[v] + 1], n) == Base(d, n) + (if v < n && d[v] >= 2 then 1 else 0)
    decreases n
  {
    if n > 0 {
      BaseBump(d, v, n - 1);
    }
  }

  /** The old block that new index t serves. */
  function Owner(d: seq<nat>, n: nat, t: nat): (v: nat)
    requires n <= |d| && t < Base(d, n)
    ensures v < n && Base(d, v) <= t <= Place(d, v)
  {
    if t >= Base(d, n - 1) then n - 1 else Owner(d, n - 1, t)
  }

  lemma {:induction false} OwnerIs(d: seq<nat>, t: nat, v: nat)
    requires v < |d| && Base(d, v) <= t <= Place(d, v)
    ensures t < Base(d, |d|) && Owner(d, |d|, t) == v
  {
    BaseGap(d, v, |d|);
    var w := Owner(d, |d|, t);
    if v < w {
      BaseGap(d, v, w);
    } else if w < v {
      BaseGap(d, w, v);
    }
  }

  /** Where the k-th edge into v goes: the first two to the first block of v's chain,
      each further one a block further. */
  function Hop(d: seq<nat>, v: nat, k: nat): nat
    requires v <= |d|
  {
    Base(d, v) + Art(k)
  }

  /** next[0] of old block u, after relinking; u's edge is preceded by those of Preds. */
  function Hop0(e: seq<Out>, d: seq<nat>, u: nat): int
    requires u < |e| == |d| && Closed(e)
  {
    var v := e[u].next0;
    if v < 0 then -1 else Hop(d, v, |Preds(e, u, v)| + 1)
  }

  function Hop1(e: seq<Out>, d: seq<nat>, u: nat): int
    requires u < |e| == |d| && Closed(e)
  {
    var v := e[u].next1;
    if v < 0 then -1 else Hop(d, v, |Preds(e, u, v)| + (if e[u].next0 == v then 2 else 1))
  }

  function NewOut(e: seq<Out>, d: seq<nat>, t: nat): Out
    requires Closed(e) && |d| == |e| && t < Base(d, |d|)
  {
    var v := Owner(d, |d|, t);
    if t == Place(d, v) then Out(Hop0(e, d, v), Hop1(e, d, v)) else Out(t + 1, -1)
  }

  /** The graph with artificial blocks; d is the number of predecessors of each block. */
  function NewEdges(e: seq<Out>, d: seq<nat>): (f: seq<Out>)
    requires Closed(e) && |d| == |e|
    ensures |f| == Base(d, |d|)
  {
    seq(Base(d, |d|), t requires 0 <= t < Base(d, |d|) => NewOut(e, d, t))
  }

  // ------------------------------------------------- at most two predecessors

  function Arrivals(o: nat, c: nat): nat
  {
    if o == 0 then (if c > 2 then 2 else c) else if c >= o + 2 then 1 else 0
  }

  lemma {:induction false} ChainPreds(f: seq<Out>, b: nat, y: nat, t: nat)
    requires b <= y <= |f| && forall z: nat :: b <= z < y ==> f[z] == Out(z + 1, -1)
    ensures |Preds(f, y, t)| == |Preds(f, b, t)| + (if b < t <= y then 1 else 0)
    decreases y
  {
    if b < y {
      ChainPreds(f, b, y - 1, t);
    }
  }

  /** f is the new graph on the blocks that serve old block u. */
  ghost predicate Serves(e: seq<Out>, d: seq<nat>, f: seq<Out>, u: nat)
    requires u < |e| == |d| && Closed(e)
  {
    && Place(d, u) < |f| && f[Place(d, u)] == Out(Hop0(e, d, u), Hop1(e, d, u))
    && forall z: nat :: Base(d, u) <= z < Place(d, u) ==> f[z] == Out(z + 1, -1)
  }

  lemma {:induction false} NewOutsOf(e: seq<Out>, d: seq<nat>, u: nat)
    requires Closed(e) && u < |e| == |d|
    ensures Serves(e, d, NewEdges(e, d), u)
  {
    var f := NewEdges(e, d);
    BaseGap(d, u, |e|);
    OwnerIs(d, Place(d, u), u);
    forall z: nat | Base(d, u) <= z < Place(d, u)
      ensures f[z] == Out(z + 1, -1)
    {
      OwnerIs(d, z, u);
    }
  }

  lemma {:induction false} PredsGrow(e: seq<Out>, m: nat, n: nat, v: nat)
    requires m <= n <= |e|
    ensures |Preds(e, m, v)| <= |Preds(e, n, v)|
    decreases n
  {
    if m < n {
      PredsGrow(e, m, n - 1, v);
    }
  }

  lemma {:induction false} HopHits(d: seq<nat>, w: nat, k: nat, v: nat, o: nat)
    requires w < |d| && v < |d| && 1 <= k <= d[w] && o <= Art(d[v])
    ensures Hop(d, w, k) == Base(d, v) + o <==> w == v && Art(k) == o
  {
    if w < v {
      BaseGap(d, w, v);
    } else if v < w {
      BaseGap(d, v, w);
    }
  }

  lemma {:induction false} Hit0(e: seq<Out>, d: seq<nat>, u: nat, v: nat, o: nat)
    requires Closed(e) && u < |e| && v < |e| && d == Degrees(e, |e|) && o <= Art(d[v])
    ensures Hop0(e, d, u) == Base(d, v) + o <==> e[u].next0 == v && Art(|Preds(e, u, v)| + 1) == o
  {
    var w := e[u].next0;
    if w >= 0 {
      PredsGrow(e, u + 1, |e|, w);
      HopHits(d, w, |Preds(e, u, w)| + 1, v, o);
    }
  }

  lemma {:induction false} Hit1(e: seq<Out>, d: seq<nat>, u: nat, v: nat, o: nat)
    requires Closed(e) && u < |e| && v < |e| && d == Degrees(e, |e|) && o <= Art(d[v])
    ensures Hop1(e, d, u) == Base(d, v) + o <==>
            e[u].next1 == v && Art(|Preds(e, u, v)| + (if e[u].next0 == v then 2 else 1)) == o
  {
    var w := e[u].next1;
    if w >= 0 {
      var k := |Preds(e, u, w)| + (if e[u].next0 == w then 2 else 1);
      SecondWithin(e, d, u, w, k);
      HopHits(d, w, k, v, o);
    }
  }

  /** The second edge of u is among those counted at its end. */
  lemma {:induction false} SecondWithin(e: seq<Out>, d: seq<nat>, u: nat, w: nat, k: nat)
    requires u < |e| && w < |e| && d == Degrees(e, |e|) && e[u].next1 == w
    requires k == |Preds(e, u, w)| + (if e[u].next0 == w then 2 else 1)
    ensures 1 <= k <= d[w]
  {
    assert |Hit(e[u], u, w)| == if e[u].next0 == w then 2 else 1;
    PredsGrow(e, u + 1, |e|, w);
  }

  lemma {:induction false} ArrivalsHit(x: Out, y: Out, v: nat, t: nat, o: nat, c: nat, u: nat)
    requires y.next0 == t <==> x.next0 == v && Art(c + 1) == o
    requires y.next1 == t <==> x.next1 == v && Art(c + (if x.next0 == v then 2 else 1)) == o
    ensures |Hit(y, u, t)| == Arrivals(o, c + |Hit(x, 0, v)|) - Arrivals(o, c)
  {
  }

  /** After the new blocks of the old blocks below u, the o-th block of v's chain has
      its share of v's edges and, once v is passed, its link from the previous one. */
  ghost predicate Counted(e: seq<Out>, d: seq<nat>, f: seq<Out>, u: nat, v: nat, o: nat)
    requires u <= |e| == |d| && v < |e|
  {
    Base(d, u) <= |f| &&
    |Preds(f, Base(d, u), Base(d, v) + o)| == Arrivals(o, |Preds(e, u, v)|) + (if o > 0 && v < u then 1 else 0)
  }

  lemma {:induction false} CountedStep(e: seq<Out>, d: seq<nat>, f: seq<Out>, u: nat, v: nat, o: nat)
    requires Closed(e) && u < |e| == |d| && v < |e| && o <= Art(d[v])
    requires Serves(e, d, f, u) && Counted(e, d, f, u, v, o)
    requires |Hit(f[Place(d, u)], Place(d, u), Base(d, v) + o)| ==
             Arrivals(o, |Preds(e, u + 1, v)|) - Arrivals(o, |Preds(e, u, v)|)
    ensures Counted(e, d, f, u + 1, v, o)
  {
    var b, y, t := Base(d, u), Place(d, u), Base(d, v) + o;
    ChainThenReal(f, b, y, t);
    ChainPosition(d, u, v, o);
    assert |Preds(f, y + 1, t)| == |Preds(f, b, t)| + (if u == v && o > 0 then 1 else 0) + |Hit(f[y], y, t)|;
  }

  lemma {:induction false} ChainThenReal(f: seq<Out>, b: nat, y: nat, t: nat)
    requires b <= y < |f| && forall z: nat :: b <= z < y ==> f[z] == Out(z + 1, -1)
    ensures |Preds(f, y + 1, t)| == |Preds(f, b, t)| + (if b < t <= y then 1 else 0) + |Hit(f[y], y, t)|
  {
    ChainPreds(f, b, y, t);
  }

  lemma {:induction false} OutHits(e: seq<Out>, d: seq<nat>, u: nat, v: nat, o: nat, x: nat)
    requires Closed(e) && u < |e| && v < |e| && d == Degrees(e, |e|) && o <= Art(d[v])
    ensures |Hit(Out(Hop0(e, d, u), Hop1(e, d, u)), x, Base(d, v) + o)| ==
            Arrivals(o, |Preds(e, u + 1, v)|) - Arrivals(o, |Preds(e, u, v)|)
  {
    Hit0(e, d, u, v, o);
    Hit1(e, d, u, v, o);
    ArrivalsHit(e[u], Out(Hop0(e, d, u), Hop1(e, d, u)), v, Base(d, v) + o, o, |Preds(e, u, v)|, x);
    HitLength(e[u], u, v);
  }

  lemma {:induction false} HitLength(x: Out, u: nat, v: nat)
    ensures |Hit(x, u, v)| == |Hit(x, 0, v)|
  {
  }

  lemma {:induction false} ChainPosition(d: seq<nat>, u: nat, v: nat, o: nat)
    requires u < |d| && v < |d| && o <= Art(d[v])
    ensures Base(d, u) < Base(d, v) + o <= Place(d, u) <==> u == v && o > 0
  {
    if u < v {
      BaseGap(d, u, v);
    } else if v < u {
      BaseGap(d, v, u);
    }
  }

  ghost predicate Advances(e: seq<Out>, d: seq<nat>, f: seq<Out>, u: nat, v: nat, o: nat)
    requires u < |e| == |d| && v < |e|
  {
    Counted(e, d, f, u, v, o) ==> Counted(e, d, f, u + 1, v, o)
  }

  lemma {:induction false} CountedUpTo(e: seq<Out>, d: seq<nat>, f: seq<Out>, u: nat, v: nat, o: nat)
    requires u <= |e| == |d| && v < |e| && forall w: nat :: w < u ==> Advances(e, d, f, w, v, o)
    ensures Counted(e, d, f, u, v, o)
    decreases u
  {
    if u > 0 {
      CountedUpTo(e, d, f, u - 1, v, o);
      assert Advances(e, d, f, u - 1, v, o);
    }
  }

  lemma {:induction false} PredCount(e: seq<Out>, d: seq<nat>, f: seq<Out>, v: nat, o: nat)
    requires Closed(e) && v < |e| && d == Degrees(e, |e|) && o <= Art(d[v]) && f == NewEdges(e, d)
    ensures Counted(e, d, f, |e|, v, o)
  {
    forall u: nat | u < |e|
      ensures Advances(e, d, f, u, v, o)
    {
      if Counted(e, d, f, u, v, o) {
        CountedNext(e, d, f, u, v, o);
      }
    }
    CountedUpTo(e, d, f, |e|, v, o);
  }

  lemma {:induction false} CountedNext(e: seq<Out>, d: seq<nat>, f: seq<Out>, u: nat, v: nat, o: nat)
    requires Closed(e) && u < |e| && v < |e| && d == Degrees(e, |e|) && o <= Art(d[v]) && f == NewEdges(e, d)
    requires Counted(e, d, f, u, v, o)
    ensures Counted(e, d, f, u + 1, v, o)
  {
    NewOutsOf(e, d, u);
    OutHits(e, d, u, v, o, Place(d, u));
    CountedStep(e, d, f, u, v, o);
  }

  /** Every block of the new graph has at most two predecessors, counted with
      multiplicity: exactly two when its old block had more than two. */
  lemma {:induction false} AtMostTwo(e: seq<Out>, d: seq<nat>, t: nat)
    requires Closed(e) && d == Degrees(e, |e|) && t < |NewEdges(e, d)|
    ensures var f, n := NewEdges(e, d), |Preds(e, |e|, Owner(d, |d|, t))|;
            |Preds(f, |f|, t)| == if n > 2 then 2 else n
  {
    var v := Owner(d, |d|, t);
    var o := t - Base(d, v);
    PredCount(e, d, NewEdges(e, d), v, o);
    ArrivalsFull(o, |Preds(e, |e|, v)|);
  }

  lemma {:induction false} ArrivalsFull(o: nat, n: nat)
    requires o <= Art(n)
    ensures Arrivals(o, n) + (if o > 0 then 1 else 0) == if n > 2 then 2 else n
  {
  }

  /** Edges with some next[1] removed. */
  ghost predicate Dropped(f: seq<Out>, g: seq<Out>)
  {
    |g| == |f| && forall u: nat :: u < |f| ==> g[u].next0 == f[u].next0 && (g[u].next1 == f[u].next1 || g[u].next1 == -1)
  }

  lemma {:induction false} DroppedPreds(f: seq<Out>, g: seq<Out>, n: nat, t: nat)
    requires Dropped(f, g) && n <= |f|
    ensures |Preds(g, n, t)| <= |Preds(f, n, t)|
  {
    if n > 0 {
      DroppedPreds(f, g, n - 1, t);
    }
  }

  // ------------------------------------------------------------------- paths

  /** From t, artificial blocks only lead to x. */
  ghost predicate Path(d: seq<nat>, f: seq<Out>, t: int, x: int)
  {
    && 0 <= t <= x < |f|
    && forall y :: t <= y < x ==> f[y] == Out(y + 1, -1) && Artificial(d, y)
  }

  /** New index y holds no old block. */
  ghost predicate Artificial(d: seq<nat>, y: int)
  {
    forall v: nat :: v < |d| ==> Place(d, v) != y
  }

  lemma {:induction false} InsideChain(d: seq<nat>, v: nat, y: nat)
    requires v < |d| && Base(d, v) <= y < Place(d, v)
    ensures Artificial(d, y)
  {
    forall w: nat | w < |d|
      ensures Place(d, w) != y
    {
      if w < v {
        BaseGap(d, w, v);
      } else if v < w {
        BaseGap(d, v, w);
      }
    }
  }

  lemma {:induction false} ChainPath(e: seq<Out>, d: seq<nat>, f: seq<Out>, v: nat, t: nat)
    requires Closed(e) && v < |e| == |d| && Serves(e, d, f, v) && Base(d, v) <= t <= Place(d, v)
    ensures Path(d, f, t, Place(d, v))
  {
    forall y | t <= y < Place(d, v)
      ensures Artificial(d, y)
    {
      InsideChain(d, v, y);
    }
  }

  /** The k-th of v's edges enters v's chain. */
  lemma {:induction false} HopPath(e: seq<Out>, d: seq<nat>, v: nat, k: nat)
    requires Closed(e) && v < |e| == |d| && k <= d[v]
    ensures Path(d, NewEdges(e, d), Hop(d, v, k), Place(d, v))
  {
    NewOutsOf(e, d, v);
    ChainPath(e, d, NewEdges(e, d), v, Hop(d, v, k));
  }

  /** Each old edge u -> v becomes a path from u's new place to v's new place whose
      inner blocks are all artificial. */
  lemma {:induction false} EdgeBecomesPath(e: seq<Out>, d: seq<nat>, u: nat)
    requires Closed(e) && u < |e| && d == Degrees(e, |e|)
    ensures var f := NewEdges(e, d);
            && Place(d, u) < |f|
            && (e[u].next0 >= 0 ==> Path(d, f, f[Place(d, u)].next0, Place(d, e[u].next0)))
            && (e[u].next1 >= 0 ==> Path(d, f, f[Place(d, u)].next1, Place(d, e[u].next1)))
            && (e[u].next0 < 0 ==> f[Place(d, u)].next0 == -1)
            && (e[u].next1 < 0 ==> f[Place(d, u)].next1 == -1)
  {
    var f := NewEdges(e, d);
    NewOutsOf(e, d, u);
    FirstEdgePath(e, d, u, f);
    SecondEdgePath(e, d, u, f);
  }

  lemma {:induction false} FirstEdgePath(e: seq<Out>, d: seq<nat>, u: nat, f: seq<Out>)
    requires Closed(e) && u < |e| && d == Degrees(e, |e|) && f == NewEdges(e, d)
    ensures var v := e[u].next0; v >= 0 ==> Path(d, f, Hop0(e, d, u), Place(d, v))
  {
    var v := e[u].next0;
    if v >= 0 {
      PredsGrow(e, u + 1, |e|, v);
      HopPath(e, d, v, |Preds(e, u, v)| + 1);
    }
  }

  lemma {:induction false} SecondEdgePath(e: seq<Out>, d: seq<nat>, u: nat, f: seq<Out>)
    requires Closed(e) && u < |e| && d == Degrees(e, |e|) && f == NewEdges(e, d)
    ensures var w := e[u].next1; w >= 0 ==> Path(d, f, Hop1(e, d, u), Place(d, w))
  {
    var w := e[u].next1;
    if w >= 0 {
      var k := |Preds(e, u, w)| + (if e[u].next0 == w then 2 else 1);
      SecondWithin(e, d, u, w, k);
      HopPath(e, d, w, k);
    }
  }
}
