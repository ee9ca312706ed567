/** What the counters of the data cache are for: a read miss replaces the line that has not been
    used for the longest time.  Times are those of module DCache's traced runs. */
module CacheRecency {
  import B = Bits
  import R = Recency
  import opened Words
  import opened DCache

  function Tags(s: seq<Way>): (t: seq<int>)
    ensures |t| == |s| && forall i :: 0 <= i < |s| ==> t[i] == s[i].tag
  {
    seq(|s|, i requires 0 <= i < |s| => s[i].tag)
  }

  function Counters(s: seq<Way>): (t: seq<nat>)
    ensures |t| == |s| && forall i :: 0 <= i < |s| ==> t[i] == s[i].lru
  {
    seq(|s|, i requires 0 <= i < |s| => s[i].lru)
  }

  /** The counters of one set record how recently each way was used. */
  ghost predicate Recent(ustates: nat, s: seq<Way>, st: seq<nat>, now: nat)
    requires ustates > 0
  {
    |st| == |s| && R.Recent(ustates - 1, Tags(s), Counters(s), st, now, 1)
  }

  lemma {:induction false} OneSet(i: nat, n: nat)
    ensures i % 1 == 0 && R.Members(1, 0, n) == n
  {
    if n > 0 {
      OneSet(i, n - 1);
    }
  }

  /** Way w is used at time now, after which it is valid. */
  ghost predicate Used(s: seq<Way>, st: seq<nat>, r: seq<Way>, q: seq<nat>, w: nat, now: nat)
  {
    |s| == |r| && R.Used(Tags(s), st, Tags(r), q, w, now)
  }

  /** Way v has the smallest counter. */
  ghost predicate Lowest(s: seq<Way>, v: nat)
  {
    v < |s| && forall i :: 0 <= i < |s| ==> s[v].lru <= s[i].lru
  }

  /** A hit in way w. */
  lemma {:induction false} HitRecent(ustates: nat, s: seq<Way>, st: seq<nat>, now: nat, r: seq<Way>, q: seq<nat>, w: nat)
    requires ustates > 0 && Recent(ustates, s, st, now) && w < |s| && R.Valid(s[w].tag) && Used(s, st, r, q, w, now + 1)
    requires forall i :: 0 <= i < |s| ==> r[i].tag == s[i].tag && r[i].lru == Touch(s, w, ustates)[i].lru
    ensures Recent(ustates, r, q, now + 1)
  {
    OneSet(w, |s|);
    assert Tags(r) == Tags(s);
    assert R.Touched(ustates - 1, Counters(s), Counters(r), 1, w);
    R.HitRecent(ustates - 1, Tags(s), Counters(s), st, now, 1, Counters(r), q, w);
  }

  /** A miss that refills way v, which has the smallest counter. */
  lemma {:induction false} MissRecent(ustates: nat, s: seq<Way>, st: seq<nat>, now: nat, r: seq<Way>, q: seq<nat>, v: nat, tag: nat)
    requires ustates > 0 && Recent(ustates, s, st, now) && Lowest(s, v) && Used(s, st, r, q, v, now + 1)
    requires forall i :: 0 <= i < |s| ==>
               r[i].tag == Refill(s, v, tag, [], ustates)[i].tag && r[i].lru == Refill(s, v, tag, [], ustates)[i].lru
    ensures Recent(ustates, r, q, now + 1)
  {
    OneSet(v, |s|);
    assert R.Aged(ustates - 1, Counters(s), Counters(r), 1, v);
    assert R.Lowest(Counters(s), 1, v);
    R.MissRecent(ustates - 1, Tags(s), Counters(s), st, now, 1, Tags(r), Counters(r), q, v);
  }

  /** With a state for every way, a read miss replaces an invalid line if there is one, and the
      least recently used line otherwise. */
  lemma {:induction false} VictimIsOldest(ustates: nat, s: seq<Way>, st: seq<nat>, now: nat, v: nat)
    requires ustates > 0 && 0 < |s| <= ustates && Recent(ustates, s, st, now)
    requires forall i :: 0 <= i < |s| ==> s[i].lru < ustates
    requires v == ReadVictim(s, ustates)
    ensures (exists i :: 0 <= i < |s| && s[i].tag == INVALID) ==> s[v].tag == INVALID
    ensures s[v].tag != INVALID ==> forall i :: 0 <= i < |s| && i != v ==> st[v] < st[i]
  {
    OneSet(v, |s|);
    assert R.Lowest(Counters(s), 1, v);
    R.LowestIsOldest(ustates - 1, Tags(s), Counters(s), st, now, 1, v);
    forall i: nat | i < |s|
      ensures i % 1 == v % 1
    {
      OneSet(i, 0);
    }
  }

  // ------------------------------------------------------------------------ runs

  ghost predicate RecentSets(g: Geometry, t: Traced)
  {
    && g.ustates > 0 && |t.c.sets| == |t.st| == g.nsets
    && forall s :: 0 <= s < g.nsets ==> Recent(g.ustates, t.c.sets[s], t.st[s], t.now)
  }

  ghost predicate RecentCache(g: Geometry, t: Traced) { RankedCache(g, t) && RecentSets(g, t) }

  /** A read, or a write that hits. */
  ghost predicate Gentle(g: Geometry, t: Traced, op: Op)
    requires RankedCache(g, t)
  {
    op.ReadOp? || (op.WriteOp? && FindWay(t.c.sets[SetOf(g, op.a)], TagOf(g, op.a)) >= 0)
  }

  ghost predicate GentleRun(g: Geometry, t: Traced, ops: seq<Op>)
    requires RankedCache(g, t) && GoodOps(ops)
    decreases |ops|
  {
    ops == [] || (Gentle(g, t, ops[0]) && (TracedStepRanked(g, t, ops[0]); GentleRun(g, TracedStep(g, t, ops[0]), ops[1..])))
  }

  lemma {:induction false} InvalidIsRecent(g: Geometry, t: Traced)
    requires Invalidated(g, t)
    ensures RecentCache(g, t)
  {
    InvalidatedIsRanked(g, t);
  }

  lemma {:induction false} LaterRecent(ustates: nat, s: seq<Way>, st: seq<nat>, now: nat)
    requires ustates > 0 && Recent(ustates, s, st, now)
    ensures Recent(ustates, s, st, now + 1)
  {
  }

  /** The set that an access uses. */
  lemma {:induction false} AccessRecent(g: Geometry, s: seq<Way>, r: seq<Way>, tag: nat, v: nat, st: seq<nat>, now: nat, w: int)
    requires g.ustates > 0 && v < |s| && Recent(g.ustates, s, st, now) && Accessed(g, s, r, tag, v) && w == FindWay(r, tag)
    requires forall i, j :: 0 <= i < j < |r| && r[i].tag == tag ==> r[j].tag != tag
    requires FindWay(s, tag) < 0 ==> Lowest(s, v)
    ensures 0 <= w < |st| && Recent(g.ustates, r, Stamp(st, w, now + 1), now + 1)
  {
    var h := FindWay(s, tag);
    if h >= 0 {
      FoundAt(r, h, tag);
      HitRecent(g.ustates, s, st, now, r, Stamp(st, h, now + 1), h);
    } else {
      FoundAt(r, v, tag);
      MissRecent(g.ustates, s, st, now, r, Stamp(st, v, now + 1), v, tag);
    }
  }

  lemma {:induction false} StepRecent(g: Geometry, t: Traced, op: Op, u: Traced)
    requires RecentCache(g, t) && GoodOp(op) && Gentle(g, t, op) && u == TracedStep(g, t, op)
    ensures RecentCache(g, u)
  {
    TracedStepRanked(g, t, op);
    StepAccessed(g, t.c, op);
    var s, c := SetOf(g, op.a), Step(g, t.c, op);
    var w := FindWay(c.sets[s], TagOf(g, op.a));
    AccessStep(g, t, c, s, TagOf(g, op.a), Victim(g, t.c.sets[s], op), w);
    TracedByIs(g, t, op, c, s, w);
    OtherRecent(g, t, c, s, Stamp(t.st[s], w, t.now + 1), u);
  }

  /** The same in a cache. */
  lemma {:induction false} UsedRecent(g: Geometry, c: Cache, s: nat, r0: seq<Way>, tag: nat, v: nat, st: seq<nat>, now: nat, w: int)
    requires Coherent(g, c) && s < g.nsets && v < |r0| && Recent(g.ustates, r0, st, now)
    requires Accessed(g, r0, c.sets[s], tag, v) && w == FindWay(c.sets[s], tag) && (FindWay(r0, tag) < 0 ==> Lowest(r0, v))
    ensures 0 <= w < |st| && Recent(g.ustates, c.sets[s], Stamp(st, w, now + 1), now + 1)
  {
    TagOnce(g, c, s, tag);
    AccessRecent(g, r0, c.sets[s], tag, v, st, now, w);
  }

  lemma {:induction false} AccessStep(g: Geometry, t: Traced, c: Cache, s: nat, tag: nat, v: nat, w: int)
    requires RecentSets(g, t) && Coherent(g, c) && s < g.nsets && w == FindWay(c.sets[s], tag)
    requires v < |t.c.sets[s]| && Accessed(g, t.c.sets[s], c.sets[s], tag, v)
    requires FindWay(t.c.sets[s], tag) < 0 ==> Lowest(t.c.sets[s], v)
    ensures 0 <= w < |t.st[s]| && Recent(g.ustates, c.sets[s], Stamp(t.st[s], w, t.now + 1), t.now + 1)
  {
    assert Recent(g.ustates, t.c.sets[s], t.st[s], t.now);
    UsedRecent(g, c, s, t.c.sets[s], tag, v, t.st[s], t.now, w);
  }

  lemma {:induction false} OtherRecent(g: Geometry, t: Traced, c: Cache, s: nat, stamps: seq<nat>, u: Traced)
    requires RecentSets(g, t) && s < g.nsets == |c.sets| && u == Traced(c, t.st[s := stamps], t.now + 1)
    requires Recent(g.ustates, c.sets[s], stamps, t.now + 1)
    requires forall q :: 0 <= q < g.nsets && q != s ==> c.sets[q] == t.c.sets[q]
    ensures RecentSets(g, u)
  {
    forall q | 0 <= q < g.nsets && q != s
      ensures Recent(g.ustates, u.c.sets[q], u.st[q], u.now)
    {
      assert u.c.sets[q] == t.c.sets[q] && u.st[q] == t.st[q];
      LaterRecent(g.ustates, t.c.sets[q], t.st[q], t.now);
    }
  }

  lemma {:induction false} RunRecent(g: Geometry, t: Traced, ops: seq<Op>)
    requires RecentCache(g, t) && GoodOps(ops) && GentleRun(g, t, ops)
    ensures RecentCache(g, TracedRun(g, t, ops))
    decreases |ops|
  {
    if ops != [] {
      var u := TracedStep(g, t, ops[0]);
      StepRecent(g, t, ops[0], u);
      RunRecent(g, u, ops[1..]);
    }
  }

  /** After any run of reads and of writes that hit, from an invalidated cache with a counter state
      for every way, the next read miss in a set replaces an invalid line if there is one, and the
      least recently used line otherwise. */
  lemma {:induction false} LeastRecentlyUsed(g: Geometry, t: Traced, ops: seq<Op>, q: nat)
    requires Invalidated(g, t) && 0 < g.nways <= g.ustates && GoodOps(ops) && q < g.nsets
    requires (InvalidatedIsRanked(g, t); GentleRun(g, t, ops))
    ensures (InvalidatedIsRanked(g, t);
             var u := TracedRun(g, t, ops);
             RankedCache(g, u) && OldestFirst(g, u.c.sets[q], u.st[q]))
  {
    InvalidIsRecent(g, t);
    RunRecent(g, t, ops);
    var u := TracedRun(g, t, ops);
    var s := u.c.sets[q];
    assert Recent(g.ustates, s, u.st[q], u.now) && Ranked(g, s, u.st[q], u.now);
    VictimIsOldest(g.ustates, s, u.st[q], u.now, ReadVictim(s, g.ustates));
  }

  /** The victim of a read miss is an invalid way as long as there is one, then the one whose last
      use is the earliest. */
  ghost predicate OldestFirst(g: Geometry, s: seq<Way>, st: seq<nat>)
  {
    && |s| == |st| > 0 && g.ustates > 0 && (forall i :: 0 <= i < |s| ==> s[i].lru < g.ustates)
    && var v := ReadVictim(s, g.ustates);
       if exists i :: 0 <= i < |s| && s[i].tag == INVALID then s[v].tag == INVALID
       else forall i :: 0 <= i < |s| && i != v ==> st[v] < st[i]
  }

  // ------------------------------------------------- fewer states than ways

  /** Addresses in different blocks of set q. */
  ghost predicate Blocks(g: Geometry, q: nat, blocks: seq<nat>)
    requires Usable(g)
  {
    && (forall k :: 0 <= k < |blocks| ==> SetOf(g, blocks[k]) == q && GoodOp(ReadOp(blocks[k], 4)))
    && forall i, k :: 0 <= i < k < |blocks| ==> TagOf(g, blocks[i]) != TagOf(g, blocks[k])
  }

  /** Reads of the first j of them. */
  function Reads(blocks: seq<nat>, j: nat): (ops: seq<Op>)
    requires j <= |blocks|
    ensures |ops| == j && forall k :: 0 <= k < j ==> ops[k] == ReadOp(blocks[k], 4)
  {
    seq(j, k requires 0 <= k < j => ReadOp(blocks[k], 4))
  }

  /** The first j ways of set q hold these blocks, read in this order; the others are empty. */
  ghost predicate FilledTo(g: Geometry, t: Traced, q: nat, blocks: seq<nat>, j: nat)
    requires Usable(g) && j <= |blocks|
  {
    && t.now == j && q < g.nsets == |t.c.sets| == |t.st| && |t.c.sets[q]| == |t.st[q]| == g.nways
    && forall i: nat :: i < g.nways ==>
         if i < j then t.c.sets[q][i].tag == TagOf(g, blocks[i]) && t.st[q][i] == i + 1 else t.c.sets[q][i].tag == INVALID
  }

  /** While there are fewer valid ways than states, the next victim is the first empty way. */
  lemma {:induction false} FirstEmpty(g: Geometry, t: Traced, q: nat, blocks: seq<nat>, j: nat)
    requires RecentCache(g, t) && j < |blocks| && Blocks(g, q, blocks) && FilledTo(g, t, q, blocks, j) && j < g.ustates && j < g.nways
    ensures ReadVictim(t.c.sets[q], g.ustates) == j && FindWay(t.c.sets[q], TagOf(g, blocks[j])) < 0
  {
    var s, st := t.c.sets[q], t.st[q];
    assert Recent(g.ustates, s, st, t.now);
    forall i: nat | i < j
      ensures s[i].lru > 0
    {
      OneSet(i, 0);
      R.NewerAreValid(Tags(s), st, 1, st[i], |s|, i);
      FilledCount(Tags(s), |s|, j);
    }
    assert s[j].lru == 0;
  }

  lemma {:induction false} FilledCount(tags: seq<int>, n: nat, j: nat)
    requires n <= |tags| && forall i :: 0 <= i < n ==> (R.Valid(tags[i]) <==> i < j)
    ensures R.CountValid(tags, 1, 0, n) == if n < j then n else j
  {
    if n > 0 {
      OneSet(n - 1, 0);
      FilledCount(tags, n - 1, j);
    }
  }

  /** All valid ways but way 0 were used after it. */
  lemma {:induction false} AllNewer(tags: seq<int>, st: seq<nat>, n: nat)
    requires 0 < n <= |tags| == |st| && R.Valid(tags[0])
    requires forall i :: 0 < i < n && R.Valid(tags[i]) ==> st[i] > st[0]
    ensures R.Newer(tags, st, 1, 0, st[0], n) + 1 == R.CountValid(tags, 1, 0, n)
  {
    OneSet(n - 1, 0);
    if n > 1 {
      AllNewer(tags, st, n - 1);
    }
  }

  lemma {:induction false} FillOne(g: Geometry, t: Traced, q: nat, blocks: seq<nat>, j: nat, op: Op, u: Traced)
    requires RecentCache(g, t) && j < |blocks| && Blocks(g, q, blocks) && FilledTo(g, t, q, blocks, j) && j < g.ustates && j < g.nways
    requires op == ReadOp(blocks[j], 4) && GoodOp(op) && u == TracedStep(g, t, op)
    ensures RecentCache(g, u) && FilledTo(g, u, q, blocks, j + 1)
  {
    StepRecent(g, t, op, u);
    FirstEmpty(g, t, q, blocks, j);
    FilledNext(g, t, q, blocks, j, op, Step(g, t.c, op), u);
  }

  lemma {:induction false} FilledNext(g: Geometry, t: Traced, q: nat, blocks: seq<nat>, j: nat, op: Op, c: Cache, u: Traced)
    requires RankedCache(g, t) && j < |blocks| && Blocks(g, q, blocks) && FilledTo(g, t, q, blocks, j) && j < g.nways
    requires op == ReadOp(blocks[j], 4) && GoodOp(op) && c == Step(g, t.c, op) && u == TracedBy(g, t, op, c)
    requires ReadVictim(t.c.sets[q], g.ustates) == j && FindWay(t.c.sets[q], TagOf(g, blocks[j])) < 0
    ensures FilledTo(g, u, q, blocks, j + 1)
  {
    StepAccessed(g, t.c, op);
    TagOnce(g, c, q, TagOf(g, op.a));
    FoundAt(c.sets[q], j, TagOf(g, op.a));
    TracedByIs(g, t, op, c, q, j);
  }

  /** ts are the states of a run. */
  ghost predicate Chain(g: Geometry, ts: seq<Traced>, ops: seq<Op>)
  {
    |ts| == |ops| + 1 && forall k :: 0 <= k < |ops| ==> Linked(g, ts[k], ops[k], ts[k + 1])
  }

  ghost predicate Linked(g: Geometry, t: Traced, op: Op, u: Traced)
  {
    RankedCache(g, t) && GoodOp(op) && op.ReadOp? && u == TracedStep(g, t, op)
  }

  lemma {:induction false} ChainRuns(g: Geometry, ts: seq<Traced>, ops: seq<Op>)
    requires Chain(g, ts, ops) && RankedCache(g, ts[0])
    ensures GoodOps(ops) && GentleRun(g, ts[0], ops) && TracedRun(g, ts[0], ops) == ts[|ops|]
    decreases |ops|
  {
    if ops != [] {
      var t, op, rest, u := ts[0], ops[0], ops[1..], ts[1];
      assert Linked(g, t, op, u);
      TracedStepRanked(g, t, op);
      ChainRest(g, ts, ops);
      ChainRuns(g, ts[1..], rest);
      RunFirst(g, t, op, rest, u, ops);
    }
  }

  lemma {:induction false} ChainRest(g: Geometry, ts: seq<Traced>, ops: seq<Op>)
    requires Chain(g, ts, ops) && ops != []
    ensures Chain(g, ts[1..], ops[1..])
  {
    forall k | 0 <= k < |ops| - 1
      ensures Linked(g, ts[1..][k], ops[1..][k], ts[1..][k + 1])
    {
      assert Linked(g, ts[k + 1], ops[k + 1], ts[k + 2]);
    }
  }

  lemma {:induction false} ChainMore(g: Geometry, ts: seq<Traced>, ops: seq<Op>, op: Op, u: Traced)
    requires Chain(g, ts, ops) && Linked(g, ts[|ops|], op, u)
    ensures Chain(g, ts + [u], ops + [op])
  {
    var rs, qs := ts + [u], ops + [op];
    forall k | 0 <= k < |qs|
      ensures Linked(g, rs[k], qs[k], rs[k + 1])
    {
      if k < |ops| {
        assert Linked(g, ts[k], ops[k], ts[k + 1]);
      }
    }
  }

  lemma {:induction false} RunFirst(g: Geometry, t: Traced, op: Op, rest: seq<Op>, u: Traced, ops: seq<Op>)
    requires RankedCache(g, t) && GoodOp(op) && op.ReadOp? && GoodOps(rest) && u == TracedStep(g, t, op)
    requires RankedCache(g, u) && GentleRun(g, u, rest) && ops != [] && ops[0] == op && ops[1..] == rest
    ensures GoodOps(ops) && GentleRun(g, t, ops) && TracedRun(g, t, ops) == TracedRun(g, u, rest)
  {
  }

  lemma {:induction false} FillAll(g: Geometry, t: Traced, q: nat, blocks: seq<nat>, j: nat) returns (ts: seq<Traced>)
    requires RecentCache(g, t) && Blocks(g, q, blocks) && FilledTo(g, t, q, blocks, 0)
    requires j <= |blocks| == g.ustates < g.nways
    ensures Chain(g, ts, Reads(blocks, j)) && ts[0] == t && RecentCache(g, ts[j]) && FilledTo(g, ts[j], q, blocks, j)
  {
    ts := [t];
    if j > 0 {
      ts := FillAll(g, t, q, blocks, j - 1);
      ts := FillMore(g, ts, q, blocks, j - 1);
    }
  }

  lemma {:induction false} FillMore(g: Geometry, rs: seq<Traced>, q: nat, blocks: seq<nat>, j: nat) returns (ts: seq<Traced>)
    requires Usable(g) && Blocks(g, q, blocks) && j < |blocks| == g.ustates < g.nways && Chain(g, rs, Reads(blocks, j))
    requires RecentCache(g, rs[j]) && FilledTo(g, rs[j], q, blocks, j)
    ensures Chain(g, ts, Reads(blocks, j + 1)) && ts[0] == rs[0] && RecentCache(g, ts[j + 1])
    ensures FilledTo(g, ts[j + 1], q, blocks, j + 1)
  {
    var op := ReadOp(blocks[j], 4);
    var u := TracedStep(g, rs[j], op);
    FillOne(g, rs[j], q, blocks, j, op, u);
    ChainMore(g, rs, Reads(blocks, j), op, u);
    assert Reads(blocks, j + 1) == Reads(blocks, j) + [op];
    ts := rs + [u];
  }

  lemma {:induction false} FilledFails(g: Geometry, u: Traced, q: nat, blocks: seq<nat>)
    requires RecentCache(g, u) && Blocks(g, q, blocks) && |blocks| == g.ustates < g.nways && FilledTo(g, u, q, blocks, g.ustates)
    ensures !OldestFirst(g, u.c.sets[q], u.st[q])
  {
    var s, st := u.c.sets[q], u.st[q];
    assert Recent(g.ustates, s, st, u.now);
    OneSet(0, 0);
    AllNewer(Tags(s), st, |s|);
    FilledCount(Tags(s), |s|, g.ustates);
    assert s[0].lru == 0 && s[g.ustates].tag == INVALID;
  }

  /** With fewer states than ways it never holds: once as many blocks of a set have been read as there
      are states, the oldest line is replaced although there are empty ones. */
  lemma {:induction false} TooFewStates(g: Geometry, t: Traced, q: nat, blocks: seq<nat>)
    requires Invalidated(g, t) && |blocks| == g.ustates < g.nways && q < g.nsets && Blocks(g, q, blocks)
    ensures GoodOps(Reads(blocks, |blocks|)) && (InvalidatedIsRanked(g, t); GentleRun(g, t, Reads(blocks, |blocks|)))
    ensures (InvalidatedIsRanked(g, t);
             var u := TracedRun(g, t, Reads(blocks, |blocks|));
             RankedCache(g, u) && !OldestFirst(g, u.c.sets[q], u.st[q]))
  {
    InvalidIsRecent(g, t);
    var ts := FillAll(g, t, q, blocks, |blocks|);
    ChainRuns(g, ts, Reads(blocks, |blocks|));
    FilledFails(g, ts[|blocks|], q, blocks);
  }

  /** There are such blocks: every so many bytes begins another one of set 0. */
  lemma {:induction false} BlockOfSet(g: Geometry, j: nat, a: nat)
    requires Usable(g) && a == j * g.nsets * g.blocksize
    ensures SetOf(g, a) == 0 && TagOf(g, a) == j && a % 4 == 0
  {
    B.ModUnique(a, g.blocksize, j * g.nsets, 0);
    B.ModUnique(j * g.nsets, g.nsets, j, 0);
  }
}
