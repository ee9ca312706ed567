/** The data cache (cache/dcache-model.c). */
module DCache {
  import B = Bits
  import opened Words
  import opened ByteMemory
  import opened BigEndianMemory
  import opened LineRefill

  datatype Geometry = Geometry(nsets: nat, nways: nat, blocksize: nat, ustates: nat)

  predicate Usable(g: Geometry)
  {
    g.nsets > 0 && g.nways > 0 && (g.blocksize == 16 || g.blocksize == 32) && g.ustates >= 2
  }

  /** `tag` -1 marks an invalid line: no address has it. */
  datatype Way = Way(line: seq<Word>, tag: int, lru: nat)

  const INVALID := -1

  function SetOf(g: Geometry, a: nat): (s: nat)
    requires Usable(g)
    ensures s < g.nsets
  {
    (a / g.blocksize) % g.nsets
  }

  function TagOf(g: Geometry, a: nat): nat
    requires Usable(g)
  {
    (a / g.blocksize) / g.nsets
  }

  /** Index of the word of a within its line. */
  function WordOf(g: Geometry, a: nat): (k: nat)
    requires Usable(g)
    ensures k < g.blocksize / 4
  {
    (a % g.blocksize) / 4
  }

  // ------------------------------------------------------ one set, as values

  /** The way the scan leaves in `way`: the last one with a matching tag. */
  function FindWay(s: seq<Way>, tag: int): (w: int)
    ensures -1 <= w < |s|
    ensures w >= 0 ==> s[w].tag == tag
    ensures forall i :: w < i < |s| ==> s[i].tag != tag
  {
    if s == [] then -1
    else if s[|s| - 1].tag == tag then |s| - 1
    else FindWay(s[..|s| - 1], tag)
  }

  /** The victim of a read miss: the first way with the smallest counter. */
  function ReadVictim(s: seq<Way>, ustates: nat): (v: nat)
    requires s != [] && ustates > 0 && forall i :: 0 <= i < |s| ==> s[i].lru < ustates
    ensures v < |s|
    ensures forall i :: 0 <= i < |s| ==> s[v].lru <= s[i].lru
    ensures forall i :: 0 <= i < v ==> s[v].lru < s[i].lru
  {
    if |s| == 1 then 0
    else
      var v := ReadVictim(s[..|s| - 1], ustates);
      if s[|s| - 1].lru < s[v].lru then |s| - 1 else v
  }

  /** The victim of a write miss, whose scan never lowers `minlru`: the last way
      below the top state, or way 0. */
  function WriteVictim(s: seq<Way>, ustates: nat): (v: nat)
    requires s != [] && ustates > 0
    ensures v < |s|
    ensures forall i :: v < i < |s| ==> s[i].lru >= ustates - 1
    ensures s[v].lru >= ustates - 1 ==> v == 0
  {
    if |s| == 1 || s[|s| - 1].lru < ustates - 1 then |s| - 1
    else WriteVictim(s[..|s| - 1], ustates)
  }

  /** The set after a hit in way w: counters above its own drop by one. */
  function Touch(s: seq<Way>, w: nat, ustates: nat): (r: seq<Way>)
    requires w < |s| && ustates > 0
    ensures |r| == |s|
  {
    seq(|s|, i requires 0 <= i < |s| =>
      if i == w then s[i].(lru := ustates - 1)
      else if s[i].lru > s[w].lru then s[i].(lru := s[i].lru - 1)
      else s[i])
  }

  /** The set after way v was refilled: every nonzero counter drops by one. */
  function Refill(s: seq<Way>, v: nat, tag: nat, line: seq<Word>, ustates: nat): (r: seq<Way>)
    requires v < |s| && ustates > 0
    ensures |r| == |s|
  {
    seq(|s|, i requires 0 <= i < |s| =>
      if i == v then Way(line, tag, ustates - 1)
      else if s[i].lru > 0 then s[i].(lru := s[i].lru - 1)
      else s[i])
  }

  // --------------------------------------------------- the cache over memory

  datatype Cache = Cache(sets: seq<seq<Way>>, mem: Memory)

  ghost predicate Shaped(g: Geometry, c: Cache)
  {
    && Usable(g) && |c.sets| == g.nsets
    && forall s :: 0 <= s < g.nsets ==> |c.sets[s]| == g.nways
  }

  /** Counters stay below the number of usage states. */
  ghost predicate Counted(g: Geometry, s: seq<Way>)
  {
    forall i :: 0 <= i < |s| ==> s[i].lru < g.ustates
  }

  /** The memory words of block number n. */
  function Block(g: Geometry, m: Memory, n: nat): (r: seq<Word>)
    requires Usable(g)
    ensures |r| == g.blocksize / 4
  {
    seq(g.blocksize / 4, k requires 0 <= k < g.blocksize / 4 => Word32(m, n * g.blocksize + 4 * k))
  }

  /** A valid line equals its block of memory. */
  ghost predicate WayCoherent(g: Geometry, m: Memory, s: nat, way: Way)
    requires Usable(g)
  {
    way.tag != INVALID ==>
      way.tag >= 0 && (way.tag * g.nsets + s + 1) * g.blocksize <= WORD && way.line == Block(g, m, way.tag * g.nsets + s)
  }

  /** Each valid line equals memory and no tag occurs twice. */
  ghost predicate CoherentSet(g: Geometry, m: Memory, s: nat, ways: seq<Way>)
    requires Usable(g)
  {
    && (forall i :: 0 <= i < |ways| ==> WayCoherent(g, m, s, ways[i]))
    && (forall i, j :: 0 <= i < j < |ways| && ways[i].tag != INVALID ==> ways[i].tag != ways[j].tag)
  }

  ghost predicate Coherent(g: Geometry, c: Cache)
  {
    && Shaped(g, c)
    && forall s :: 0 <= s < g.nsets ==> CoherentSet(g, c.mem, s, c.sets[s]) && Counted(g, c.sets[s])
  }

  datatype Op = ReadOp(a: nat, width: int) | WriteOp(a: nat, data: Word, width: int) | InvOp(a: nat)

  predicate GoodOp(op: Op)
  {
    op.InvOp? || Aligned(op.a, op.width)
  }

  predicate GoodOps(ops: seq<Op>)
  {
    forall i :: 0 <= i < |ops| ==> GoodOp(ops[i])
  }

  /** The set an access leaves behind: a hit is touched, a miss refilled. */
  function AccessSet(g: Geometry, c: Cache, a: nat, victim: nat): (r: seq<Way>)
    requires Usable(g) && SetOf(g, a) < |c.sets| && victim < |c.sets[SetOf(g, a)]|
    ensures |r| == |c.sets[SetOf(g, a)]|
  {
    var s := c.sets[SetOf(g, a)];
    var w := FindWay(s, TagOf(g, a));
    if w >= 0 then Touch(s, w, g.ustates)
    else Refill(s, victim, TagOf(g, a), Block(g, c.mem, a / g.blocksize), g.ustates)
  }

  /** `dc_simulate_read`: the new state and the value returned. */
  ghost function StepRead(g: Geometry, c: Cache, a: nat, width: int): (Cache, Word)
    requires Coherent(g, c) && Aligned(a, width)
  {
    var s := c.sets[SetOf(g, a)];
    var r := AccessSet(g, c, a, ReadVictim(s, g.ustates));
    var w := FindWay(r, TagOf(g, a));
    var line := if w >= 0 then r[w].line else [];
    (c.(sets := c.sets[SetOf(g, a) := r]),
     if WordOf(g, a) < |line| then Extract(line[WordOf(g, a)], a % 4, width) else 0)
  }

  /** `dc_simulate_write` */
  ghost function StepWrite(g: Geometry, c: Cache, a: nat, data: Word, width: int): Cache
    requires Coherent(g, c) && Aligned(a, width)
  {
    var s := c.sets[SetOf(g, a)];
    var n := c.(mem := Write(c.mem, a, width, data));
    var r := AccessSet(g, n, a, WriteVictim(s, g.ustates));
    var w := FindWay(s, TagOf(g, a));
    if w < 0 || WordOf(g, a) >= |s[w].line| then n.(sets := c.sets[SetOf(g, a) := r])
    else
      var k := WordOf(g, a);
      n.(sets := c.sets[SetOf(g, a) := r[w := r[w].(line := s[w].line[k := Insert(s[w].line[k], data, a % 4, width)])]])
  }

  /** `dc_inv` with the cache enabled. */
  ghost function StepInv(g: Geometry, c: Cache, a: nat): Cache
    requires Coherent(g, c)
  {
    var s := c.sets[SetOf(g, a)];
    var w := FindWay(s, TagOf(g, a));
    if w < 0 then c
    else c.(sets := c.sets[SetOf(g, a) := s[w := s[w].(tag := INVALID, lru := 0)]])
  }

  lemma {:induction false} BlockNumber(g: Geometry, a: nat)
    requires Usable(g)
    ensures TagOf(g, a) * g.nsets + SetOf(g, a) == a / g.blocksize
    ensures a / g.blocksize * g.blocksize + 4 * WordOf(g, a) == a - a % 4
  {
    if g.blocksize == 16 {
      var u, v, r := Parts16(a);
    } else {
      var u, v, r := Parts32(a);
    }
  }

  /** (tag, set) identifies the block. */
  lemma {:induction false} BlockNumberInjective(n: nat, t: nat, s: nat, u: nat, r: nat)
    requires n > 0 && s < n && r < n && t * n + s == u * n + r
    ensures t == u && s == r
  {
    B.MulGrows(t - u, n);
    assert (t - u) * n == t * n - u * n;
  }

  /** The words of block n are not those of a's block. */
  lemma {:induction false} WordElsewhere(bs: nat, n: nat, k: nat, a: nat)
    requires (bs == 16 || bs == 32) && k < bs / 4 && n != a / bs
    ensures (n * bs + 4 * k) % 4 == 0 && n * bs + 4 * k != a - a % 4
  {
    if bs == 16 {
      var u, v, r := Parts16(a);
      Remainder4(4 * n + k, 0);
    } else {
      var u, v, r := Parts32(a);
      Remainder4(8 * n + k, 0);
    }
  }

  lemma {:induction false} TouchCoherent(g: Geometry, m: Memory, s: nat, ways: seq<Way>, w: nat)
    requires Usable(g) && CoherentSet(g, m, s, ways) && Counted(g, ways) && w < |ways|
    ensures CoherentSet(g, m, s, Touch(ways, w, g.ustates)) && Counted(g, Touch(ways, w, g.ustates))
  {
  }

  lemma {:induction false} RefillCoherent(g: Geometry, m: Memory, s: nat, ways: seq<Way>, v: nat, tag: nat, n: nat, line: seq<Word>)
    requires Usable(g) && CoherentSet(g, m, s, ways) && Counted(g, ways) && v < |ways|
    requires FindWay(ways, tag) < 0 && n == tag * g.nsets + s && (n + 1) * g.blocksize <= WORD && line == Block(g, m, n)
    ensures var r := Refill(ways, v, tag, line, g.ustates);
            CoherentSet(g, m, s, r) && Counted(g, r)
  {
    var r := Refill(ways, v, tag, line, g.ustates);
    RefilledWay(g, m, s, tag, n, r[v]);
    RefilledOthers(g, m, s, ways, v, r);
    RefilledTags(g, m, s, ways, r, v, tag);
    RefillCounted(g, ways, v, tag, line);
  }

  lemma {:induction false} RefilledOthers(g: Geometry, m: Memory, s: nat, ways: seq<Way>, v: nat, r: seq<Way>)
    requires Usable(g) && CoherentSet(g, m, s, ways) && |r| == |ways|
    requires forall i :: 0 <= i < |r| && i != v ==> r[i].tag == ways[i].tag && r[i].line == ways[i].line
    ensures forall i :: 0 <= i < |r| && i != v ==> WayCoherent(g, m, s, r[i])
  {
    forall i | 0 <= i < |r| && i != v
      ensures WayCoherent(g, m, s, r[i])
    {
      assert WayCoherent(g, m, s, ways[i]);
      LruOnly(g, m, s, ways[i], r[i]);
    }
  }

  lemma {:induction false} RefilledWay(g: Geometry, m: Memory, s: nat, tag: nat, n: nat, way: Way)
    requires Usable(g) && n == tag * g.nsets + s && (n + 1) * g.blocksize <= WORD
    requires way.tag == tag && way.line == Block(g, m, n)
    ensures WayCoherent(g, m, s, way)
  {
  }

  lemma {:induction false} RefillCounted(g: Geometry, ways: seq<Way>, v: nat, tag: nat, line: seq<Word>)
    requires Counted(g, ways) && v < |ways| && g.ustates > 0
    ensures Counted(g, Refill(ways, v, tag, line, g.ustates))
  {
  }

  lemma {:induction false} LruOnly(g: Geometry, m: Memory, s: nat, x: Way, y: Way)
    requires Usable(g) && WayCoherent(g, m, s, x) && y.tag == x.tag && y.line == x.line
    ensures WayCoherent(g, m, s, y)
  {
  }

  lemma {:induction false} RefilledTags(g: Geometry, m: Memory, s: nat, ways: seq<Way>, r: seq<Way>, v: nat, tag: nat)
    requires Usable(g) && CoherentSet(g, m, s, ways) && |r| == |ways| && v < |ways| && FindWay(ways, tag) < 0
    requires r[v].tag == tag && forall i :: 0 <= i < |r| && i != v ==> r[i].tag == ways[i].tag
    ensures forall i, j :: 0 <= i < j < |r| && r[i].tag != INVALID ==> r[i].tag != r[j].tag
  {
  }

  /** A write leaves every other block's lines equal to memory. */
  lemma {:induction false} OtherBlock(g: Geometry, m: Memory, a: nat, data: Word, width: int, n: nat)
    requires Usable(g) && Aligned(a, width) && n != a / g.blocksize
    requires (n + 1) * g.blocksize <= WORD
    ensures Block(g, Write(m, a, width, data), n) == Block(g, m, n)
  {
    var base, x, y := n * g.blocksize, Block(g, Write(m, a, width, data), n), Block(g, m, n);
    BlockAligned(g.blocksize, n);
    forall k: nat | k < g.blocksize / 4
      ensures x[k] == y[k]
    {
      WordElsewhere(g.blocksize, n, k, a);
      WrittenMiss(g, m, a, data, width, n, base, k);
    }
  }

  lemma {:induction false} BlockAligned(bs: nat, n: nat)
    requires bs == 16 || bs == 32
    ensures n * bs % 4 == 0
  {
    if bs == 16 {
      Remainder4(4 * n, 0);
    } else {
      Remainder4(8 * n, 0);
    }
  }

  /** The written line, updated in its one word, is the new block. */
  lemma {:induction false} WrittenBlock(g: Geometry, m: Memory, a: nat, data: Word, width: int)
    requires Usable(g) && Aligned(a, width)
    ensures var line, k := Block(g, m, a / g.blocksize), WordOf(g, a);
            Block(g, Write(m, a, width, data), a / g.blocksize) ==
            line[k := Insert(line[k], data, a % 4, width)]
  {
    BlockNumber(g, a);
    BlockFits(g, a);
    WrittenWords(g, m, a, data, width, a / g.blocksize, a / g.blocksize * g.blocksize, WordOf(g, a));
  }

  lemma {:induction false} BlockWord(g: Geometry, m: Memory, n: nat, base: nat, k: nat)
    requires Usable(g) && base == n * g.blocksize && k < g.blocksize / 4
    ensures Block(g, m, n)[k] == Word32(m, base + 4 * k)
  {
  }

  lemma {:induction false} HitWord(m: Memory, a: nat, data: Word, width: int, x: nat, w: Word)
    requires Aligned(a, width) && x == a - a % 4 && w == Word32(m, x)
    ensures Word32(Write(m, a, width, data), x) == Insert(w, data, a % 4, width)
  {
    InsertIsFlatWrite(m, a, data, width);
  }

  lemma {:induction false} WrittenWords(g: Geometry, m: Memory, a: nat, data: Word, width: int, n: nat, base: nat, w: nat)
    requires Usable(g) && Aligned(a, width) && base == n * g.blocksize && base % 4 == 0 && base + g.blocksize <= WORD
    requires w < g.blocksize / 4 && base + 4 * w == a - a % 4
    ensures var line := Block(g, m, n);
            Block(g, Write(m, a, width, data), n) == line[w := Insert(line[w], data, a % 4, width)]
  {
    var line, after := Block(g, m, n), Block(g, Write(m, a, width, data), n);
    forall k: nat | k < g.blocksize / 4
      ensures after[k] == if k == w then Insert(line[k], data, a % 4, width) else line[k]
    {
      if k == w {
        WrittenHit(g, m, a, data, width, n, base, k);
      } else {
        WrittenMiss(g, m, a, data, width, n, base, k);
      }
    }
  }

  lemma {:induction false} WrittenHit(g: Geometry, m: Memory, a: nat, data: Word, width: int, n: nat, base: nat, k: nat)
    requires Usable(g) && Aligned(a, width) && base == n * g.blocksize
    requires k < g.blocksize / 4 && base + 4 * k == a - a % 4
    ensures Block(g, Write(m, a, width, data), n)[k] == Insert(Block(g, m, n)[k], data, a % 4, width)
  {
    BlockWord(g, m, n, base, k);
    BlockWord(g, Write(m, a, width, data), n, base, k);
    HitWord(m, a, data, width, base + 4 * k, Block(g, m, n)[k]);
  }

  lemma {:induction false} WrittenMiss(g: Geometry, m: Memory, a: nat, data: Word, width: int, n: nat, base: nat, k: nat)
    requires Usable(g) && Aligned(a, width) && base == n * g.blocksize && base % 4 == 0 && base + g.blocksize <= WORD
    requires k < g.blocksize / 4 && base + 4 * k != a - a % 4
    ensures Block(g, Write(m, a, width, data), n)[k] == Block(g, m, n)[k]
  {
    BlockWord(g, m, n, base, k);
    BlockWord(g, Write(m, a, width, data), n, base, k);
    Remainder4(base / 4 + k, 0);
    OtherWords(m, a, data, width, base + 4 * k);
  }

  lemma {:induction false} BlockFits(g: Geometry, a: nat)
    requires Usable(g) && a < WORD
    ensures (a / g.blocksize + 1) * g.blocksize <= WORD
  {
  }

  /** A line of another block stays coherent over a write. */
  lemma {:induction false} WayKept(g: Geometry, m: Memory, a: nat, data: Word, width: int, s: nat, way: Way)
    requires Usable(g) && Aligned(a, width) && s < g.nsets && WayCoherent(g, m, s, way)
    requires s != SetOf(g, a) || way.tag != TagOf(g, a)
    ensures WayCoherent(g, Write(m, a, width, data), s, way)
  {
    if way.tag != INVALID {
      BlockNumber(g, a);
      if way.tag * g.nsets + s == a / g.blocksize {
        BlockNumberInjective(g.nsets, way.tag, s, TagOf(g, a), SetOf(g, a));
      }
      OtherBlock(g, m, a, data, width, way.tag * g.nsets + s);
    }
  }

  lemma {:induction false} WayUpdated(g: Geometry, m: Memory, a: nat, data: Word, width: int, way: Way)
    requires Usable(g) && Aligned(a, width) && WayCoherent(g, m, SetOf(g, a), way) && way.tag == TagOf(g, a)
    ensures var k := WordOf(g, a);
            k < |way.line| &&
            WayCoherent(g, Write(m, a, width, data), SetOf(g, a),
                        way.(line := way.line[k := Insert(way.line[k], data, a % 4, width)]))
  {
    BlockNumber(g, a);
    WrittenBlock(g, m, a, data, width);
  }

  lemma {:induction false} SetWritten(g: Geometry, m: Memory, a: nat, data: Word, width: int, s: nat, ways: seq<Way>)
    requires Usable(g) && Aligned(a, width) && s < g.nsets && CoherentSet(g, m, s, ways)
    requires s == SetOf(g, a) ==> FindWay(ways, TagOf(g, a)) < 0
    ensures CoherentSet(g, Write(m, a, width, data), s, ways)
  {
    forall i | 0 <= i < |ways|
      ensures WayCoherent(g, Write(m, a, width, data), s, ways[i])
    {
      WayKept(g, m, a, data, width, s, ways[i]);
    }
  }

  lemma {:induction false} HitWritten(g: Geometry, m: Memory, a: nat, data: Word, width: int, ways: seq<Way>, w: nat)
    requires Usable(g) && Aligned(a, width) && CoherentSet(g, m, SetOf(g, a), ways)
    requires w < |ways| && ways[w].tag == TagOf(g, a)
    ensures WordOf(g, a) < |ways[w].line|
    ensures var k := WordOf(g, a);
            CoherentSet(g, Write(m, a, width, data), SetOf(g, a),
              ways[w := ways[w].(line := ways[w].line[k := Insert(ways[w].line[k], data, a % 4, width)])])
  {
    WayUpdated(g, m, a, data, width, ways[w]);
    forall i | 0 <= i < |ways| && i != w
      ensures WayCoherent(g, Write(m, a, width, data), SetOf(g, a), ways[i])
    {
      assert ways[i].tag != INVALID ==> ways[i].tag != TagOf(g, a);
      WayKept(g, m, a, data, width, SetOf(g, a), ways[i]);
    }
  }

  lemma {:induction false} AccessCoherent(g: Geometry, c: Cache, a: nat, v: nat)
    requires Usable(g) && SetOf(g, a) < |c.sets| && v < |c.sets[SetOf(g, a)]| && a < WORD
    requires CoherentSet(g, c.mem, SetOf(g, a), c.sets[SetOf(g, a)]) && Counted(g, c.sets[SetOf(g, a)])
    ensures var r := AccessSet(g, c, a, v);
            CoherentSet(g, c.mem, SetOf(g, a), r) && Counted(g, r) && FindWay(r, TagOf(g, a)) >= 0
  {
    var ways := c.sets[SetOf(g, a)];
    BlockNumber(g, a);
    BlockFits(g, a);
    var w := FindWay(ways, TagOf(g, a));
    if w >= 0 {
      TouchCoherent(g, c.mem, SetOf(g, a), ways, w);
      assert AccessSet(g, c, a, v)[w].tag == TagOf(g, a);
    } else {
      RefillCoherent(g, c.mem, SetOf(g, a), ways, v, TagOf(g, a), a / g.blocksize, Block(g, c.mem, a / g.blocksize));
      assert AccessSet(g, c, a, v)[v].tag == TagOf(g, a);
    }
  }

  /** Where the accessed line is found afterwards. */
  lemma {:induction false} AccessFound(g: Geometry, c: Cache, a: nat, v: nat)
    requires Usable(g) && SetOf(g, a) < |c.sets| && v < |c.sets[SetOf(g, a)]| && a < WORD
    requires CoherentSet(g, c.mem, SetOf(g, a), c.sets[SetOf(g, a)]) && Counted(g, c.sets[SetOf(g, a)])
    ensures var h := FindWay(c.sets[SetOf(g, a)], TagOf(g, a));
            FindWay(AccessSet(g, c, a, v), TagOf(g, a)) == if h >= 0 then h else v
  {
    AccessCoherent(g, c, a, v);
    var h := FindWay(c.sets[SetOf(g, a)], TagOf(g, a));
    assert AccessSet(g, c, a, v)[if h >= 0 then h else v].tag == TagOf(g, a);
  }

  lemma {:induction false} StepReadCorrect(g: Geometry, c: Cache, a: nat, width: int)
    requires Coherent(g, c) && Aligned(a, width)
    ensures Coherent(g, StepRead(g, c, a, width).0) && StepRead(g, c, a, width).0.mem == c.mem
    ensures StepRead(g, c, a, width).1 == FlatRead(c.mem, a, width)
  {
    var v := ReadVictim(c.sets[SetOf(g, a)], g.ustates);
    AccessCoherent(g, c, a, v);
    var r := AccessSet(g, c, a, v);
    HitLine(g, c.mem, SetOf(g, a), r, a, FindWay(r, TagOf(g, a)));
    ExtractIsFlatRead(c.mem, a, width);
  }

  lemma {:induction false} HitLine(g: Geometry, m: Memory, s: nat, r: seq<Way>, a: nat, w: nat)
    requires Usable(g) && CoherentSet(g, m, s, r) && s == SetOf(g, a)
    requires w < |r| && r[w].tag == TagOf(g, a)
    ensures FindWay(r, TagOf(g, a)) == w && WordOf(g, a) < |r[w].line|
    ensures r[w].line[WordOf(g, a)] == Word32(m, a - a % 4)
  {
    BlockNumber(g, a);
  }

  lemma {:induction false} StepWriteCorrect(g: Geometry, c: Cache, a: nat, data: Word, width: int)
    requires Coherent(g, c) && Aligned(a, width)
    ensures Coherent(g, StepWrite(g, c, a, data, width))
    ensures StepWrite(g, c, a, data, width).mem == Write(c.mem, a, width, data)
  {
    var s, n := SetOf(g, a), c.(mem := Write(c.mem, a, width, data));
    var ways := c.sets[s];
    var w := FindWay(ways, TagOf(g, a));
    forall q | 0 <= q < g.nsets && q != s
      ensures CoherentSet(g, n.mem, q, c.sets[q])
    {
      SetWritten(g, c.mem, a, data, width, q, c.sets[q]);
    }
    if w >= 0 {
      TouchCoherent(g, c.mem, s, ways, w);
      HitWritten(g, c.mem, a, data, width, Touch(ways, w, g.ustates), w);
    } else {
      SetWritten(g, c.mem, a, data, width, s, ways);
      AccessCoherent(g, n, a, WriteVictim(ways, g.ustates));
    }
  }

  lemma {:induction false} StepInvCorrect(g: Geometry, c: Cache, a: nat)
    requires Coherent(g, c)
    ensures Coherent(g, StepInv(g, c, a)) && StepInv(g, c, a).mem == c.mem
  {
  }

  // ------------------------------------------------------------------- runs

  /** The values the reads of a run return through the cache. */
  ghost function Run(g: Geometry, c: Cache, ops: seq<Op>): seq<Word>
    requires Coherent(g, c) && GoodOps(ops)
    decreases |ops|
  {
    if ops == [] then []
    else
      match ops[0]
      case ReadOp(a, width) =>
        StepReadCorrect(g, c, a, width);
        var (n, v) := StepRead(g, c, a, width);
        [v] + Run(g, n, ops[1..])
      case WriteOp(a, data, width) =>
        StepWriteCorrect(g, c, a, data, width);
        Run(g, StepWrite(g, c, a, data, width), ops[1..])
      case InvOp(a) =>
        StepInvCorrect(g, c, a);
        Run(g, StepInv(g, c, a), ops[1..])
  }

  /** The same run on memory alone. */
  ghost function FlatRun(m: Memory, ops: seq<Op>): seq<Word>
    requires GoodOps(ops)
    decreases |ops|
  {
    if ops == [] then []
    else
      match ops[0]
      case ReadOp(a, width) => [FlatRead(m, a, width)] + FlatRun(m, ops[1..])
      case WriteOp(a, data, width) => FlatRun(Write(m, a, width, data), ops[1..])
      case InvOp(_) => FlatRun(m, ops[1..])
  }

  lemma {:induction false} CacheIsTransparent(g: Geometry, c: Cache, ops: seq<Op>)
    requires Coherent(g, c) && GoodOps(ops)
    ensures Run(g, c, ops) == FlatRun(c.mem, ops)
    decreases |ops|
  {
    if ops != [] {
      match ops[0]
      case ReadOp(a, width) =>
        StepReadCorrect(g, c, a, width);
        CacheIsTransparent(g, StepRead(g, c, a, width).0, ops[1..]);
      case WriteOp(a, data, width) =>
        StepWriteCorrect(g, c, a, data, width);
        CacheIsTransparent(g, StepWrite(g, c, a, data, width), ops[1..]);
      case InvOp(a) =>
        StepInvCorrect(g, c, a);
        CacheIsTransparent(g, StepInv(g, c, a), ops[1..]);
    }
  }

  /** A cache all of whose lines are invalid, over any memory. */
  lemma {:induction false} InvalidatedIsCoherent(g: Geometry, c: Cache)
    requires Shaped(g, c)
    requires forall s, i :: 0 <= s < g.nsets && 0 <= i < g.nways ==> c.sets[s][i].tag == INVALID && c.sets[s][i].lru == 0
    ensures Coherent(g, c)
  {
  }

  // ------------------------------------------------- what the counters mean

  /** st[i] is the time of the last access to way i.  Counters are below the number
      of states, nonzero ones are distinct, and a larger one is more recent than that of any
      valid way (an invalidated way keeps its time but loses its counter). */
  ghost predicate Ranked(g: Geometry, s: seq<Way>, st: seq<nat>, now: nat)
  {
    && |st| == |s| && Counted(g, s)
    && (forall i, j :: 0 <= i < j < |s| && s[i].lru == s[j].lru ==> s[i].lru == 0)
    && (forall i, j :: 0 <= i < |s| && 0 <= j < |s| && s[i].lru > s[j].lru && s[j].tag != INVALID ==> st[i] > st[j])
    && (forall i :: 0 <= i < |s| ==> st[i] <= now && (s[i].tag == INVALID ==> s[i].lru == 0))
  }

  /** m is the most recently accessed valid way of the set. */
  ghost predicate MostRecent(s: seq<Way>, st: seq<nat>, m: nat)
  {
    && |st| == |s| && m < |s| && s[m].tag != INVALID
    && forall i :: 0 <= i < |s| && s[i].tag != INVALID ==> st[i] <= st[m]
  }

  function Stamp(st: seq<nat>, w: nat, time: nat): (r: seq<nat>)
    requires w < |st|
  {
    st[w := time]
  }

  lemma {:induction false} TouchRanked(g: Geometry, s: seq<Way>, st: seq<nat>, now: nat, w: nat)
    requires g.ustates >= 2 && Ranked(g, s, st, now) && w < |s| && s[w].tag != INVALID
    ensures Ranked(g, Touch(s, w, g.ustates), Stamp(st, w, now + 1), now + 1)
  {
    var r, q := Touch(s, w, g.ustates), Stamp(st, w, now + 1);
    forall i, j | 0 <= i < |s| && 0 <= j < |s| && r[i].lru > r[j].lru && r[j].tag != INVALID
      ensures q[i] > q[j]
    {
      if i != w && j != w {
        assert s[i].lru > s[j].lru;
      }
    }
  }

  lemma {:induction false} RefillRanked(g: Geometry, s: seq<Way>, st: seq<nat>, now: nat, v: nat, tag: nat, line: seq<Word>)
    requires g.ustates >= 2 && Ranked(g, s, st, now) && v < |s|
    ensures Ranked(g, Refill(s, v, tag, line, g.ustates), Stamp(st, v, now + 1), now + 1)
  {
    var r, q := Refill(s, v, tag, line, g.ustates), Stamp(st, v, now + 1);
    forall i, j | 0 <= i < |s| && 0 <= j < |s| && r[i].lru > r[j].lru && r[j].tag != INVALID
      ensures q[i] > q[j]
    {
      if i != v && j != v {
        assert s[i].lru > s[j].lru;
      }
    }
  }

  /** A read miss evicts the most recently accessed valid line exactly when that
      line is in way 0 and every counter of the set is zero, which takes an
      invalidation of the line accessed last. */
  lemma {:induction false} ReadVictimExact(g: Geometry, s: seq<Way>, st: seq<nat>, now: nat, m: nat)
    requires g.ustates >= 2 && |s| >= 2 && Ranked(g, s, st, now) && MostRecent(s, st, m)
    ensures ReadVictim(s, g.ustates) == m <==> m == 0 && forall i :: 0 <= i < |s| ==> s[i].lru == 0
  {
    var v, other := ReadVictim(s, g.ustates), if m == 0 then 1 else 0;
    assert forall i :: 0 <= i < |s| ==> s[i].lru <= s[m].lru;
    assert s[v].lru <= s[other].lru && s[v].lru <= s[0].lru;
  }

  /** A write miss evicts it exactly when it is in the last way and its counter is
      below the top state. */
  lemma {:induction false} WriteVictimExact(g: Geometry, s: seq<Way>, st: seq<nat>, now: nat, m: nat)
    requires g.ustates >= 2 && |s| >= 2 && Ranked(g, s, st, now) && MostRecent(s, st, m)
    ensures WriteVictim(s, g.ustates) == m <==> m == |s| - 1 && s[m].lru < g.ustates - 1
  {
  }

  /** The line accessed last holds the top counter until it is invalidated. */
  ghost predicate TopIsRecent(g: Geometry, s: seq<Way>, st: seq<nat>)
  {
    forall m: nat :: MostRecent(s, st, m) ==> s[m].lru == g.ustates - 1
  }

  lemma {:induction false} NoEvictionOfLastAccessed(g: Geometry, s: seq<Way>, st: seq<nat>, now: nat, m: nat)
    requires g.ustates >= 2 && |s| >= 2 && Ranked(g, s, st, now) && MostRecent(s, st, m) && TopIsRecent(g, s, st)
    ensures ReadVictim(s, g.ustates) != m && WriteVictim(s, g.ustates) != m
  {
    ReadVictimExact(g, s, st, now, m);
    WriteVictimExact(g, s, st, now, m);
  }

  // The counters over whole runs.

  datatype Traced = Traced(c: Cache, st: seq<seq<nat>>, now: nat)

  ghost predicate RankedCache(g: Geometry, t: Traced)
  {
    && Coherent(g, t.c) && |t.st| == g.nsets
    && forall s :: 0 <= s < g.nsets ==> Ranked(g, t.c.sets[s], t.st[s], t.now)
  }

  ghost predicate TopCache(g: Geometry, t: Traced)
    requires RankedCache(g, t)
  {
    forall s :: 0 <= s < g.nsets ==> TopIsRecent(g, t.c.sets[s], t.st[s])
  }

  ghost function Step(g: Geometry, c: Cache, op: Op): (r: Cache)
    requires Coherent(g, c) && GoodOp(op)
    ensures Coherent(g, r)
  {
    match op
    case ReadOp(a, width) => StepReadCorrect(g, c, a, width); StepRead(g, c, a, width).0
    case WriteOp(a, data, width) => StepWriteCorrect(g, c, a, data, width); StepWrite(g, c, a, data, width)
    case InvOp(a) => StepInvCorrect(g, c, a); StepInv(g, c, a)
  }

  /** The access that led to c, with its time noted at the way it used. */
  ghost function TracedBy(g: Geometry, t: Traced, op: Op, c: Cache): Traced
    requires RankedCache(g, t) && Coherent(g, c) && GoodOp(op)
  {
    var s := SetOf(g, op.a);
    var w := FindWay(c.sets[s], TagOf(g, op.a));
    if op.InvOp? || w < 0 || w >= |t.st[s]| then t.(c := c)
    else Traced(c, t.st[s := Stamp(t.st[s], w, t.now + 1)], t.now + 1)
  }

  ghost function TracedStep(g: Geometry, t: Traced, op: Op): Traced
    requires RankedCache(g, t) && GoodOp(op)
  {
    TracedBy(g, t, op, Step(g, t.c, op))
  }

  /** r is the set an access with this tag leaves, up to line contents. */
  ghost predicate Accessed(g: Geometry, s: seq<Way>, r: seq<Way>, tag: nat, v: nat)
    requires v < |s| && g.ustates > 0
  {
    var h := FindWay(s, tag);
    var u := if h >= 0 then Touch(s, h, g.ustates) else Refill(s, v, tag, [], g.ustates);
    |r| == |s| && forall i :: 0 <= i < |s| ==> r[i].tag == u[i].tag && r[i].lru == u[i].lru
  }

  lemma {:induction false} AccessedRanked(g: Geometry, s: seq<Way>, r: seq<Way>, tag: nat, v: nat, st: seq<nat>, now: nat)
    requires v < |s| && g.ustates >= 2 && Accessed(g, s, r, tag, v) && Ranked(g, s, st, now)
    requires forall i, j :: 0 <= i < j < |r| && r[i].tag == tag ==> r[j].tag != tag
    ensures var w := FindWay(r, tag);
            w >= 0 && Ranked(g, r, Stamp(st, w, now + 1), now + 1) && TopIsRecent(g, r, Stamp(st, w, now + 1))
  {
    var h := FindWay(s, tag);
    var k := if h >= 0 then h else v;
    if h >= 0 {
      TouchRanked(g, s, st, now, h);
    } else {
      RefillRanked(g, s, st, now, v, tag, []);
    }
    assert r[k].tag == tag && r[k].lru == g.ustates - 1;
    FoundAt(r, k, tag);
  }

  lemma {:induction false} FoundAt(r: seq<Way>, k: nat, tag: nat)
    requires k < |r| && r[k].tag == tag && forall i, j :: 0 <= i < j < |r| && r[i].tag == tag ==> r[j].tag != tag
    ensures FindWay(r, tag) == k
  {
  }

  lemma {:induction false} StepAccessed(g: Geometry, c: Cache, op: Op)
    requires Coherent(g, c) && GoodOp(op) && !op.InvOp?
    ensures var s := SetOf(g, op.a);
            var v := if op.ReadOp? then ReadVictim(c.sets[s], g.ustates) else WriteVictim(c.sets[s], g.ustates);
            Accessed(g, c.sets[s], Step(g, c, op).sets[s], TagOf(g, op.a), v)
    ensures forall q :: 0 <= q < g.nsets && q != SetOf(g, op.a) ==> Step(g, c, op).sets[q] == c.sets[q]
  {
  }

  lemma {:induction false} InvRanked(g: Geometry, s: seq<Way>, st: seq<nat>, now: nat, w: nat)
    requires Ranked(g, s, st, now) && w < |s| && g.ustates > 0
    ensures Ranked(g, s[w := s[w].(tag := INVALID, lru := 0)], st, now)
  {
  }

  lemma {:induction false} InvStepRanked(g: Geometry, t: Traced, a: nat)
    requires RankedCache(g, t)
    ensures RankedCache(g, TracedStep(g, t, InvOp(a)))
  {
    var s := SetOf(g, a);
    var w := FindWay(t.c.sets[s], TagOf(g, a));
    if w >= 0 {
      InvRanked(g, t.c.sets[s], t.st[s], t.now, w);
    }
    var u := TracedStep(g, t, InvOp(a));
    forall q | 0 <= q < g.nsets
      ensures Ranked(g, u.c.sets[q], u.st[q], u.now)
    {
      assert q != s ==> u.c.sets[q] == t.c.sets[q];
    }
  }

  function Victim(g: Geometry, s: seq<Way>, op: Op): (v: nat)
    requires s != [] && g.ustates > 0 && forall i :: 0 <= i < |s| ==> s[i].lru < g.ustates
    ensures v < |s|
  {
    if op.ReadOp? then ReadVictim(s, g.ustates) else WriteVictim(s, g.ustates)
  }

  /** Set s of c is r0 after an access that used way w. */
  lemma {:induction false} TracedAccess(g: Geometry, c: Cache, s: nat, r0: seq<Way>, tag: nat, v: nat, st: seq<nat>, now: nat, w: int)
    requires Coherent(g, c) && s < g.nsets && g.ustates >= 2 && v < |r0|
    requires Accessed(g, r0, c.sets[s], tag, v) && Ranked(g, r0, st, now) && w == FindWay(c.sets[s], tag)
    ensures 0 <= w < |st| && Ranked(g, c.sets[s], Stamp(st, w, now + 1), now + 1)
    ensures TopIsRecent(g, c.sets[s], Stamp(st, w, now + 1))
  {
    TagOnce(g, c, s, tag);
    StampedAccess(g, r0, c.sets[s], tag, v, st, now, w);
  }

  lemma {:induction false} TagOnce(g: Geometry, c: Cache, s: nat, tag: nat)
    requires Coherent(g, c) && s < g.nsets
    ensures forall i, j :: 0 <= i < j < |c.sets[s]| && c.sets[s][i].tag == tag ==> c.sets[s][j].tag != tag
  {
    assert CoherentSet(g, c.mem, s, c.sets[s]);
  }

  lemma {:induction false} StampedAccess(g: Geometry, s: seq<Way>, r: seq<Way>, tag: nat, v: nat, st: seq<nat>, now: nat, w: int)
    requires v < |s| && g.ustates >= 2 && Accessed(g, s, r, tag, v) && Ranked(g, s, st, now)
    requires forall i, j :: 0 <= i < j < |r| && r[i].tag == tag ==> r[j].tag != tag
    requires w == FindWay(r, tag)
    ensures 0 <= w < |st| && Ranked(g, r, Stamp(st, w, now + 1), now + 1) && TopIsRecent(g, r, Stamp(st, w, now + 1))
  {
    AccessedRanked(g, s, r, tag, v, st, now);
  }

  lemma {:induction false} TracedStepRanked(g: Geometry, t: Traced, op: Op)
    requires RankedCache(g, t) && GoodOp(op)
    ensures RankedCache(g, TracedStep(g, t, op))
    ensures TopCache(g, t) && !op.InvOp? ==> TopCache(g, TracedStep(g, t, op))
  {
    if op.InvOp? {
      InvStepRanked(g, t, op.a);
    } else {
      var s, c := SetOf(g, op.a), Step(g, t.c, op);
      StepAccessed(g, t.c, op);
      TracedByRanked(g, t, op, c, Victim(g, t.c.sets[s], op), s, TagOf(g, op.a), TracedStep(g, t, op));
    }
  }

  lemma {:induction false} TracedByIs(g: Geometry, t: Traced, op: Op, c: Cache, s: nat, w: int)
    requires RankedCache(g, t) && GoodOp(op) && !op.InvOp? && Coherent(g, c) && s == SetOf(g, op.a)
    requires w == FindWay(c.sets[s], TagOf(g, op.a)) && 0 <= w < |t.st[s]|
    ensures TracedBy(g, t, op, c) == Traced(c, t.st[s := Stamp(t.st[s], w, t.now + 1)], t.now + 1)
  {
  }

  lemma {:induction false} TracedByRanked(g: Geometry, t: Traced, op: Op, c: Cache, v: nat, s: nat, tag: nat, u: Traced)
    requires RankedCache(g, t) && GoodOp(op) && !op.InvOp? && Coherent(g, c) && g.ustates >= 2
    requires s == SetOf(g, op.a) && tag == TagOf(g, op.a) && u == TracedBy(g, t, op, c)
    requires v < |t.c.sets[s]| && Accessed(g, t.c.sets[s], c.sets[s], tag, v)
    requires forall q :: 0 <= q < g.nsets && q != s ==> c.sets[q] == t.c.sets[q]
    ensures RankedCache(g, u) && (TopCache(g, t) ==> TopCache(g, u))
  {
    var w := FindWay(c.sets[s], tag);
    TracedAccess(g, c, s, t.c.sets[s], tag, v, t.st[s], t.now, w);
    TracedByIs(g, t, op, c, s, w);
    OtherSetsRanked(g, t, c, s, Stamp(t.st[s], w, t.now + 1), u);
  }

  lemma {:induction false} OtherSetsRanked(g: Geometry, t: Traced, c: Cache, s: nat, stamps: seq<nat>, u: Traced)
    requires RankedCache(g, t) && Coherent(g, c) && s < g.nsets && Ranked(g, c.sets[s], stamps, t.now + 1)
    requires TopIsRecent(g, c.sets[s], stamps) && u == Traced(c, t.st[s := stamps], t.now + 1)
    requires forall q :: 0 <= q < g.nsets && q != s ==> c.sets[q] == t.c.sets[q]
    ensures RankedCache(g, u) && (TopCache(g, t) ==> TopCache(g, u))
  {
    forall q | 0 <= q < g.nsets && q != s
      ensures Ranked(g, u.c.sets[q], u.st[q], u.now)
      ensures TopCache(g, t) ==> TopIsRecent(g, u.c.sets[q], u.st[q])
    {
      assert u.c.sets[q] == t.c.sets[q] && u.st[q] == t.st[q];
      LaterRanked(g, t.c.sets[q], t.st[q], t.now);
    }
  }

  lemma {:induction false} LaterRanked(g: Geometry, s: seq<Way>, st: seq<nat>, now: nat)
    requires Ranked(g, s, st, now)
    ensures Ranked(g, s, st, now + 1)
  {
  }

  ghost function TracedRun(g: Geometry, t: Traced, ops: seq<Op>): Traced
    requires RankedCache(g, t) && GoodOps(ops)
    decreases |ops|
  {
    if ops == [] then t
    else
      TracedStepRanked(g, t, ops[0]);
      TracedRun(g, TracedStep(g, t, ops[0]), ops[1..])
  }

  lemma {:induction false} RunRanked(g: Geometry, t: Traced, ops: seq<Op>)
    requires RankedCache(g, t) && GoodOps(ops)
    ensures RankedCache(g, TracedRun(g, t, ops))
    ensures TopCache(g, t) && (forall i :: 0 <= i < |ops| ==> !ops[i].InvOp?) ==> TopCache(g, TracedRun(g, t, ops))
    decreases |ops|
  {
    if ops != [] {
      TracedStepRanked(g, t, ops[0]);
      RunRanked(g, TracedStep(g, t, ops[0]), ops[1..]);
    }
  }

  /** No line is valid and nothing has been accessed. */
  ghost predicate Invalidated(g: Geometry, t: Traced)
  {
    && Shaped(g, t.c) && |t.st| == g.nsets && t.now == 0
    && (forall s :: 0 <= s < g.nsets ==> |t.st[s]| == g.nways)
    && forall s, i :: 0 <= s < g.nsets && 0 <= i < g.nways ==>
         t.c.sets[s][i].tag == INVALID && t.c.sets[s][i].lru == 0 && t.st[s][i] == 0
  }

  lemma {:induction false} InvalidatedIsRanked(g: Geometry, t: Traced)
    requires Invalidated(g, t)
    ensures RankedCache(g, t) && TopCache(g, t)
  {
  }

  /** In every state a run reaches from an invalidated cache the counters are ranked by
      recency, and without invalidations the line accessed last is safe. */
  lemma {:induction false} ReachableRanked(g: Geometry, t: Traced, ops: seq<Op>)
    requires Invalidated(g, t) && GoodOps(ops)
    ensures (InvalidatedIsRanked(g, t); RankedCache(g, TracedRun(g, t, ops)))
    ensures (forall i :: 0 <= i < |ops| ==> !ops[i].InvOp?) ==>
              (InvalidatedIsRanked(g, t); TopCache(g, TracedRun(g, t, ops)))
  {
    InvalidatedIsRanked(g, t);
    RunRanked(g, t, ops);
  }

  // --------------------------------- an invalidation exposes the line accessed last

  const TWO_WAYS := Geometry(1, 2, 16, 2)

  /** Tags, counters and times of the only set of two ways. */
  ghost predicate Looks(t: Traced, tags: (int, int), lrus: (nat, nat), st: (nat, nat))
  {
    && RankedCache(TWO_WAYS, t) && t.st[0] == [st.0, st.1]
    && t.c.sets[0][0].tag == tags.0 && t.c.sets[0][1].tag == tags.1
    && t.c.sets[0][0].lru == lrus.0 && t.c.sets[0][1].lru == lrus.1
  }

  function Pick<T>(p: (T, T), w: nat, x: T): (T, T) { if w == 0 then (x, p.1) else (p.0, x) }

  function AgedBy(lrus: (nat, nat)): (nat, nat)
  {
    (if lrus.0 > 0 then lrus.0 - 1 else 0, if lrus.1 > 0 then lrus.1 - 1 else 0)
  }

  lemma {:induction false} MissLooks(t: Traced, op: Op, tags: (int, int), lrus: (nat, nat), st: (nat, nat), tag: nat, v: nat)
    requires Looks(t, tags, lrus, st) && GoodOp(op) && !op.InvOp? && tag == TagOf(TWO_WAYS, op.a)
    requires tags.0 != tag && tags.1 != tag && v < 2
    requires v == if op.ReadOp? then ReadVictim(t.c.sets[0], 2) else WriteVictim(t.c.sets[0], 2)
    ensures Looks(TracedStep(TWO_WAYS, t, op), Pick(tags, v, tag as int), Pick(AgedBy(lrus), v, 1), Pick(st, v, t.now + 1))
    ensures TracedStep(TWO_WAYS, t, op).now == t.now + 1
  {
    var g, c := TWO_WAYS, Step(TWO_WAYS, t.c, op);
    assert SetOf(g, op.a) == 0 && |t.c.sets[0]| == 2;
    assert FindWay(t.c.sets[0], tag) < 0;
    StepAccessed(g, t.c, op);
    MissAccessed(t.c.sets[0], c.sets[0], tag, v);
    TracedByIs(g, t, op, c, SetOf(g, op.a), v);
    TracedStepRanked(g, t, op);
  }

  lemma {:induction false} MissAccessed(s: seq<Way>, r: seq<Way>, tag: nat, v: nat)
    requires |s| == 2 && v < 2 && FindWay(s, tag) < 0 && Accessed(TWO_WAYS, s, r, tag, v)
    ensures |r| == 2 && FindWay(r, tag) == v
    ensures (r[0].tag, r[1].tag) == Pick((s[0].tag, s[1].tag), v, tag as int)
    ensures (r[0].lru, r[1].lru) == Pick(AgedBy((s[0].lru, s[1].lru)), v, 1)
  {
    assert r[v].tag == tag && r[1 - v].tag != tag;
  }

  lemma {:induction false} InvLooks(t: Traced, a: nat, tags: (int, int), lrus: (nat, nat), st: (nat, nat), w: nat)
    requires Looks(t, tags, lrus, st) && w < 2 && TagOf(TWO_WAYS, a) == (if w == 0 then tags.0 else tags.1)
    requires tags.0 != tags.1
    ensures Looks(TracedStep(TWO_WAYS, t, InvOp(a)), Pick(tags, w, INVALID), Pick(lrus, w, 0), st)
  {
    assert SetOf(TWO_WAYS, a) == 0 && |t.c.sets[0]| == 2;
    assert FindWay(t.c.sets[0], TagOf(TWO_WAYS, a)) == w;
    InvStepRanked(TWO_WAYS, t, a);
  }

  ghost predicate Link(g: Geometry, t: Traced, op: Op, u: Traced)
  {
    RankedCache(g, t) && GoodOp(op) && u == TracedStep(g, t, op)
  }

  /** The states ts of a run of ops. */
  ghost predicate Chain(g: Geometry, ts: seq<Traced>, ops: seq<Op>)
  {
    |ts| == |ops| + 1 && forall i :: 0 <= i < |ops| ==> Link(g, ts[i], ops[i], ts[i + 1])
  }

  lemma {:induction false} ChainRuns(g: Geometry, ts: seq<Traced>, ops: seq<Op>)
    requires Chain(g, ts, ops) && RankedCache(g, ts[0]) && GoodOps(ops)
    ensures TracedRun(g, ts[0], ops) == ts[|ops|]
    decreases |ops|
  {
    if ops != [] {
      assert Link(g, ts[0], ops[0], ts[0 + 1]);
      TracedStepRanked(g, ts[0], ops[0]);
      ChainRuns(g, ts[1..], ops[1..]);
    }
  }

  lemma {:induction false} ChainGrows(g: Geometry, ts: seq<Traced>, ops: seq<Op>, op: Op, u: Traced)
    requires Chain(g, ts, ops) && Link(g, ts[|ops|], op, u)
    ensures Chain(g, ts + [u], ops + [op])
  {
  }

  /** Way m holds the line accessed last, and both counters are zero. */
  lemma {:induction false} Exposed(u: Traced, tags: (int, int), st: (nat, nat), m: nat)
    requires Looks(u, tags, (0, 0), st) && m < 2
    requires (if m == 0 then tags.0 else tags.1) == 0 && (if m == 0 then tags.1 else tags.0) == INVALID
    ensures MostRecent(u.c.sets[0], u.st[0], m) && u.c.sets[0][m].tag == TagOf(TWO_WAYS, 0)
    ensures m == 0 ==> ReadVictim(u.c.sets[0], 2) == 0
    ensures m == 1 ==> WriteVictim(u.c.sets[0], 2) == 1
  {
    assert |u.c.sets[0]| == 2;
    ReadVictimExact(TWO_WAYS, u.c.sets[0], u.st[0], u.now, m);
    WriteVictimExact(TWO_WAYS, u.c.sets[0], u.st[0], u.now, m);
  }

  /** From an invalidated cache of two ways and two states, `read 0; read 16; invalidate 16`
      leaves address 0 as the only valid line, in way 0, and the next read miss evicts it. */
  lemma {:induction false} ReadExposed(t: Traced)
    requires Invalidated(TWO_WAYS, t) && RankedCache(TWO_WAYS, t)
    ensures var u := TracedRun(TWO_WAYS, t, [ReadOp(0, 4), ReadOp(16, 4), InvOp(16)]);
            && RankedCache(TWO_WAYS, u) && MostRecent(u.c.sets[0], u.st[0], 0)
            && u.c.sets[0][0].tag == TagOf(TWO_WAYS, 0) && ReadVictim(u.c.sets[0], 2) == 0
  {
    var u := ReadThenInvalidate(t, ReadOp(0, 4), 0);
    Exposed(u, (0, INVALID), (1, 2), 0);
  }

  /** `write 0; read 16; invalidate 16` leaves it in way 1, since a write miss takes the
      last candidate, and the next write miss evicts it. */
  lemma {:induction false} WriteExposed(t: Traced, data: Word)
    requires Invalidated(TWO_WAYS, t) && RankedCache(TWO_WAYS, t)
    ensures var u := TracedRun(TWO_WAYS, t, [WriteOp(0, data, 4), ReadOp(16, 4), InvOp(16)]);
            && RankedCache(TWO_WAYS, u) && MostRecent(u.c.sets[0], u.st[0], 1)
            && u.c.sets[0][1].tag == TagOf(TWO_WAYS, 0) && WriteVictim(u.c.sets[0], 2) == 1
  {
    var u := ReadThenInvalidate(t, WriteOp(0, data, 4), 1);
    Exposed(u, (INVALID, 0), (2, 1), 1);
  }

  /** An access to address 0, which misses into way m; then `read 16; invalidate 16`. */
  lemma {:induction false} ReadThenInvalidate(t: Traced, op: Op, m: nat) returns (u: Traced)
    requires Invalidated(TWO_WAYS, t) && RankedCache(TWO_WAYS, t)
    requires !op.InvOp? && op.a == 0 && op.width == 4 && m == if op.ReadOp? then 0 else 1
    ensures u == TracedRun(TWO_WAYS, t, [op, ReadOp(16, 4), InvOp(16)])
    ensures Looks(u, Pick((INVALID, INVALID), m, 0), (0, 0), Pick((2, 2), m, 1))
  {
    var ops := [op] + [ReadOp(16, 4)] + [InvOp(16)];
    var t1 := AfterFirst(t, op, m);
    var t2 := AfterSecond(t1, op, m);
    var ts := AfterThird(t2, op, m);
    assert ops == [op, ReadOp(16, 4), InvOp(16)];
    ChainRuns(TWO_WAYS, ts, ops);
    u := ts[3];
  }

  lemma {:induction false} AfterFirst(t: Traced, op: Op, m: nat) returns (ts: seq<Traced>)
    requires Invalidated(TWO_WAYS, t) && RankedCache(TWO_WAYS, t)
    requires !op.InvOp? && op.a == 0 && op.width == 4 && m == if op.ReadOp? then 0 else 1
    ensures Chain(TWO_WAYS, ts, [op]) && ts[0] == t && ts[1].now == 1
    ensures Looks(ts[1], Pick((INVALID, INVALID), m, 0), Pick((0, 0), m, 1), Pick((0, 0), m, 1))
  {
    assert Looks(t, (INVALID, INVALID), (0, 0), (0, 0));
    MissLooks(t, op, (INVALID, INVALID), (0, 0), (0, 0), 0, m);
    ts := [t, TracedStep(TWO_WAYS, t, op)];
  }

  lemma {:induction false} AfterSecond(before: seq<Traced>, op: Op, m: nat) returns (ts: seq<Traced>)
    requires Chain(TWO_WAYS, before, [op]) && m < 2 && before[1].now == 1
    requires Looks(before[1], Pick((INVALID, INVALID), m, 0), Pick((0, 0), m, 1), Pick((0, 0), m, 1))
    ensures Chain(TWO_WAYS, ts, [op] + [ReadOp(16, 4)]) && ts[0] == before[0]
    ensures Looks(ts[2], Pick((1, 1), m, 0), Pick((1, 1), m, 0), Pick((2, 2), m, 1))
  {
    var t, read := before[1], ReadOp(16, 4);
    assert |t.c.sets[0]| == 2;
    MissLooks(t, read, Pick((INVALID, INVALID), m, 0), Pick((0, 0), m, 1), Pick((0, 0), m, 1), 1, 1 - m);
    ChainGrows(TWO_WAYS, before, [op], read, TracedStep(TWO_WAYS, t, read));
    ts := before + [TracedStep(TWO_WAYS, t, read)];
  }

  lemma {:induction false} AfterThird(before: seq<Traced>, op: Op, m: nat) returns (ts: seq<Traced>)
    requires Chain(TWO_WAYS, before, [op] + [ReadOp(16, 4)]) && m < 2
    requires Looks(before[2], Pick((1, 1), m, 0), Pick((1, 1), m, 0), Pick((2, 2), m, 1))
    ensures Chain(TWO_WAYS, ts, [op] + [ReadOp(16, 4)] + [InvOp(16)]) && ts[0] == before[0]
    ensures Looks(ts[3], Pick((INVALID, INVALID), m, 0), (0, 0), Pick((2, 2), m, 1))
  {
    var t, inv := before[2], InvOp(16);
    InvLooks(t, 16, Pick((1, 1), m, 0), Pick((1, 1), m, 0), Pick((2, 2), m, 1), 1 - m);
    ChainGrows(TWO_WAYS, before, [op] + [ReadOp(16, 4)], inv, TracedStep(TWO_WAYS, t, inv));
    ts := before + [TracedStep(TWO_WAYS, t, inv)];
  }

  // ------------------------------------------------------------ the simulator

  lemma {:induction false} ReadVictimStep(s: seq<Way>, i: nat, ustates: nat)
    requires i < |s| && ustates > 0 && forall k :: 0 <= k < |s| ==> s[k].lru < ustates
    ensures ReadVictim(s[..i + 1], ustates) ==
            if i == 0 then 0
            else var v := ReadVictim(s[..i], ustates); if s[i].lru < s[v].lru then i else v
    ensures s[i].lru < ustates
  {
    assert s[..i + 1][..i] == s[..i];
  }

  lemma {:induction false} WriteVictimStep(s: seq<Way>, i: nat, ustates: nat)
    requires i < |s| && ustates > 0
    ensures WriteVictim(s[..i + 1], ustates) ==
            if i == 0 || s[i].lru < ustates - 1 then i else WriteVictim(s[..i], ustates)
  {
    assert s[..i + 1][..i] == s[..i];
  }

  /** The first n words, in refill order, of the line at base. */
  ghost predicate Filled(m: Memory, bs: nat, base: nat, w: nat, n: nat, line: seq<Word>)
    requires bs == 16 || bs == 32
  {
    |line| == bs / 4 &&
    forall k :: 0 <= k < n ==> line[WrapWord(bs, w, k)] == Word32(m, base + 4 * WrapWord(bs, w, k))
  }

  lemma {:induction false} FillNext(m: Memory, bs: nat, base: nat, w: nat, n: nat, line: seq<Word>, line': seq<Word>)
    requires (bs == 16 || bs == 32) && n < bs / 4 && Filled(m, bs, base, w, n, line)
    requires var k := WrapWord(bs, w, n); line' == line[k := Word32(m, base + 4 * k)]
    ensures Filled(m, bs, base, w, n + 1, line')
  {
    WrapInjective(bs, w, n);
  }

  lemma {:induction false} WrapCovers(g: Geometry, m: Memory, a: nat, line: seq<Word>)
    requires Usable(g) && Filled(m, g.blocksize, a - a % g.blocksize, WordOf(g, a), g.blocksize / 4, line)
    ensures line == Block(g, m, a / g.blocksize)
  {
    var base := a - a % g.blocksize;
    assert base == a / g.blocksize * g.blocksize;
    WrapFills(m, g.blocksize, base, WordOf(g, a), line);
    BlockFromWords(g, m, base, a / g.blocksize, line);
  }

  lemma {:induction false} BlockFromWords(g: Geometry, m: Memory, base: nat, b: nat, line: seq<Word>)
    requires Usable(g) && |line| == g.blocksize / 4 && base == b * g.blocksize
    requires forall k :: 0 <= k < |line| ==> line[k] == Word32(m, base + 4 * k)
    ensures line == Block(g, m, b)
  {
    forall k: nat | k < |line|
      ensures line[k] == Block(g, m, b)[k]
    {
      BlockWord(g, m, b, base, k);
    }
  }

  lemma {:induction false} WrapFills(m: Memory, bs: nat, base: nat, w: nat, line: seq<Word>)
    requires (bs == 16 || bs == 32) && |line| == bs / 4 && w < bs / 4
    requires forall n :: 0 <= n < bs / 4 ==> line[WrapWord(bs, w, n)] == Word32(m, base + 4 * WrapWord(bs, w, n))
    ensures forall k :: 0 <= k < |line| ==> line[k] == Word32(m, base + 4 * k)
  {
    forall k: nat | k < |line|
      ensures line[k] == Word32(m, base + 4 * k)
    {
      var n := if k >= w then k - w else k - w + bs / 4;
      WrapReaches(bs, w, k, n);
    }
  }

  /** d is the state a read leaves. */
  lemma {:induction false} StepReadIs(g: Geometry, c: Cache, a: nat, width: int, r: seq<Way>, w: nat)
    requires Coherent(g, c) && Aligned(a, width) && w < |r| && w == FindWay(r, TagOf(g, a)) && WordOf(g, a) < |r[w].line|
    requires r == AccessSet(g, c, a, ReadVictim(c.sets[SetOf(g, a)], g.ustates))
    ensures StepRead(g, c, a, width) ==
            (c.(sets := c.sets[SetOf(g, a) := r]), Extract(r[w].line[WordOf(g, a)], a % 4, width))
  {
  }

  lemma {:induction false} StepWriteIs(g: Geometry, c: Cache, a: nat, data: Word, width: int, n: Cache, r: seq<Way>, w: int)
    requires Coherent(g, c) && Aligned(a, width) && n == c.(mem := Write(c.mem, a, width, data))
    requires r == AccessSet(g, n, a, WriteVictim(c.sets[SetOf(g, a)], g.ustates))
    requires w == FindWay(c.sets[SetOf(g, a)], TagOf(g, a))
    ensures w < 0 ==> StepWrite(g, c, a, data, width) == n.(sets := c.sets[SetOf(g, a) := r])
    ensures w >= 0 ==>
              var k, line := WordOf(g, a), c.sets[SetOf(g, a)][w].line;
              k < |line| && r[w].line == line &&
              StepWrite(g, c, a, data, width) ==
              n.(sets := c.sets[SetOf(g, a) := r[w := r[w].(line := line[k := Insert(line[k], data, a % 4, width)])]])
  {
    assert CoherentSet(g, c.mem, SetOf(g, a), c.sets[SetOf(g, a)]);
    if w >= 0 {
      assert WayCoherent(g, c.mem, SetOf(g, a), c.sets[SetOf(g, a)][w]);
    }
  }

  class DataCache {
    const g: Geometry
    const dc: array2<Way>
    var mem: Memory

    constructor (geometry: Geometry, memory: Memory)
      requires Usable(geometry)
      ensures Shape() && g == geometry && mem == memory && fresh(dc)
      ensures Coherent(g, Contents())
    {
      g, mem := geometry, memory;
      var empty := Way(seq(geometry.blocksize / 4, _ => 0), INVALID, 0);
      dc := new Way[geometry.nsets, geometry.nways]((_, _) => empty);
      new;
      InvalidatedIsCoherent(g, Contents());
    }

    ghost predicate Shape()
      reads this, dc
    {
      && Usable(g) && dc.Length0 == g.nsets && dc.Length1 == g.nways
      && forall s, i :: 0 <= s < dc.Length0 && 0 <= i < dc.Length1 ==> |dc[s, i].line| == g.blocksize / 4
    }

    ghost function Row(s: nat): (r: seq<Way>)
      requires s < dc.Length0
      reads dc
      ensures |r| == dc.Length1 && forall i :: 0 <= i < |r| ==> r[i] == dc[s, i]
    {
      seq(dc.Length1, i requires 0 <= i < dc.Length1 reads dc => dc[s, i])
    }

    ghost function Contents(): (c: Cache)
      reads this, dc
      ensures |c.sets| == dc.Length0 && c.mem == mem
      ensures forall s :: 0 <= s < dc.Length0 ==> c.sets[s] == Row(s)
    {
      Cache(seq(dc.Length0, s requires 0 <= s < dc.Length0 reads dc => Row(s)), mem)
    }

    /** Scan all ways for a matching tag. */
    method Scan(q: nat, tag: int) returns (way: int)
      requires q < dc.Length0
      ensures way == FindWay(Row(q), tag)
    {
      way := -1;
      for i := 0 to dc.Length1
        invariant way == FindWay(Row(q)[..i], tag)
      {
        if dc[q, i].tag == tag {
          way := i;
        }
        assert Row(q)[..i + 1][..i] == Row(q)[..i];
      }
      assert Row(q)[..dc.Length1] == Row(q);
    }

    method TouchWay(q: nat, way: nat)
      requires Shape() && q < g.nsets && way < g.nways
      modifies dc
      ensures Shape() && Row(q) == Touch(old(Row(q)), way, g.ustates)
      ensures forall s, i :: 0 <= s < g.nsets && s != q && 0 <= i < g.nways ==> dc[s, i] == old(dc[s, i])
    {
      for i := 0 to g.nways
        invariant forall s, k :: 0 <= s < g.nsets && 0 <= k < g.nways && (s != q || k >= i) ==> dc[s, k] == old(dc[s, k])
        invariant dc[q, way] == old(dc[q, way])
        invariant forall k :: 0 <= k < i ==>
                    dc[q, k] == (if old(dc[q, k]).lru > old(dc[q, way]).lru then old(dc[q, k]).(lru := old(dc[q, k]).lru - 1)
                                 else old(dc[q, k]))
      {
        if dc[q, i].lru > dc[q, way].lru {
          dc[q, i] := dc[q, i].(lru := dc[q, i].lru - 1);
        }
      }
      dc[q, way] := dc[q, way].(lru := g.ustates - 1);
    }

    method SelectReadVictim(q: nat) returns (minway: nat)
      requires Shape() && q < g.nsets && Counted(g, Row(q))
      ensures minway == ReadVictim(Row(q), g.ustates)
    {
      var minlru := g.ustates - 1;
      minway := 0;
      for i := 0 to g.nways
        invariant minway < g.nways && (i == 0 ==> minway == 0)
        invariant minlru == (if i == 0 then g.ustates - 1 else dc[q, minway].lru)
        invariant i > 0 ==> minway == ReadVictim(Row(q)[..i], g.ustates)
      {
        ReadVictimStep(Row(q), i, g.ustates);
        if dc[q, i].lru < minlru {
          minway := i;
          minlru := dc[q, i].lru;
        }
      }
      assert Row(q)[..g.nways] == Row(q);
    }

    method SelectWriteVictim(q: nat) returns (minway: nat)
      requires Shape() && q < g.nsets
      ensures minway == WriteVictim(Row(q), g.ustates)
    {
      var minlru := g.ustates - 1;
      minway := 0;
      for i := 0 to g.nways
        invariant minway < g.nways && (i == 0 ==> minway == 0)
        invariant i > 0 ==> minway == WriteVictim(Row(q)[..i], g.ustates)
      {
        WriteVictimStep(Row(q), i, g.ustates);
        if dc[q, i].lru < minlru {
          minway := i;
        }
      }
      assert Row(q)[..g.nways] == Row(q);
    }

    /** Refill way v of set q with the block of address a and age the others. */
    method RefillWay(q: nat, v: nat, a: nat)
      requires Shape() && q == SetOf(g, a) && v < g.nways && a < WORD
      modifies dc
      ensures Shape() && Row(q) == Refill(old(Row(q)), v, TagOf(g, a), Block(g, mem, a / g.blocksize), g.ustates)
      ensures forall s, i :: 0 <= s < g.nsets && s != q && 0 <= i < g.nways ==> dc[s, i] == old(dc[s, i])
    {
      LoadLine(q, v, a);
      dc[q, v] := dc[q, v].(tag := TagOf(g, a));
      for i := 0 to g.nways
        invariant forall s, k :: 0 <= s < g.nsets && 0 <= k < g.nways && (s != q || (k >= i && k != v)) ==>
                    dc[s, k] == old(dc[s, k])
        invariant dc[q, v].tag == TagOf(g, a) && dc[q, v].line == Block(g, mem, a / g.blocksize)
        invariant forall k :: 0 <= k < i && k != v ==>
                    dc[q, k] == (if old(dc[q, k]).lru > 0 then old(dc[q, k]).(lru := old(dc[q, k]).lru - 1)
                                 else old(dc[q, k]))
      {
        if dc[q, i].lru > 0 {
          dc[q, i] := dc[q, i].(lru := dc[q, i].lru - 1);
        }
      }
      dc[q, v] := dc[q, v].(lru := g.ustates - 1);
    }

    /** The refill loop, which starts at the word of a and wraps. */
    method LoadLine(q: nat, v: nat, a: nat)
      requires Shape() && q < g.nsets && v < g.nways && a < WORD
      modifies dc
      ensures Shape() && dc[q, v] == old(dc[q, v]).(line := Block(g, mem, a / g.blocksize))
      ensures forall s, i :: 0 <= s < g.nsets && 0 <= i < g.nways && (s != q || i != v) ==> dc[s, i] == old(dc[s, i])
    {
      var w := WordOf(g, a);
      for n := 0 to g.blocksize / 4
        invariant Shape() && dc[q, v] == old(dc[q, v]).(line := dc[q, v].line)
        invariant forall s, i :: 0 <= s < g.nsets && 0 <= i < g.nways && (s != q || i != v) ==> dc[s, i] == old(dc[s, i])
        invariant Filled(mem, g.blocksize, a - a % g.blocksize, w, n, dc[q, v].line)
      {
        ghost var line := dc[q, v].line;
        LoadWord(q, v, a, 4 * n);
        FillNext(mem, g.blocksize, a - a % g.blocksize, w, n, line, dc[q, v].line);
      }
      WrapCovers(g, mem, a, dc[q, v].line);
    }

    method LoadWord(q: nat, v: nat, a: nat, i: nat)
      requires Shape() && q < g.nsets && v < g.nways && i % 4 == 0 && i < g.blocksize
      modifies dc
      ensures Shape()
      ensures var k := WrapWord(g.blocksize, WordOf(g, a), i / 4);
              dc[q, v] == old(dc[q, v]).(line := old(dc[q, v]).line[k := Word32(mem, a - a % g.blocksize + 4 * k)])
      ensures forall s, i :: 0 <= s < g.nsets && 0 <= i < g.nways && (s != q || i != v) ==> dc[s, i] == old(dc[s, i])
    {
      WrapIndex(g.blocksize, a, i / 4);
      var tmp := Word32(mem, (a - a % g.blocksize) + (a - a % 4 + i) % g.blocksize);
      var k := ((a + i) % g.blocksize) / 4;
      assert i == 4 * (i / 4);
      assert k == WrapWord(g.blocksize, WordOf(g, a), i / 4) && tmp == Word32(mem, a - a % g.blocksize + 4 * k);
      dc[q, v] := dc[q, v].(line := dc[q, v].line[k := tmp]);
    }

    /** Touch the hit way or refill the victim. */
    method AccessLine(a: nat, way: int, minway: nat)
      requires Shape() && a < WORD && minway < g.nways
      requires way == FindWay(Row(SetOf(g, a)), TagOf(g, a))
      modifies dc
      ensures Shape()
      ensures Contents() == old(Contents()).(sets := old(Contents()).sets[SetOf(g, a) := AccessSet(g, old(Contents()), a, minway)])
    {
      var q := SetOf(g, a);
      if way >= 0 {
        TouchWay(q, way);
      } else {
        RefillWay(q, minway, a);
      }
      forall s | 0 <= s < g.nsets && s != q
        ensures Row(s) == old(Row(s))
      {
      }
      assert Row(q) == AccessSet(g, old(Contents()), a, minway);
      assert Contents().sets == old(Contents()).sets[q := AccessSet(g, old(Contents()), a, minway)];
    }

    /** `dc_simulate_read` of mapped memory, cache enabled and not inhibited. */
    method Read(a: nat, width: int) returns (tmp: Word)
      requires Shape() && Coherent(g, Contents()) && Aligned(a, width)
      modifies dc
      ensures Shape() && Coherent(g, Contents())
      ensures (Contents(), tmp) == StepRead(g, old(Contents()), a, width)
      ensures tmp == FlatRead(mem, a, width)
    {
      StepReadCorrect(g, Contents(), a, width);
      var q, tag := SetOf(g, a), TagOf(g, a);
      var way := Scan(q, tag);
      var minway := SelectReadVictim(q);
      assert Contents().sets[q] == Row(q);
      ghost var c := Contents();
      ghost var r := AccessSet(g, c, a, minway);
      AccessFound(g, c, a, minway);
      AccessCoherent(g, c, a, minway);
      AccessLine(a, way, minway);
      if way < 0 {
        way := minway;
      }
      assert dc[q, way] == Row(q)[way] == r[way] && WayCoherent(g, c.mem, q, r[way]);
      StepReadIs(g, c, a, width, r, way);
      tmp := Extract(dc[q, way].line[WordOf(g, a)], a % 4, width);
    }

    /** `dc_simulate_write` under the same conditions. */
    method Update(a: nat, data: Word, width: int)
      requires Shape() && Coherent(g, Contents()) && Aligned(a, width)
      modifies this`mem, dc
      ensures Shape() && Contents() == StepWrite(g, old(Contents()), a, data, width)
      ensures Coherent(g, Contents())
      ensures mem == Write(old(mem), a, width, data)
    {
      StepWriteCorrect(g, Contents(), a, data, width);
      ghost var c := Contents();
      mem := Write(mem, a, width, data);
      assert Contents() == c.(mem := mem);
      var q, tag := SetOf(g, a), TagOf(g, a);
      assert c.sets[q] == Row(q);
      var way := Scan(q, tag);
      var minway := SelectWriteVictim(q);
      ghost var n := Contents();
      StepWriteIs(g, c, a, data, width, n, AccessSet(g, n, a, minway), way);
      AccessLine(a, way, minway);
      if way >= 0 {
        var k := WordOf(g, a);
        assert dc[q, way] == Row(q)[way];
        StoreWord(q, way, k, Insert(dc[q, way].line[k], data, a % 4, width));
      }
    }

    method StoreWord(q: nat, way: nat, k: nat, tmp: Word)
      requires Shape() && q < g.nsets && way < g.nways && k < g.blocksize / 4
      modifies dc
      ensures Shape() && mem == old(mem)
      ensures var r := old(Row(q));
              Contents() == old(Contents()).(sets := old(Contents()).sets[q := r[way := r[way].(line := r[way].line[k := tmp])]])
    {
      ghost var r := Row(q);
      dc[q, way] := dc[q, way].(line := dc[q, way].line[k := tmp]);
      forall s | 0 <= s < g.nsets && s != q
        ensures Row(s) == old(Row(s))
      {
      }
      assert Row(q) == r[way := r[way].(line := r[way].line[k := tmp])];
      assert Contents().sets == old(Contents()).sets[q := Row(q)];
    }

    /** `dc_inv` with the cache enabled. */
    method Invalidate(a: nat)
      requires Shape() && Coherent(g, Contents())
      modifies dc
      ensures Shape() && Coherent(g, Contents())
      ensures Contents() == StepInv(g, old(Contents()), a)
    {
      StepInvCorrect(g, Contents(), a);
      var q := SetOf(g, a);
      var way := Scan(q, TagOf(g, a));
      assert Contents().sets[q] == Row(q);
      if way >= 0 {
        ghost var r := Row(q);
        dc[q, way] := dc[q, way].(tag := INVALID, lru := 0);
        forall s | 0 <= s < g.nsets && s != q
          ensures Row(s) == old(Row(s))
        {
        }
        assert Row(q) == r[way := r[way].(tag := INVALID, lru := 0)];
        assert Contents().sets == old(Contents()).sets[q := Row(q)];
      }
    }
  }
}
