/** The chained hash table of the memory profiler, filled from records and dumped over an
    address range that may end at the top of the address space. */
module MemoryProfiler {
  import opened Words
  import B = Bits
  import opened AccessCounts

  const HASH_SIZE: nat := 0x1_0000

  /** `HASH_FUNC`. */
  function Bucket(a: Word): nat { a % HASH_SIZE }

  class Node {
    var next: Node?
    const addr: Word
    var cnt: seq<nat>

    constructor (addr: Word, next: Node?)
      ensures this.addr == addr && this.next == next && cnt == [0, 0, 0]
    {
      this.addr := addr;
      this.next := next;
      cnt := [0, 0, 0];
    }
  }

  class HashTable {
    const hash: array<Node?>
    /** The nodes of each bucket in the order they are linked. */
    ghost var chains: seq<seq<Node>>
    ghost var repr: set<object>

    /** Chain i is what its bucket links, all its addresses belong there and differ. */
    ghost predicate ChainOk(i: nat)
      requires i < |chains|
      reads this, repr
    {
      var c := chains[i];
      && (forall k {:trigger c[k]} :: 0 <= k < |c| ==> c[k] in repr && |c[k].cnt| == 3 && Bucket(c[k].addr) == i)
      && (forall k, l {:trigger c[k], c[l]} :: 0 <= k < |c| && l == k + 1 < |c| ==> c[k].next == c[l])
      && (forall k {:trigger c[k]} :: 0 <= k == |c| - 1 ==> c[k].next == null)
      && (forall k, l {:trigger c[k], c[l]} :: 0 <= k < l < |c| ==> c[k].addr != c[l].addr)
    }

    ghost predicate Valid()
      reads this, hash, repr
    {
      && hash.Length == HASH_SIZE == |chains| && this !in repr && hash !in repr
      && (forall i :: 0 <= i < HASH_SIZE ==> hash[i] == if chains[i] == [] then null else chains[i][0])
      && (forall i: nat :: i < HASH_SIZE ==> ChainOk(i))
    }

    /** The number of the node for a in its chain, or the chain's length. */
    ghost function Find(c: seq<Node>, a: Word, k: nat): (r: nat)
      requires k <= |c|
      ensures k <= r <= |c| && (r < |c| ==> c[r].addr == a) && forall j :: k <= j < r ==> c[j].addr != a
      decreases |c| - k
    {
      if k == |c| || c[k].addr == a then k else Find(c, a, k + 1)
    }

    /** The count for a key and index. */
    ghost function Count(a: Word, i: nat): nat
      requires Valid() && i < 3
      reads this, hash, repr
    {
      var c := chains[Bucket(a)];
      var k := Find(c, a, 0);
      assert ChainOk(Bucket(a));
      if k < |c| then c[k].cnt[i] else 0
    }

    constructor ()
      ensures Valid() && fresh(hash) && fresh(repr)
      ensures forall a: Word, i: nat :: i < 3 ==> Count(a, i) == 0
    {
      hash := new Node?[HASH_SIZE](_ => null);
      chains := seq(HASH_SIZE, _ => []);
      repr := {};
    }

    method Lookup(a: Word) returns (h: Node?)
      requires Valid()
      ensures var c := chains[Bucket(a)];
              var k := Find(c, a, 0);
              if k < |c| then h == c[k] && h in repr && |c[k].cnt| == 3 else h == null
    {
      ghost var c := chains[Bucket(a)];
      assert ChainOk(Bucket(a));
      h := hash[Bucket(a)];
      ghost var k: nat := 0;
      while h != null && h.addr != a
        invariant k <= |c| && h == (if k < |c| then c[k] else null) && Find(c, a, k) == Find(c, a, 0)
        decreases |c| - k
      {
        assert c[k].next == if k + 1 < |c| then c[k + 1] else null;
        h := h.next;
        k := k + 1;
      }
    }

    /** `hash_get`. */
    method Get(a: Word, i: nat) returns (n: nat)
      requires Valid() && i < 3
      ensures n == Count(a, i)
    {
      var h := Lookup(a);
      n := if h == null then 0 else h.cnt[i];
    }

    /** A new node for a at the head of its chain. */
    method Link(a: Word) returns (h: Node)
      requires Valid() && Find(chains[Bucket(a)], a, 0) == |chains[Bucket(a)]|
      modifies this, hash
      ensures Valid() && fresh(h) && repr == old(repr) + {h} && h.addr == a && h.cnt == [0, 0, 0]
      ensures chains == old(chains)[Bucket(a) := [h] + old(chains)[Bucket(a)]]
    {
      var b := Bucket(a);
      ghost var c := chains[b];
      assert ChainOk(b);
      h := new Node(a, hash[b]);
      hash[b] := h;
      chains := chains[b := [h] + c];
      repr := repr + {h};
      forall i: nat | i < HASH_SIZE
        ensures ChainOk(i)
      {
        assert old(ChainOk(i));
      }
    }

    method Prepend(a: Word) returns (h: Node)
      requires Valid() && Find(chains[Bucket(a)], a, 0) == |chains[Bucket(a)]|
      modifies this, hash
      ensures Valid() && fresh(h) && repr == old(repr) + {h}
      ensures h.addr == a && |h.cnt| == 3 && chains[Bucket(a)] != [] && chains[Bucket(a)][0] == h
      ensures forall b: Word, j: nat :: j < 3 ==> Count(b, j) == old(Count(b, j))
    {
      ghost var c := chains[Bucket(a)];
      h := Link(a);
      forall x: Word, j: nat | j < 3
        ensures Count(x, j) == old(Count(x, j))
      {
        assert old(ChainOk(Bucket(x)));
        if Bucket(x) == Bucket(a) {
          FindBehind(h, c, x, 0);
        }
      }
    }

    /** Searching behind a new head. */
    lemma {:induction false} FindBehind(h: Node, c: seq<Node>, x: Word, k: nat)
      requires k <= |c|
      ensures Find([h] + c, x, k + 1) == Find(c, x, k) + 1
      decreases |c| - k
    {
      if k < |c| && c[k].addr != x {
        FindBehind(h, c, x, k + 1);
      }
    }

    /** `h->cnt[index]++`. */
    method Bump(h: Node, ghost a: Word, i: nat)
      requires Valid() && i < 3 && h in repr && |h.cnt| == 3
      requires var c := chains[Bucket(a)]; Find(c, a, 0) < |c| && c[Find(c, a, 0)] == h
      modifies h
      ensures Valid()
      ensures forall b: Word, j: nat :: j < 3 ==> Count(b, j) == old(Count(b, j)) + (if b == a && j == i then 1 else 0)
    {
      h.cnt := h.cnt[i := h.cnt[i] + 1];
      forall x: nat | x < HASH_SIZE
        ensures ChainOk(x)
      {
        assert old(ChainOk(x));
      }
      forall b: Word, j: nat | j < 3
        ensures Count(b, j) == old(Count(b, j)) + (if b == a && j == i then 1 else 0)
      {
        assert old(ChainOk(Bucket(b)));
      }
    }

    /** `hash_add`. */
    method Add(a: Word, i: nat)
      requires Valid() && i < 3
      modifies this, hash, repr
      ensures Valid() && fresh(repr - old(repr))
      ensures forall b: Word, j: nat :: j < 3 ==> Count(b, j) == old(Count(b, j)) + (if b == a && j == i then 1 else 0)
    {
      var h := Lookup(a);
      if h == null {
        h := Prepend(a);
      }
      Bump(h, a, i);
    }
  }

  /** One line of the dump: a group's first address and its three counters. */
  datatype Row = Row(addr: Word, a: nat, b: nat, c: nat)

  function Total(rows: seq<Row>): nat
  {
    if rows == [] then 0
    else var r := rows[|rows| - 1]; Total(rows[..|rows| - 1]) + r.a + r.b + r.c
  }

  lemma {:induction false} GroupIsWord(a: Word, d: nat)
    requires d > 0
    ensures 0 <= a / d <= a
  {
    var q := a / d;
    assert a == d * q + a % d;
    B.MulGrows(d, q);
  }

  /** The address space is a whole number of groups. */
  lemma {:induction false} GroupSize(g: nat)
    requires g <= 30
    ensures WORD == B.Pow2(32 - g) * B.Pow2(g) && B.Pow2(g) < WORD
  {
    PowSplit(g, 32 - g);
    PowWord();
    B.PowMonotone(g, 31);
  }

  lemma {:induction false} PowSplit(a: nat, b: nat)
    ensures B.Pow2(a + b) == B.Pow2(b) * B.Pow2(a)
    decreases b
  {
    if b > 0 {
      PowSplit(a, b - 1);
      TwiceProduct(B.Pow2(b - 1), B.Pow2(a));
    }
  }

  lemma {:induction false} TwiceProduct(x: nat, y: nat)
    ensures 2 * x * y == 2 * (x * y)
  {
  }

  lemma {:induction false} PowWord()
    ensures B.Pow2(32) == WORD && B.Pow2(31) == 0x8000_0000
  {
    assert B.Pow2(4) == 16;
    assert B.Pow2(8) == 16 * B.Pow2(4);
    assert B.Pow2(12) == 16 * B.Pow2(8);
    assert B.Pow2(16) == 16 * B.Pow2(12);
    assert B.Pow2(20) == 16 * B.Pow2(16);
    assert B.Pow2(24) == 16 * B.Pow2(20);
    assert B.Pow2(28) == 16 * B.Pow2(24);
    assert B.Pow2(31) == 8 * B.Pow2(28);
  }

  /** Row k starts a group. */
  lemma {:induction false} Aligned(start: nat, d: nat, k: nat)
    requires d > 0
    ensures var x := start / d * d + k * d;
            x / d == start / d + k && x % d == 0 && start / d * d == start - start % d && start < start / d * d + d
  {
    var q := start / d;
    assert (q + k) * d == q * d + k * d;
    B.ModUnique(start / d * d + k * d, d, q + k, 0);
  }

  lemma {:induction false} TotalNext(rows: seq<Row>, r: Row)
    ensures Total(rows + [r]) == Total(rows) + r.a + r.b + r.c
  {
    assert (rows + [r])[..|rows|] == rows;
  }

  /** The row after one in the address space starts in it too, or exactly at its end. */
  lemma {:induction false} NextRow(start: nat, g: nat, k: nat)
    requires g <= 30 && start / B.Pow2(g) * B.Pow2(g) + k * B.Pow2(g) < WORD
    ensures var d := B.Pow2(g);
            var x := start / d * d + k * d;
            x + d == start / d * d + (k + 1) * d && x + d <= WORD
  {
    var d, q := B.Pow2(g), start / B.Pow2(g);
    GroupSize(g);
    Distribute(q, k, d);
    Distribute(k, 1, d);
    NextMultiple(q + k, B.Pow2(32 - g), d);
  }

  lemma {:induction false} Distribute(a: int, b: int, d: int)
    ensures (a + b) * d == a * d + b * d
  {
  }

  lemma {:induction false} NextMultiple(n: int, m: int, d: nat)
    requires n * d < m * d
    ensures n * d + d <= m * d
  {
    var k := m - n;
    assert k * d == m * d - n * d;
    B.MulGrows(k, d);
  }

  lemma {:induction false} FirstRow(start: nat, d: nat)
    requires d > 0
    ensures 0 <= start - start % d == start / d * d + 0 * d <= start
  {
  }

  lemma {:induction false} LastRow(start: nat, end: nat, d: nat, n: nat)
    requires d > 0 && n > 0 && start / d * d + (n - 1) * d <= end < start / d * d + n * d
    ensures n == end / d - start / d + 1
  {
    var q := start / d;
    assert (q + n - 1) * d == q * d + (n - 1) * d && n * d == (n - 1) * d + d;
    B.ModUnique(end, d, q + n - 1, end - (q + n - 1) * d);
  }

  class Profiler {
    const table: HashTable
    const start: Word
    const end: Word
    const g: nat

    ghost predicate Holds(mode: Mode, rs: seq<Record>)
      reads table, table.hash, table.repr
    {
      && table.Valid() && g <= 30
      && forall a: Word, i: nat :: i < 3 ==> table.Count(a, i) == Tally(mode, g, start, end, rs, a, i)
    }

    constructor (start: Word, end: Word, g: nat)
      requires g <= 30
      ensures this.start == start && this.end == end && this.g == g && fresh(table) && fresh(table.hash) && fresh(table.repr)
      ensures forall mode :: Holds(mode, [])
    {
      this.start, this.end, this.g := start, end, g;
      table := new HashTable();
    }

    /** `read_file`, over the sequence of records in the file. */
    method ReadFile(mode: Mode, rs: seq<Record>)
      requires Holds(mode, [])
      modifies table, table.hash, table.repr
      ensures Holds(mode, rs)
    {
      for i := 0 to |rs|
        invariant Holds(mode, rs[..i]) && fresh(table.repr - old(table.repr))
      {
        Note(mode, rs[..i], rs[i]);
        assert rs[..i + 1] == rs[..i] + [rs[i]];
      }
      assert rs[..|rs|] == rs;
    }

    /** One record, after those of seen. */
    method Note(mode: Mode, ghost seen: seq<Record>, r: Record)
      requires Holds(mode, seen)
      modifies table, table.hash, table.repr
      ensures Holds(mode, seen + [r]) && fresh(table.repr - old(table.repr))
    {
      var index := IndexOf(mode, r.typ);
      if r.addr >= start && r.addr <= end {
        GroupIsWord(r.addr, B.Pow2(g));
        table.Add(r.addr / B.Pow2(g), index);
      }
      TallyGrows(mode, g, start, end, seen, r);
    }

    /** The first address of row k of the dump. */
    function RowAddr(k: nat): int { start / B.Pow2(g) * B.Pow2(g) + k * B.Pow2(g) }

    /** `start_addr & ~((1 << group_bits) - 1)`. */
    function FirstAddr(): (r: Word)
      requires g <= 30
      ensures r == RowAddr(0) <= start
    {
      var d := B.Pow2(g);
      FirstRow(start, d);
      start - start % d
    }

    /** The rows from the first group on. */
    ghost predicate Dumped(mode: Mode, rs: seq<Record>, rows: seq<Row>)
    {
      forall k: nat :: k < |rows| ==> RowOk(mode, rs, rows[k], k)
    }

    ghost predicate RowOk(mode: Mode, rs: seq<Record>, r: Row, k: nat)
    {
      var a := start / B.Pow2(g) + k;
      && r.addr == RowAddr(k) && r.a == Tally(mode, g, start, end, rs, a, 0)
      && r.b == Tally(mode, g, start, end, rs, a, 1) && r.c == Tally(mode, g, start, end, rs, a, 2)
    }

    method PrintRow(ghost mode: Mode, ghost rs: seq<Record>, ghost k: nat, addr: Word, d: nat) returns (r: Row)
      requires Holds(mode, rs) && d == B.Pow2(g) && addr == RowAddr(k)
      ensures RowOk(mode, rs, r, k) && r.a + r.b + r.c == GroupTally(mode, g, start, end, rs, start / d + k)
    {
      Aligned(start, d, k);
      assert addr / d < WORD;
      var a := table.Get(addr / d, 0);
      var b := table.Get(addr / d, 1);
      var c := table.Get(addr / d, 2);
      r := Row(addr, a, b, c);
    }

    /** The rows so far, and their counts. */
    ghost predicate Printing(mode: Mode, rs: seq<Record>, rows: seq<Row>)
    {
      && Dumped(mode, rs, rows) && Total(rows) == GroupsTally(mode, g, start, end, rs, start / B.Pow2(g), |rows|)
      && RowAddr(|rows|) <= WORD && (rows != [] ==> RowAddr(|rows| - 1) <= end)
    }

    lemma {:induction false} PrintedNext(mode: Mode, rs: seq<Record>, rows: seq<Row>, r: Row)
      requires g <= 30 && Printing(mode, rs, rows) && RowAddr(|rows|) <= end && RowOk(mode, rs, r, |rows|)
      requires r.a + r.b + r.c == GroupTally(mode, g, start, end, rs, start / B.Pow2(g) + |rows|)
      ensures Printing(mode, rs, rows + [r]) && RowAddr(|rows| + 1) == RowAddr(|rows|) + B.Pow2(g)
    {
      TotalNext(rows, r);
      NextRow(start, g, |rows|);
    }

    lemma {:induction false} NothingPrinted(mode: Mode, rs: seq<Record>)
      requires g <= 30
      ensures Printing(mode, rs, []) && RowAddr(0) == start / B.Pow2(g) * B.Pow2(g) <= start
    {
      Aligned(start, B.Pow2(g), 0);
    }

    /** When the next row would lie behind the range, all groups have been printed. */
    lemma {:induction false} AllPrinted(mode: Mode, rs: seq<Record>, rows: seq<Row>)
      requires g <= 30 && Printing(mode, rs, rows) && end < RowAddr(|rows|)
      ensures start <= end ==> |rows| == end / B.Pow2(g) - start / B.Pow2(g) + 1 && Total(rows) == Counted(start, end, rs)
    {
      if start <= end {
        Aligned(start, B.Pow2(g), 0);
        LastRow(start, end, B.Pow2(g), |rows|);
        AllCounted(mode, g, start, end, rs, |rows|);
      }
    }

    /** One turn of the dump loop; going past the top of the address space ends it. */
    method PrintGroup(ghost mode: Mode, ghost rs: seq<Record>, rows: seq<Row>, addr: Word, d: nat)
      returns (all: seq<Row>, next: Word, overflow: bool)
      requires Holds(mode, rs) && d == B.Pow2(g) && Printing(mode, rs, rows) && addr == RowAddr(|rows|) <= end
      ensures Printing(mode, rs, all) && (if overflow then RowAddr(|all|) == WORD else addr < next == RowAddr(|all|))
    {
      var r := PrintRow(mode, rs, |rows|, addr, d);
      PrintedNext(mode, rs, rows, r);
      all, next, overflow := rows + [r], addr, false;
      if addr >= (addr + d) % WORD {
        overflow := true;
      } else {
        next := (addr + d) % WORD;
      }
    }

    /** `printout`, as the rows it prints.  Every group that meets the range is printed
        once, in order, and the loop ends even when the range ends with the address
        space; the counts add up to the records in range. */
    method PrintOut(ghost mode: Mode, ghost rs: seq<Record>) returns (rows: seq<Row>)
      requires Holds(mode, rs)
      ensures Dumped(mode, rs, rows)
      ensures start <= end ==> |rows| == end / B.Pow2(g) - start / B.Pow2(g) + 1 && Total(rows) == Counted(start, end, rs)
    {
      var d := B.Pow2(g);
      rows := [];
      NothingPrinted(mode, rs);
      var addr := FirstAddr();
      var overflow := false;
      while addr <= end && !overflow
        invariant Printing(mode, rs, rows)
        invariant if overflow then RowAddr(|rows|) == WORD else addr == RowAddr(|rows|)
        decreases !overflow, WORD - addr
      {
        rows, addr, overflow := PrintGroup(mode, rs, rows, addr, d);
      }
      AllPrinted(mode, rs, rows);
    }
  }
}
