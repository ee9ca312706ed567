/** The instruction cache (cache/icache-model.c): mask indexing, slots of one set
    `nsets` apart, and a refill loop that starts mid-block and wraps. */
module ICache {
  import R = Recency
  import opened Words
  import opened ByteMemory
  import opened BigEndianMemory
  import opened LineRefill
  import opened Bits

  /** 2^setBits sets of blocks of 2^blockBits bytes. */
  datatype Geometry = Geometry(setBits: nat, blockBits: nat, nways: nat, ustates: nat)

  predicate Usable(g: Geometry)
  {
    (g.blockBits == 4 || g.blockBits == 5) && g.setBits <= 10 && 0 < g.nways && g.ustates >= 2
  }

  function NSets(g: Geometry): (n: nat) ensures n > 0 { Pow2(g.setBits) }

  function BlockSize(g: Geometry): (n: nat)
    requires Usable(g)
    ensures n == Pow2(g.blockBits)
  {
    assert Pow2(2) == 4;
    assert Pow2(4) == 16 && Pow2(5) == 32;
    if g.blockBits == 4 then 16 else 32
  }

  const INVALID := -1

  function Slots(g: Geometry): nat { NSets(g) * g.nways }

  lemma {:induction false} PowSum(k: nat, n: nat)
    ensures Pow2(k + n) == Pow2(k) * Pow2(n)
    decreases n
  {
    if n > 0 {
      PowSum(k, n - 1);
    }
  }

  lemma {:induction false} Pow32()
    ensures Pow2(32) == WORD
  {
    assert Pow2(8) == 256;
    PowSum(8, 8);
    PowSum(16, 16);
  }

  // The masks `ic_end_sec` computes, in 32-bit arithmetic.

  function SetMask(g: Geometry): nat { Shifted(NSets(g) - 1, Pow2(g.blockBits)) }

  function Shifted(x: nat, p: nat): (r: nat)
    ensures r == x * p
  {
    if x == 0 then 0 else p + Shifted(x - 1, p)
  }

  function TagMask(g: Geometry): nat
    requires Usable(g)
  {
    TagMaskFits(g);
    WORD - NSets(g) * Pow2(g.blockBits)
  }

  function OffsetMask(g: Geometry): nat { Pow2(g.blockBits) - 1 }

  function BlockMask(g: Geometry): nat
    requires Usable(g)
  {
    WORD - BlockSize(g)
  }

  lemma {:induction false} TagMaskFits(g: Geometry)
    requires Usable(g)
    ensures NSets(g) * Pow2(g.blockBits) == Pow2(g.setBits + g.blockBits) <= Pow2(15) < WORD
  {
    PowSum(g.setBits, g.blockBits);
    PowMonotone(g.setBits + g.blockBits, 15);
    assert Pow2(5) == 32;
    PowSum(5, 5);
    PowSum(10, 5);
  }

  // What the masks select.

  function SetOf(g: Geometry, a: nat): (s: nat)
    requires Usable(g)
    ensures s < NSets(g)
  {
    a / BlockSize(g) % NSets(g)
  }

  /** Bytes per way. */
  function Stride(g: Geometry): (m: nat)
    requires Usable(g)
    ensures m > 0
  {
    MulGrows(NSets(g), BlockSize(g));
    NSets(g) * BlockSize(g)
  }

  lemma {:induction false} ModAtMost(a: nat, m: nat)
    requires m > 0
    ensures a % m <= a
  {
    if a < m {
      ModUnique(a, m, 0, a);
    }
  }

  function Floor(a: nat, m: nat): nat
    requires m > 0
  {
    ModAtMost(a, m);
    a - a % m
  }

  function TagOf(g: Geometry, a: nat): nat
    requires Usable(g)
  {
    Floor(a, Stride(g))
  }

  /** Digits u and r of a number make it less than its stride. */
  lemma {:induction false} DigitsBelow(n: nat, u: nat, b: nat, r: nat)
    requires u < n && r < b
    ensures 0 < n * b && u * b + r < n * b
  {
    MulGrows(n - u, b);
    assert (n - u) * b == n * b - u * b;
  }

  lemma {:induction false} DigitsJoin(a: int, q: int, r: int, t: int, u: int, n: int, b: int)
    requires a == q * b + r && q == t * n + u
    ensures a == t * (n * b) + (u * b + r)
  {
    assert (t * n + u) * b == t * (n * b) + u * b;
  }

  lemma {:induction false} DivMod(a: nat, b: nat, n: nat)
    requires b > 0 && n > 0
    ensures n * b > 0 && a % (n * b) == a / b % n * b + a % b
  {
    var q, r := a / b, a % b;
    var t, u := q / n, q % n;
    DigitsBelow(n, u, b, r);
    DigitsJoin(a, q, r, t, u, n, b);
    ModUnique(a, n * b, t, u * b + r);
  }

  lemma {:induction false} SetMaskIsDivMod(g: Geometry, a: Word)
    requires Usable(g)
    ensures And(a, SetMask(g)) == SetOf(g, a) * BlockSize(g)
  {
    var b, j := g.blockBits, g.setBits + g.blockBits;
    TagMaskFits(g);
    PowMonotone(b, j);
    MaskDifference(NSets(g), Pow2(b));
    AndRange(a, b, j);
    DivMod(a, BlockSize(g), NSets(g));
    calc {
      And(a, SetMask(g));
      And(a, Pow2(j) - Pow2(b));
      a % Pow2(j) - a % Pow2(b);
      SetOf(g, a) * BlockSize(g);
    }
  }

  lemma {:induction false} MaskDifference(n: nat, p: nat)
    requires n > 0
    ensures Shifted(n - 1, p) == n * p - p
  {
  }

  /** The mask of the bits from j up. */
  lemma {:induction false} MaskTop(a: Word, j: nat)
    requires j <= 32
    ensures Pow2(j) <= WORD && And(a, WORD - Pow2(j)) == a - a % Pow2(j)
  {
    var top := Pow2(32);
    assert top == WORD && a % top == a by {
      Pow32();
    }
    PowMonotone(j, 32);
    AndRange(a, j, 32);
  }

  lemma {:induction false} TagMaskIsMod(g: Geometry, a: Word)
    requires Usable(g)
    ensures And(a, TagMask(g)) == TagOf(g, a)
  {
    var p, j := NSets(g) * Pow2(g.blockBits), g.setBits + g.blockBits;
    assert p == Pow2(j) && j <= 32 by {
      TagMaskFits(g);
    }
    assert And(a, WORD - p) == a - a % p by {
      MaskTop(a, j);
    }
    assert Stride(g) == p && TagMask(g) == WORD - p;
  }

  lemma {:induction false} BlockMasksAreMod(g: Geometry, a: Word)
    requires Usable(g)
    ensures And(a, OffsetMask(g)) == a % BlockSize(g)
    ensures And(a, BlockMask(g)) == a - a % BlockSize(g)
  {
    MaskTop(a, g.blockBits);
    AndRange(a, 0, g.blockBits);
  }

  /** The four masks of a 32-bit address agree with division and remainder. */
  lemma {:induction false} MasksAreDivMod(g: Geometry, a: Word)
    requires Usable(g)
    ensures And(a, SetMask(g)) == SetOf(g, a) * BlockSize(g)
    ensures And(a, TagMask(g)) == TagOf(g, a)
    ensures And(a, OffsetMask(g)) == a % BlockSize(g)
    ensures And(a, BlockMask(g)) == a - a % BlockSize(g)
  {
    SetMaskIsDivMod(g, a);
    TagMaskIsMod(g, a);
    BlockMasksAreMod(g, a);
  }

  /** Tag, set and offset rebuild the address. */
  lemma {:induction false} AddressRebuilt(g: Geometry, a: Word)
    requires Usable(g)
    ensures And(a, TagMask(g)) + And(a, SetMask(g)) + And(a, OffsetMask(g)) == a
    ensures And(a, SetMask(g)) / BlockSize(g) == SetOf(g, a)
  {
    MasksAreDivMod(g, a);
    DivMod(a, BlockSize(g), NSets(g));
    ModUnique(SetOf(g, a) * BlockSize(g), BlockSize(g), SetOf(g, a), 0);
  }

  /** `way << log2 | offset` and `block | offset` are sums. */
  lemma {:induction false} OrIsSum(g: Geometry, n: nat, offset: nat)
    requires Usable(g) && offset < BlockSize(g)
    ensures Or(n * BlockSize(g), offset) == n * BlockSize(g) + offset
  {
    ModUnique(n * BlockSize(g), BlockSize(g), n, 0);
    OrDisjoint(n * BlockSize(g), offset, g.blockBits);
  }

  // ------------------------------------------------------------- the cache

  function BlockBase(g: Geometry, a: nat): nat
    requires Usable(g)
  {
    a - a % BlockSize(g)
  }

  /** The block a slot holds under a tag. */
  function SlotBase(g: Geometry, tag: int, slot: nat): int
    requires Usable(g)
  {
    tag + slot % NSets(g) * BlockSize(g)
  }

  /** Word k of the line in a slot. */
  function LineWord(g: Geometry, slot: nat, k: nat): nat
    requires Usable(g)
  {
    slot * (BlockSize(g) / 4) + k
  }

  lemma {:induction false} SameBlock(g: Geometry, a: nat, slot: nat)
    requires Usable(g) && slot % NSets(g) == SetOf(g, a)
    ensures SlotBase(g, TagOf(g, a), slot) == BlockBase(g, a)
  {
    DivMod(a, BlockSize(g), NSets(g));
  }

  lemma {:induction false} LineFits(g: Geometry, slot: nat, k: nat)
    requires Usable(g) && slot < Slots(g) && k < BlockSize(g) / 4
    ensures LineWord(g, slot, k) < Slots(g) * (BlockSize(g) / 4)
  {
    MulGrows(Slots(g) - 1 - slot, BlockSize(g) / 4);
  }

  /** Byte offset x of a slot lies in word x / 4 of its line. */
  lemma {:induction false} QuarterIndex(g: Geometry, slot: nat, x: nat)
    requires Usable(g) && x < BlockSize(g)
    ensures (slot * BlockSize(g) + x) / 4 == LineWord(g, slot, x / 4)
  {
  }

  lemma {:induction false} ReloadIndex(g: Geometry, way: nat, reload: Word)
    requires Usable(g)
    ensures Or(Shifted(way, Pow2(g.blockBits)), And(reload, OffsetMask(g))) / 4 ==
            LineWord(g, way, reload % BlockSize(g) / 4)
  {
    MasksAreDivMod(g, reload);
    OrIsSum(g, way, reload % BlockSize(g));
    QuarterIndex(g, way, reload % BlockSize(g));
  }

  lemma {:induction false} BaseIsMultiple(g: Geometry, a: nat)
    requires Usable(g)
    ensures BlockBase(g, a) == a / BlockSize(g) * BlockSize(g)
  {
  }

  lemma {:induction false} ReloadAddress(g: Geometry, a: Word, reload: Word)
    requires Usable(g)
    ensures Or(And(a, BlockMask(g)), And(reload, OffsetMask(g))) == BlockBase(g, a) + reload % BlockSize(g)
  {
    BlockMasksAreMod(g, a);
    BlockMasksAreMod(g, reload);
    BaseIsMultiple(g, a);
    OrIsSum(g, a / BlockSize(g), reload % BlockSize(g));
  }

  lemma {:induction false} FloorMultiple(a: nat, m: nat)
    requires m > 0
    ensures a - a % m >= 0 && (a - a % m) % m == 0
  {
    ModUnique(a - a % m, m, a / m, 0);
  }

  lemma {:induction false} BaseFits(g: Geometry, a: Word)
    requires Usable(g)
    ensures BlockBase(g, a) % BlockSize(g) == 0 && BlockBase(g, a) + BlockSize(g) <= WORD
  {
    var b := BlockSize(g);
    FloorMultiple(a, b);
    if b == 16 {
      BaseFits16(a);
    } else {
      BaseFits32(a);
    }
  }

  lemma {:induction false} BaseFits16(a: Word)
    ensures a - a % 16 + 16 <= WORD
  {
  }

  lemma {:induction false} BaseFits32(a: Word)
    ensures a - a % 32 + 32 <= WORD
  {
  }

  lemma {:induction false} TagMultiple(g: Geometry, a: Word)
    requires Usable(g)
    ensures TagOf(g, a) % Stride(g) == 0
  {
    FloorMultiple(a, Stride(g));
  }

  lemma {:induction false} MultiplesPlus(t: nat, x: nat, u: nat, y: nat, m: nat)
    requires m > 0 && t % m == 0 && u % m == 0 && x < m && y < m && t + x == u + y
    ensures t == u && x == y
  {
    ModUnique(t + x, m, t / m, x);
    ModUnique(u + y, m, u / m, y);
  }

  lemma {:induction false} Below(h: nat, n: nat, b: nat)
    requires h < n && b > 0
    ensures h * b < n * b
  {
  }

  /** A slot holds the block of a only under the tag and in the set of a. */
  lemma {:induction false} BaseInjective(g: Geometry, tag: nat, slot: nat, a: Word)
    requires Usable(g) && tag % Stride(g) == 0
    requires SlotBase(g, tag, slot) == BlockBase(g, a)
    ensures tag == TagOf(g, a) && slot % NSets(g) == SetOf(g, a)
  {
    var b, n := BlockSize(g), NSets(g);
    var h, s := slot % n, SetOf(g, a);
    TagMultiple(g, a);
    DivMod(a, b, n);
    Below(h, n, b);
    Below(s, n, b);
    MultiplesPlus(tag, h * b, TagOf(g, a), s * b, n * b);
    Cancel(h, s, b);
  }

  lemma {:induction false} Cancel(x: nat, y: nat, b: nat)
    requires b > 0 && x * b == y * b
    ensures x == y
  {
    MulGrows(x - y, b);
    assert (x - y) * b == x * b - y * b;
  }

  lemma {:induction false} LinesApart(g: Geometry, s: nat, t: nat)
    requires Usable(g) && s != t
    ensures forall k :: 0 <= k < BlockSize(g) / 4 ==>
              !(LineWord(g, t, 0) <= LineWord(g, s, k) < LineWord(g, t, BlockSize(g) / 4))
  {
    MulGrows(s - t, BlockSize(g) / 4);
  }

  // --------------------------------------------------------- lines, as values

  ghost predicate WordAt(g: Geometry, words: seq<Word>, m: Memory, slot: nat, k: nat, base: int)
    requires Usable(g)
  {
    LineWord(g, slot, k) < |words| && words[LineWord(g, slot, k)] == Word32(m, base + 4 * k)
  }

  /** The line in a slot equals the memory at base. */
  ghost predicate LineAt(g: Geometry, words: seq<Word>, m: Memory, slot: nat, base: int)
    requires Usable(g)
  {
    forall k: nat :: k < BlockSize(g) / 4 ==> WordAt(g, words, m, slot, k, base)
  }

  /** A valid line whose block is not stale equals memory. */
  ghost predicate SlotOk(g: Geometry, tag: int, words: seq<Word>, m: Memory, stale: set<int>, s: nat)
    requires Usable(g)
  {
    tag != INVALID ==>
      && tag >= 0 && tag % Stride(g) == 0
      && SlotBase(g, tag, s) % BlockSize(g) == 0 && SlotBase(g, tag, s) + BlockSize(g) <= WORD
      && (SlotBase(g, tag, s) !in stale ==> LineAt(g, words, m, s, SlotBase(g, tag, s)))
  }

  /** Only the line in the slot `way` may differ. */
  ghost predicate LinesKept(g: Geometry, words: seq<Word>, words': seq<Word>, way: nat)
    requires Usable(g)
  {
    && |words'| == |words|
    && forall i :: 0 <= i < |words| && !(LineWord(g, way, 0) <= i < LineWord(g, way, BlockSize(g) / 4)) ==>
         words'[i] == words[i]
  }

  lemma {:induction false} SlotReloaded(g: Geometry, tag: int, words: seq<Word>, words': seq<Word>, m: Memory, stale: set<int>, s: nat, way: nat)
    requires Usable(g) && SlotOk(g, tag, words, m, stale, s) && s != way && LinesKept(g, words, words', way)
    ensures SlotOk(g, tag, words', m, stale, s)
  {
    LinesApart(g, s, way);
    if tag != INVALID && SlotBase(g, tag, s) !in stale {
      forall k: nat | k < BlockSize(g) / 4
        ensures WordAt(g, words', m, s, k, SlotBase(g, tag, s))
      {
        assert WordAt(g, words, m, s, k, SlotBase(g, tag, s));
      }
    }
  }

  lemma {:induction false} SlotStored(g: Geometry, tag: int, words: seq<Word>, m: Memory, stale: set<int>, s: nat, a: Word, data: Word, width: int)
    requires Usable(g) && SlotOk(g, tag, words, m, stale, s) && Aligned(a, width)
    ensures SlotOk(g, tag, words, Write(m, a, width, data), stale + {BlockBase(g, a)}, s)
  {
    if tag != INVALID && SlotBase(g, tag, s) !in stale + {BlockBase(g, a)} {
      LineKept(g, words, m, s, SlotBase(g, tag, s), a, data, width);
    }
  }

  lemma {:induction false} LineKept(g: Geometry, words: seq<Word>, m: Memory, s: nat, base: int, a: Word, data: Word, width: int)
    requires Usable(g) && Aligned(a, width) && LineAt(g, words, m, s, base) && base != BlockBase(g, a)
    requires base % BlockSize(g) == 0 && 0 <= base && base + BlockSize(g) <= WORD
    ensures LineAt(g, words, Write(m, a, width, data), s, base)
  {
    forall k: nat | k < BlockSize(g) / 4
      ensures WordAt(g, words, Write(m, a, width, data), s, k, base)
    {
      assert WordAt(g, words, m, s, k, base);
      WordInBlock(BlockSize(g), base, k, a);
      OtherWords(m, a, data, width, base + 4 * k);
    }
  }

  lemma {:induction false} WordInBlock(bs: nat, base: nat, k: nat, a: nat)
    requires (bs == 16 || bs == 32) && base % bs == 0 && k < bs / 4 && base != a - a % bs
    ensures (base + 4 * k) % 4 == 0 && base + 4 * k != a - a % 4
  {
    var q := base / bs;
    if bs == 16 {
      var u, v, r := Parts16(a);
      WordOf16(base, q, k, u, v);
    } else {
      var u, v, r := Parts32(a);
      WordOf32(base, q, k, u, v);
    }
  }

  lemma {:induction false} WordOf16(base: nat, q: nat, k: nat, u: nat, v: nat)
    requires base == 16 * q && k < 4 && v < 4 && base != 16 * u
    ensures (base + 4 * k) % 4 == 0 && base + 4 * k != 16 * u + 4 * v
  {
    Remainder4(4 * q + k, 0);
  }

  lemma {:induction false} WordOf32(base: nat, q: nat, k: nat, u: nat, v: nat)
    requires base == 32 * q && k < 8 && v < 8 && base != 32 * u
    ensures (base + 4 * k) % 4 == 0 && base + 4 * k != 32 * u + 4 * v
  {
    Remainder4(8 * q + k, 0);
  }

  lemma {:induction false} SlotDropped(g: Geometry, tag: int, words: seq<Word>, m: Memory, stale: set<int>, s: nat, a: Word)
    requires Usable(g) && SlotOk(g, tag, words, m, stale, s)
    requires tag == INVALID || tag != TagOf(g, a) || s % NSets(g) != SetOf(g, a)
    ensures SlotOk(g, tag, words, m, stale - {BlockBase(g, a)}, s)
  {
    if tag != INVALID && SlotBase(g, tag, s) == BlockBase(g, a) {
      BaseInjective(g, tag, s, a);
    }
  }

  /** The first n words, in refill order from word w on, of the line in a slot. */
  ghost predicate Refilled(g: Geometry, words: seq<Word>, m: Memory, slot: nat, base: int, w: nat, n: nat)
    requires Usable(g)
  {
    forall i: nat :: i < n ==> WordAt(g, words, m, slot, WrapWord(BlockSize(g), w, i), base)
  }

  lemma {:induction false} RefillNext(g: Geometry, words: seq<Word>, words': seq<Word>, m: Memory, slot: nat, base: int, w: nat, n: nat, k: nat)
    requires Usable(g) && n < BlockSize(g) / 4 && k == WrapWord(BlockSize(g), w, n)
    requires Refilled(g, words, m, slot, base, w, n) && LineWord(g, slot, k) < |words|
    requires words' == words[LineWord(g, slot, k) := Word32(m, base + 4 * k)]
    ensures Refilled(g, words', m, slot, base, w, n + 1)
  {
    WrapInjective(BlockSize(g), w, n);
    forall i: nat | i < n + 1
      ensures WordAt(g, words', m, slot, WrapWord(BlockSize(g), w, i), base)
    {
      assert i < n ==> WordAt(g, words, m, slot, WrapWord(BlockSize(g), w, i), base);
    }
  }

  lemma {:induction false} OneWordKept(g: Geometry, before: seq<Word>, words: seq<Word>, slot: nat, k: nat, v: Word)
    requires Usable(g) && LinesKept(g, before, words, slot) && k < BlockSize(g) / 4 && LineWord(g, slot, k) < |words|
    ensures LinesKept(g, before, words[LineWord(g, slot, k) := v], slot)
  {
  }

  lemma {:induction false} RefillDone(g: Geometry, words: seq<Word>, m: Memory, slot: nat, base: int, w: nat)
    requires Usable(g) && w < BlockSize(g) / 4 && Refilled(g, words, m, slot, base, w, BlockSize(g) / 4)
    ensures LineAt(g, words, m, slot, base)
  {
    var bs := BlockSize(g);
    forall k: nat | k < bs / 4
      ensures WordAt(g, words, m, slot, k, base)
    {
      var n := if k >= w then k - w else k - w + bs / 4;
      WrapReaches(bs, w, k, n);
      assert WordAt(g, words, m, slot, WrapWord(bs, w, n), base);
    }
  }

  // -------------------------------------------------------------------- runs

  /** Slot `way` is the first with the smallest counter among those of set q below w,
      unless none is below the top state. */
  ghost predicate Least(g: Geometry, ls: seq<nat>, q: nat, w: nat, way: nat, minlru: nat)
    requires g.ustates > 0
  {
    && way < |ls| && way % NSets(g) == q && way <= w && minlru <= g.ustates - 1
    && (minlru < g.ustates - 1 ==> minlru == ls[way])
    && forall s: nat :: s < w && s < |ls| && s % NSets(g) == q ==>
         minlru <= ls[s] && (s < way ==> minlru < ls[s] || minlru == g.ustates - 1)
  }

  lemma {:induction false} SetsFit(g: Geometry)
    requires g.nways > 0
    ensures NSets(g) <= Slots(g)
  {
    MulGrows(g.nways, NSets(g));
  }

  lemma {:induction false} LeastFirst(g: Geometry, ls: seq<nat>, q: nat)
    requires g.ustates > 0 && q < NSets(g) && q < |ls|
    ensures q % NSets(g) == q && Least(g, ls, q, q, q, g.ustates - 1)
  {
    FirstWay(q, NSets(g));
  }

  lemma {:induction false} LeastNext(g: Geometry, ls: seq<nat>, q: nat, w: nat, way: nat, minlru: nat)
    requires g.ustates > 0 && Least(g, ls, q, w, way, minlru) && w < |ls| && w % NSets(g) == q
    ensures (w + NSets(g)) % NSets(g) == q
    ensures if ls[w] < minlru then Least(g, ls, q, w + NSets(g), w, ls[w])
            else Least(g, ls, q, w + NSets(g), way, minlru)
  {
    NextWay(w, NSets(g));
  }

  /** Slot v was empty if any of its set was, and otherwise used before all of the others. */
  ghost predicate Oldest(g: Geometry, tags: seq<int>, times: seq<nat>, v: nat)
    requires Usable(g)
  {
    && v < |tags| == |times|
    && if exists s: nat :: s < |tags| && s % NSets(g) == v % NSets(g) && tags[s] == INVALID then tags[v] == INVALID
       else forall s: nat :: s < |tags| && s % NSets(g) == v % NSets(g) && s != v ==> times[v] < times[s]
  }

  /** What the scan for a victim finds. */
  ghost predicate Scanned(g: Geometry, lrus: seq<nat>, v: nat)
    requires Usable(g)
  {
    v < |lrus| && forall s: nat :: s < |lrus| && s % NSets(g) == v % NSets(g) && lrus[s] < g.ustates - 1 ==> lrus[v] <= lrus[s]
  }

  lemma {:induction false} VictimLowest(g: Geometry, tags: seq<int>, lrus: seq<nat>, times: seq<nat>, now: nat, v: nat)
    requires Usable(g) && R.Recent(g.ustates - 1, tags, lrus, times, now, NSets(g)) && Scanned(g, lrus, v)
    ensures R.Lowest(lrus, NSets(g), v)
  {
    R.AtMostTop(g.ustates - 1, tags, lrus, times, now, NSets(g), v);
  }

  lemma {:induction false} VictimOldest(g: Geometry, tags: seq<int>, lrus: seq<nat>, times: seq<nat>, now: nat, v: nat)
    requires Usable(g) && R.Recent(g.ustates - 1, tags, lrus, times, now, NSets(g)) && Scanned(g, lrus, v)
    requires |tags| == Slots(g) && g.nways <= g.ustates
    ensures Oldest(g, tags, times, v)
  {
    VictimLowest(g, tags, lrus, times, now, v);
    MembersOfSet(NSets(g), v % NSets(g), g.nways, Slots(g));
    R.LowestIsOldest(g.ustates - 1, tags, lrus, times, now, NSets(g), v);
  }

  /** Each set has a slot among n consecutive ones. */
  lemma {:induction false} MembersOfSet(n: nat, q: nat, k: nat, b: nat)
    requires q < n && b == k * n
    ensures R.Members(n, q, b) == k
    decreases k
  {
    if k > 0 {
      OneLess(k, n);
      MembersOfSet(n, q, k - 1, b - n);
      MembersOfRound(n, q, k - 1, b - n, n);
    }
  }

  lemma {:induction false} OneLess(k: nat, n: nat)
    requires k > 0
    ensures (k - 1) * n == k * n - n >= 0
  {
    MulGrows(k, n);
  }

  lemma {:induction false} MembersOfRound(n: nat, q: nat, k: nat, b: nat, m: nat)
    requires q < n && m <= n && b == k * n
    ensures R.Members(n, q, b + m) == R.Members(n, q, b) + (if q < m then 1 else 0)
    decreases m
  {
    if m > 0 {
      MembersOfRound(n, q, k, b, m - 1);
      ModUnique(b + (m - 1), n, k, m - 1);
    }
  }

  /** A miss that fills slot v with tag. */
  lemma {:induction false} FillRecent(g: Geometry, tags: seq<int>, lrus: seq<nat>, times: seq<nat>, now: nat, v: nat, tag: nat,
                                      lrus': seq<nat>)
    requires Usable(g) && R.Recent(g.ustates - 1, tags, lrus, times, now, NSets(g)) && Scanned(g, lrus, v)
    requires |tags| == Slots(g) && R.Aged(g.ustates - 1, lrus, lrus', NSets(g), v)
    ensures R.Recent(g.ustates - 1, tags[v := tag], lrus', times[v := now + 1], now + 1, NSets(g))
    ensures g.nways <= g.ustates ==> Oldest(g, tags, times, v)
  {
    VictimLowest(g, tags, lrus, times, now, v);
    R.MissRecent(g.ustates - 1, tags, lrus, times, now, NSets(g), tags[v := tag], lrus', times[v := now + 1], v);
    if g.nways <= g.ustates {
      VictimOldest(g, tags, lrus, times, now, v);
    }
  }

  datatype Op = FetchOp(a: Word) | StoreOp(a: Word, data: Word, width: int) | InvOp(a: Word)

  /** Each block stored to is invalidated before its next fetch. */
  ghost predicate Disciplined(g: Geometry, stale: set<int>, ops: seq<Op>)
    requires Usable(g)
    decreases |ops|
  {
    ops == [] ||
    match ops[0]
    case FetchOp(a) => a % 4 == 0 && BlockBase(g, a) !in stale && Disciplined(g, stale, ops[1..])
    case StoreOp(a, _, width) => Aligned(a, width) && Disciplined(g, stale + {BlockBase(g, a)}, ops[1..])
    case InvOp(a) => Disciplined(g, stale - {BlockBase(g, a)}, ops[1..])
  }

  /** What the fetches of a run read from memory alone. */
  ghost function FlatFetches(m: Memory, ops: seq<Op>): seq<Word>
    decreases |ops|
  {
    if ops == [] then []
    else
      match ops[0]
      case FetchOp(a) => [Word32(m, a)] + FlatFetches(m, ops[1..])
      case StoreOp(a, data, width) => FlatFetches(if width >= 0 then Write(m, a, width, data) else m, ops[1..])
      case InvOp(_) => FlatFetches(m, ops[1..])
  }

  class InsnCache {
    const g: Geometry
    const tags: array<int>
    const lrus: array<nat>
    const mem: array<Word>
    var memory: Memory
    ghost var stale: set<int>  // blocks stored to and not yet passed to Invalidate
    ghost var used: seq<nat>  // when each slot was used last
    ghost var clock: nat

    ghost predicate Shape()
    {
      && Usable(g) && tags.Length == Slots(g) && lrus.Length == Slots(g)
      && mem.Length == Slots(g) * (BlockSize(g) / 4)
      && tags as object != lrus as object && tags as object != mem as object && lrus as object != mem as object
    }

    ghost predicate Coherent()
      reads this, tags, mem
    {
      Shape() && forall s: nat :: s < tags.Length ==> SlotOk(g, tags[s], mem[..], memory, stale, s)
    }

    /** The counters record how recently each slot was used. */
    ghost predicate Recent()
      reads this, tags, lrus
    {
      Shape() && R.Recent(g.ustates - 1, tags[..], lrus[..], used, clock, NSets(g))
    }

    /** `ic_end_sec`: all tags invalid. */
    constructor (geometry: Geometry, m: Memory)
      requires Usable(geometry)
      ensures g == geometry && memory == m && stale == {} && Coherent() && Recent()
      ensures fresh(tags) && fresh(lrus) && fresh(mem)
    {
      g, memory, stale := geometry, m, {};
      used, clock := seq(Slots(geometry), _ => 0), 0;
      tags := new int[Slots(geometry)](_ => INVALID);
      lrus := new nat[Slots(geometry)](_ => 0);
      mem := new Word[Slots(geometry) * (BlockSize(geometry) / 4)](_ => 0);
    }

    /** The scan of one set. */
    method Find(q: nat, tag: int) returns (way: int)
      requires Shape() && q < NSets(g)
      ensures way >= 0 ==> way < Slots(g) && way % NSets(g) == q && tags[way] == tag
      ensures way < 0 ==> forall s :: 0 <= s < Slots(g) && s % NSets(g) == q ==> tags[s] != tag
    {
      way := q;
      FirstWay(q, NSets(g));
      while way < Slots(g)
        invariant way >= 0 && way % NSets(g) == q
        invariant forall s :: 0 <= s < way && s < Slots(g) && s % NSets(g) == q ==> tags[s] != tag
      {
        if tags[way] == tag {
          return;
        }
        NextWay(way, NSets(g));
        way := way + NSets(g);
      }
      way := -1;
    }

    /** LRU update of a hit. */
    method TouchSlot(q: nat, way: nat)
      requires Shape() && q < NSets(g) && way < Slots(g) && way % NSets(g) == q
      modifies lrus
      ensures forall s :: 0 <= s < Slots(g) ==>
                lrus[s] == (if s == way then g.ustates - 1
                 else if s % NSets(g) == q && old(lrus[s]) > old(lrus[way]) then old(lrus[s]) - 1
                 else old(lrus[s]))
    {
      var w := q;
      FirstWay(q, NSets(g));
      while w < Slots(g)
        invariant w % NSets(g) == q && lrus[way] == old(lrus[way])
        invariant forall s :: 0 <= s < Slots(g) ==>
                lrus[s] == (if s < w && s % NSets(g) == q && old(lrus[s]) > old(lrus[way]) then old(lrus[s]) - 1
                 else old(lrus[s]))
      {
        if lrus[w] > lrus[way] {
          lrus[w] := lrus[w] - 1;
        }
        NextWay(w, NSets(g));
        w := w + NSets(g);
      }
      lrus[way] := g.ustates - 1;
    }

    /** The least recently used way of the set, the first of equals. */
    method SelectVictim(q: nat) returns (way: nat)
      requires Shape() && q < NSets(g)
      ensures way < Slots(g) && way % NSets(g) == q
      ensures forall s :: 0 <= s < Slots(g) && s % NSets(g) == q && lrus[s] < g.ustates - 1 ==>
                lrus[way] <= lrus[s] && (s < way ==> lrus[way] < lrus[s])
    {
      var minlru: nat := g.ustates - 1;
      way := q;
      SetsFit(g);
      var w := q;
      LeastFirst(g, lrus[..], q);
      while w < Slots(g)
        invariant w % NSets(g) == q && way < Slots(g)
        invariant Least(g, lrus[..], q, w, way, minlru)
      {
        LeastNext(g, lrus[..], q, w, way, minlru);
        if lrus[w] < minlru {
          way := w;
          minlru := lrus[w];
        }
        w := w + NSets(g);
      }
    }

    /** LRU update of a miss. */
    method AgeSlots(q: nat, way: nat)
      requires Shape() && q < NSets(g) && way < Slots(g) && way % NSets(g) == q
      modifies lrus
      ensures forall s :: 0 <= s < Slots(g) ==>
                lrus[s] == (if s == way then g.ustates - 1
                 else if s % NSets(g) == q && old(lrus[s]) > 0 then old(lrus[s]) - 1
                 else old(lrus[s]))
    {
      var w := q;
      FirstWay(q, NSets(g));
      while w < Slots(g)
        invariant w % NSets(g) == q
        invariant forall s :: 0 <= s < Slots(g) ==>
                lrus[s] == (if s < w && s % NSets(g) == q && old(lrus[s]) > 0 then old(lrus[s]) - 1
                 else old(lrus[s]))
      {
        if lrus[w] > 0 {
          lrus[w] := lrus[w] - 1;
        }
        NextWay(w, NSets(g));
        w := w + NSets(g);
      }
      lrus[way] := g.ustates - 1;
    }

    method ReloadWord(way: nat, a: Word, reload: Word)
      requires Shape() && way < Slots(g) && reload % 4 == 0
      modifies mem
      ensures var k := reload % BlockSize(g) / 4;
              && LineWord(g, way, k) < mem.Length
              && mem[..] == old(mem[..])[LineWord(g, way, k) := Word32(memory, BlockBase(g, a) + reload % BlockSize(g))]
    {
      ReloadIndex(g, way, reload);
      ReloadAddress(g, a, reload);
      LineFits(g, way, reload % BlockSize(g) / 4);
      var index := Or(Shifted(way, Pow2(g.blockBits)), And(reload, OffsetMask(g))) / 4;
      mem[index] := Word32(memory, Or(And(a, BlockMask(g)), And(reload, OffsetMask(g))));
    }

    /** Word n, in refill order, of a refill that starts at word w. */
    method ReloadNext(way: nat, a: Word, w: nat, n: nat, reload: Word, ghost before: seq<Word>)
      requires Shape() && way < Slots(g) && w < BlockSize(g) / 4 && n < BlockSize(g) / 4 && reload == 4 * w + 4 * n
      requires Refilled(g, mem[..], memory, way, BlockBase(g, a), w, n) && LinesKept(g, before, mem[..], way)
      modifies mem
      ensures Refilled(g, mem[..], memory, way, BlockBase(g, a), w, n + 1) && LinesKept(g, before, mem[..], way)
    {
      ghost var words, k := mem[..], WrapWord(BlockSize(g), w, n);
      ReloadOffset(BlockSize(g), w, n);
      ReloadWord(way, a, reload);
      RefillNext(g, words, mem[..], memory, way, BlockBase(g, a), w, n, k);
      OneWordKept(g, before, words, way, k, Word32(memory, BlockBase(g, a) + 4 * k));
    }

    /** The refill loop: from the word fetched to the end of the block and round. */
    method Reload(way: nat, a: Word)
      requires Shape() && way < Slots(g) && a % 4 == 0
      modifies mem
      ensures LineAt(g, mem[..], memory, way, BlockBase(g, a)) && LinesKept(g, old(mem[..]), mem[..], way)
    {
      RefillStart(g, a);
      var reload := And(a, OffsetMask(g));
      var end := reload + BlockSize(g);
      ghost var bs, n := BlockSize(g), 0;
      var w := reload / 4;
      while reload < end
        invariant 0 <= n <= bs / 4 && reload == 4 * w + 4 * n && end == 4 * w + bs
        invariant Refilled(g, mem[..], memory, way, BlockBase(g, a), w, n) && LinesKept(g, old(mem[..]), mem[..], way)
        decreases end - reload
      {
        ReloadNext(way, a, w, (reload - 4 * w) / 4, reload, old(mem[..]));
        reload := reload + 4;
        n := n + 1;
      }
      RefillDone(g, mem[..], memory, way, BlockBase(g, a), w);
    }

    /** `ic_simulate_fetch` with the cache enabled and not inhibited.  A hit changes no tag; a miss
        replaces one line of the set, an empty one if there is one and otherwise the least recently
        used, as long as the counters record recency and there is a state for every way. */
    method Fetch(a: Word) returns (tmp: Word, ghost way: nat)
      requires Coherent() && a % 4 == 0 && BlockBase(g, a) !in stale
      modifies this`used, this`clock, tags, lrus, mem
      ensures Coherent() && tmp == Word32(memory, a)
      ensures way < Slots(g) && way % NSets(g) == SetOf(g, a) && tags[way] == TagOf(g, a)
      ensures tags[..] == old(tags[..])[way := TagOf(g, a)]
      ensures old(Hits(a)) ==> old(tags[way]) == TagOf(g, a)
      ensures old(Recent()) ==> Recent() && used == old(used)[way := clock] && clock == old(clock) + 1
      ensures old(Recent()) && !old(Hits(a)) && g.nways <= g.ustates ==> Oldest(g, old(tags[..]), old(used), way)
    {
      MasksAreDivMod(g, a);
      AddressRebuilt(g, a);
      var q := And(a, SetMask(g)) / BlockSize(g);
      var tag := And(a, TagMask(g));
      var w := Find(q, tag);
      if w >= 0 {
        UseLine(q, w, tag);
        SameBlock(g, a, w);
        assert SlotOk(g, tags[w], mem[..], memory, stale, w);
        assert old(tags[..])[w := tag] == old(tags[..]);
      } else {
        w := FillLine(q, a, tag);
      }
      way := w;
      tmp := ReadLine(w, a);
    }

    /** A hit in slot w. */
    method UseLine(q: nat, w: nat, ghost tag: nat)
      requires Shape() && q < NSets(g) && w < Slots(g) && w % NSets(g) == q && tags[w] == tag
      modifies this`used, this`clock, lrus
      ensures old(Recent()) ==> Recent() && used == old(used)[w := clock] && clock == old(clock) + 1
    {
      ghost var counters, times, now := lrus[..], used, clock;
      TouchSlot(q, w);
      clock := now + 1;
      used := if w < |times| then times[w := clock] else times;
      ghost var touched := lrus[..];
      forall i: nat | i < |counters|
        ensures touched[i] == if i == w then g.ustates - 1
                              else if i % NSets(g) == w % NSets(g) && counters[i] > counters[w] then counters[i] - 1
                              else counters[i]
      {
        assert touched[i] == lrus[i];
      }
      if old(Recent()) {
        R.HitRecent(g.ustates - 1, tags[..], counters, times, now, NSets(g), lrus[..], used, w);
      }
    }

    /** A miss in set q. */
    method FillLine(q: nat, a: Word, ghost tag: nat) returns (w: nat)
      requires Coherent() && a % 4 == 0 && q == SetOf(g, a) && tag == TagOf(g, a)
      modifies this`used, this`clock, tags, lrus, mem
      ensures Coherent() && w < Slots(g) && w % NSets(g) == q && LineAt(g, mem[..], memory, w, BlockBase(g, a))
      ensures tags[..] == old(tags[..])[w := tag]
      ensures old(Recent()) ==> Recent() && used == old(used)[w := clock] && clock == old(clock) + 1
      ensures old(Recent()) && g.nways <= g.ustates ==> Oldest(g, old(tags[..]), old(used), w)
    {
      ghost var before := tags[..];
      w := SelectVictim(q);
      assert Scanned(g, lrus[..], w);
      Replace(w, a);
      assert tags[..] == before[w := tag];
      AgeLine(q, w, before, tag);
    }

    /** The counters once slot w has taken tag. */
    method AgeLine(q: nat, w: nat, ghost before: seq<int>, ghost tag: nat)
      requires Shape() && q < NSets(g) && w < Slots(g) && w % NSets(g) == q && Scanned(g, lrus[..], w)
      requires |before| == Slots(g) && tags[..] == before[w := tag]
      modifies this`used, this`clock, lrus
      ensures old(RecentWith(before)) ==>
                Recent() && used == old(used)[w := clock] && clock == old(clock) + 1
                && (g.nways <= g.ustates ==> Oldest(g, before, old(used), w))
    {
      ghost var counters, times, now := lrus[..], used, clock;
      AgeSlots(q, w);
      clock := now + 1;
      used := if w < |times| then times[w := clock] else times;
      ghost var aged := lrus[..];
      forall i: nat | i < |counters|
        ensures aged[i] == if i == w then g.ustates - 1
                           else if i % NSets(g) == w % NSets(g) && counters[i] > 0 then counters[i] - 1 else counters[i]
      {
        assert aged[i] == lrus[i];
      }
      if old(RecentWith(before)) {
        FillRecent(g, before, counters, times, now, w, tag, aged);
      }
    }

    ghost predicate RecentWith(before: seq<int>)
      requires Shape()
      reads this, lrus
    {
      R.Recent(g.ustates - 1, before, lrus[..], used, clock, NSets(g))
    }

    /** A line of the set of a holds the block of a. */
    ghost predicate Hits(a: Word)
      requires Shape()
      reads tags
    {
      exists s :: 0 <= s < Slots(g) && s % NSets(g) == SetOf(g, a) && tags[s] == TagOf(g, a)
    }

    method ReadLine(way: nat, a: Word) returns (tmp: Word)
      requires Shape() && way < Slots(g) && a % 4 == 0 && LineAt(g, mem[..], memory, way, BlockBase(g, a))
      ensures tmp == Word32(memory, a)
    {
      RefillStart(g, a);
      ReloadIndex(g, way, a);
      LineFits(g, way, a % BlockSize(g) / 4);
      assert WordAt(g, mem[..], memory, way, a % BlockSize(g) / 4, BlockBase(g, a));
      tmp := mem[Or(Shifted(way, Pow2(g.blockBits)), And(a, OffsetMask(g))) / 4];
    }

    /** The victim takes the tag and the block of a. */
    method Replace(way: nat, a: Word)
      requires Coherent() && way < Slots(g) && a % 4 == 0 && way % NSets(g) == SetOf(g, a)
      modifies tags, mem
      ensures Coherent() && tags[way] == TagOf(g, a) && LineAt(g, mem[..], memory, way, BlockBase(g, a))
      ensures forall s :: 0 <= s < Slots(g) && s != way ==> tags[s] == old(tags[s])
    {
      MasksAreDivMod(g, a);
      SameBlock(g, a, way);
      BaseFits(g, a);
      TagMultiple(g, a);
      tags[way] := And(a, TagMask(g));
      Reload(way, a);
      forall s: nat | s < Slots(g) && s != way
        ensures SlotOk(g, tags[s], mem[..], memory, stale, s)
      {
        SlotReloaded(g, tags[s], old(mem[..]), mem[..], memory, stale, s, way);
      }
    }

    /** A store to memory, made by the data side. */
    method Store(a: Word, data: Word, width: int)
      requires Coherent() && Aligned(a, width)
      modifies this`memory, this`stale
      ensures Coherent() && memory == Write(old(memory), a, width, data)
      ensures stale == old(stale) + {BlockBase(g, a)}
    {
      memory := Write(memory, a, width, data);
      stale := stale + {BlockBase(g, a)};
      forall s: nat | s < Slots(g)
        ensures SlotOk(g, tags[s], mem[..], memory, stale, s)
      {
        SlotStored(g, tags[s], mem[..], old(memory), old(stale), s, a, data, width);
      }
    }

    method DropMatching(q: nat, tag: nat)
      requires Shape() && q < NSets(g)
      modifies tags, lrus
      ensures forall s :: 0 <= s < Slots(g) ==>
                tags[s] == (if s % NSets(g) == q && old(tags[s]) == tag then INVALID else old(tags[s]))
      ensures forall s :: 0 <= s < Slots(g) ==>
                lrus[s] == (if s % NSets(g) == q && old(tags[s]) == tag then 0 else old(lrus[s]))
    {
      var w := q;
      FirstWay(q, NSets(g));
      while w < Slots(g)
        invariant w % NSets(g) == q
        invariant forall s :: 0 <= s < Slots(g) ==>
                tags[s] == (if s < w && s % NSets(g) == q && old(tags[s]) == tag then INVALID else old(tags[s]))
        invariant forall s :: 0 <= s < Slots(g) ==>
                lrus[s] == (if s < w && s % NSets(g) == q && old(tags[s]) == tag then 0 else old(lrus[s]))
      {
        if tags[w] == tag {
          tags[w] := INVALID;
          lrus[w] := 0;
        }
        NextWay(w, NSets(g));
        w := w + NSets(g);
      }
    }

    /** `ic_inv` with the cache enabled: every matching line is dropped. */
    method Invalidate(a: Word)
      requires Coherent()
      modifies tags, lrus, this`stale
      ensures Coherent() && stale == old(stale) - {BlockBase(g, a)}
      ensures forall s :: 0 <= s < Slots(g) ==>
                tags[s] == (if s % NSets(g) == SetOf(g, a) && old(tags[s]) == TagOf(g, a) then INVALID else old(tags[s]))
    {
      MasksAreDivMod(g, a);
      AddressRebuilt(g, a);
      var q := And(a, SetMask(g)) / BlockSize(g);
      var tag := And(a, TagMask(g));
      DropMatching(q, tag);
      stale := stale - {BlockBase(g, a)};
      forall s: nat | s < Slots(g)
        ensures SlotOk(g, tags[s], mem[..], memory, stale, s)
      {
        SlotDropped(g, tags[s], mem[..], memory, old(stale), s, a);
      }
    }

    /** Any disciplined run of fetches, stores and invalidations. */
    method Run(ops: seq<Op>) returns (fetched: seq<Word>)
      requires Coherent() && Disciplined(g, stale, ops)
      modifies this`memory, this`stale, this`used, this`clock, tags, lrus, mem
      ensures Coherent() && fetched == FlatFetches(old(memory), ops)
      ensures old(Recent()) && (forall k :: 0 <= k < |ops| ==> !ops[k].InvOp?) ==> Recent()
    {
      fetched := [];
      for i := 0 to |ops|
        invariant Coherent() && Disciplined(g, stale, ops[i..])
        invariant old(Recent()) && (forall k :: 0 <= k < i ==> !ops[k].InvOp?) ==> Recent()
        invariant fetched + FlatFetches(memory, ops[i..]) == FlatFetches(old(memory), ops)
      {
        ghost var rest := ops[i..];
        assert rest[0] == ops[i] && rest[1..] == ops[i + 1..];
        match ops[i]
        case FetchOp(a) =>
          var tmp, way := Fetch(a);
          fetched := fetched + [tmp];
        case StoreOp(a, data, width) =>
          Store(a, data, width);
        case InvOp(a) =>
          Invalidate(a);
      }
    }
  }

  lemma {:induction false} ReloadOffset(bs: nat, w: nat, n: nat)
    requires (bs == 16 || bs == 32) && w < bs / 4 && n < bs / 4
    ensures (4 * w + 4 * n) % bs == 4 * WrapWord(bs, w, n)
  {
    if bs == 16 {
      Wrapped16(0, w, 0, n);
    } else {
      Wrapped32(0, w, 0, n);
    }
  }

  lemma {:induction false} RefillStart(g: Geometry, a: Word)
    requires Usable(g) && a % 4 == 0
    ensures var x := And(a, OffsetMask(g)); x == 4 * (x / 4) == a % BlockSize(g)
  {
    BlockMasksAreMod(g, a);
    WordStart(BlockSize(g), a);
  }

  lemma {:induction false} WordStart(bs: nat, a: nat)
    requires (bs == 16 || bs == 32) && a % 4 == 0
    ensures a % bs == 4 * (a % bs / 4)
  {
    if bs == 16 {
      var u, v, r := Parts16(a);
    } else {
      var u, v, r := Parts32(a);
    }
  }

  lemma {:induction false} FirstWay(q: nat, n: nat)
    requires q < n
    ensures q % n == q
    ensures forall s: int {:trigger s % n} :: 0 <= s < q ==> s % n != q
  {
    ModUnique(q, n, 0, q);
    forall s: int | 0 <= s < q
      ensures s % n != q
    {
      ModUnique(s, n, 0, s);
    }
  }

  /** The next slot of the same set is n further on. */
  lemma {:induction false} NextWay(w: nat, n: nat)
    requires n > 0
    ensures (w + n) % n == w % n
    ensures forall s: int {:trigger s % n} :: w < s < w + n ==> s % n != w % n
  {
    var t, q := w / n, w % n;
    assert w == t * n + q;
    ModUnique(w + n, n, t + 1, q);
    forall s: int | w < s < w + n
      ensures s % n != q
    {
      if s < t * n + n {
        ModUnique(s, n, t, s - t * n);
      } else {
        ModUnique(s, n, t + 1, s - t * n - n);
      }
    }
  }
}
