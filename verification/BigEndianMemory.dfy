/** Big-endian 8, 16 and 32-bit accesses of the memory controllers, and the lanes
    of a cached word that a narrow access selects.  A shift by 8k followed by a
    mask is division by 256^k and a remainder; ORing a value into a cleared lane
    adds it. */
module BigEndianMemory {
  import opened Words
  import opened ByteMemory

  function Join(b0: Byte, b1: Byte, b2: Byte, b3: Byte): Word
  {
    ((b0 * 0x100 + b1) * 0x100 + b2) * 0x100 + b3
  }

  /** `evalsim_mem32` */
  function Word32(m: Memory, a: int): Word
  {
    Join(Load8(m, a), Load8(m, a + 1), Load8(m, a + 2), Load8(m, a + 3))
  }

  /** `evalsim_mem8`, `evalsim_mem16`, `evalsim_mem32` */
  function FlatRead(m: Memory, a: int, width: int): Word
  {
    if width == 4 then Word32(m, a)
    else if width == 2 then Join(0, 0, Load8(m, a), Load8(m, a + 1))
    else Join(0, 0, 0, Load8(m, a))
  }

  /** `tmp >> (8 * (3 - r))`, masked to one byte. */
  function Lane(tmp: Word, r: int): Byte
  {
    if r == 0 then tmp / 0x100_0000
    else if r == 1 then tmp / 0x1_0000 % 0x100
    else if r == 2 then tmp / 0x100 % 0x100
    else tmp % 0x100
  }

  /** What an access at offset r (modulo 4) reads of a cached word. */
  function Extract(tmp: Word, r: int, width: int): Word
  {
    if width == 4 then tmp
    else if width == 2 then (if r >= 2 then tmp % 0x1_0000 else tmp / 0x1_0000)
    else Lane(tmp, r)
  }

  /** The cached word after a narrow write into the lane at offset r. */
  function Insert(tmp: Word, data: Word, r: int, width: int): Word
  {
    if width == 4 then data
    else if width == 2 then
      if r >= 2 then tmp - tmp % 0x1_0000 + data % 0x1_0000
      else tmp % 0x1_0000 + data % 0x1_0000 * 0x1_0000
    else if r == 0 then tmp - Lane(tmp, 0) * 0x100_0000 + data % 0x100 * 0x100_0000
    else if r == 1 then tmp - Lane(tmp, 1) * 0x1_0000 + data % 0x100 * 0x1_0000
    else if r == 2 then tmp - Lane(tmp, 2) * 0x100 + data % 0x100 * 0x100
    else tmp - Lane(tmp, 3) + data % 0x100
  }

  /** Naturally aligned 1, 2 and 4-byte accesses. */
  predicate Aligned(a: int, width: int)
  {
    0 <= a < WORD && (width == 1 || (width == 2 && a % 2 == 0) || (width == 4 && a % 4 == 0))
  }

  lemma {:induction false} Halves(b0: Byte, b1: Byte, b2: Byte, b3: Byte)
    ensures var j := Join(b0, b1, b2, b3); j / 0x1_0000 == b0 * 0x100 + b1 && j % 0x1_0000 == b2 * 0x100 + b3
  {
    var hi, lo := b0 * 0x100 + b1, b2 * 0x100 + b3;
    assert Join(b0, b1, b2, b3) == hi * 0x1_0000 + lo;
  }

  lemma {:induction false} OuterLanes(b0: Byte, b1: Byte, b2: Byte, b3: Byte)
    ensures var j := Join(b0, b1, b2, b3); Lane(j, 0) == b0 && Lane(j, 3) == b3
  {
    var rest, top := b1 * 0x1_0000 + b2 * 0x100 + b3, b0 * 0x1_0000 + b1 * 0x100 + b2;
    assert Join(b0, b1, b2, b3) == b0 * 0x100_0000 + rest == top * 0x100 + b3;
  }

  lemma {:induction false} InnerLanes(b0: Byte, b1: Byte, b2: Byte, b3: Byte)
    ensures var j := Join(b0, b1, b2, b3); Lane(j, 1) == b1 && Lane(j, 2) == b2
  {
    var j, hi := Join(b0, b1, b2, b3), b0 * 0x100 + b1;
    Halves(b0, b1, b2, b3);
    assert j == (hi * 0x100 + b2) * 0x100 + b3;
    assert j / 0x100 == hi * 0x100 + b2;
  }

  lemma {:induction false} Lanes(b0: Byte, b1: Byte, b2: Byte, b3: Byte)
    ensures var j := Join(b0, b1, b2, b3);
            && Lane(j, 0) == b0 && Lane(j, 1) == b1 && Lane(j, 2) == b2 && Lane(j, 3) == b3
            && j / 0x1_0000 == b0 * 0x100 + b1 && j % 0x1_0000 == b2 * 0x100 + b3
  {
    Halves(b0, b1, b2, b3);
    OuterLanes(b0, b1, b2, b3);
    InnerLanes(b0, b1, b2, b3);
  }

  lemma {:induction false} ExtractIsFlatRead(m: Memory, a: int, width: int)
    requires Aligned(a, width)
    ensures Extract(Word32(m, a - a % 4), a % 4, width) == FlatRead(m, a, width)
  {
    var w := a - a % 4;
    Lanes(Load8(m, w), Load8(m, w + 1), Load8(m, w + 2), Load8(m, w + 3));
  }

  /** n is m with the bytes of one access replaced. */
  ghost predicate Written(m: Memory, n: Memory, a: int, width: int, data: Word)
  {
    forall x: Word :: Load8(n, x) == if a <= x < a + width then ByteOf(data, width, x - a) else Load8(m, x)
  }

  lemma {:induction false} WriteIsWritten(m: Memory, a: int, width: int, data: Word)
    requires 0 <= a && 1 <= width && a + width <= WORD
    ensures Written(m, Write(m, a, width, data), a, width, data)
  {
    forall x: Word
      ensures Load8(Write(m, a, width, data), x) == if a <= x < a + width then ByteOf(data, width, x - a) else Load8(m, x)
    {
      WrittenByte(m, a, width, data, x);
    }
  }

  /** Inserting into a joined word replaces the accessed bytes. */
  lemma {:induction false} InsertJoin(b0: Byte, b1: Byte, b2: Byte, b3: Byte, data: Word, r: int)
    requires 0 <= r < 4
    ensures var v: Byte := data % 0x100;
            Insert(Join(b0, b1, b2, b3), data, r, 1) ==
            Join(if r == 0 then v else b0, if r == 1 then v else b1, if r == 2 then v else b2, if r == 3 then v else b3)
  {
    Lanes(b0, b1, b2, b3);
  }

  lemma {:induction false} InsertJoinHalf(b0: Byte, b1: Byte, b2: Byte, b3: Byte, data: Word)
    ensures var v: Byte, w: Byte := data / 0x100 % 0x100, data % 0x100;
            && Insert(Join(b0, b1, b2, b3), data, 0, 2) == Join(v, w, b2, b3)
            && Insert(Join(b0, b1, b2, b3), data, 2, 2) == Join(b0, b1, v, w)
  {
    Halves(b0, b1, b2, b3);
    assert data % 0x1_0000 == data / 0x100 % 0x100 * 0x100 + data % 0x100;
  }

  lemma {:induction false} InsertWritten(m: Memory, n: Memory, w: int, r: int, data: Word, width: int)
    requires 0 <= w <= WORD - 4 && Written(m, n, w + r, width, data)
    requires (width == 1 && 0 <= r < 4) || (width == 2 && (r == 0 || r == 2)) || (width == 4 && r == 0)
    ensures Insert(Word32(m, w), data, r, width) == Word32(n, w)
  {
    var b0, b1, b2, b3 := Load8(m, w), Load8(m, w + 1), Load8(m, w + 2), Load8(m, w + 3);
    if width == 4 {
      WordBytes(data);
    } else if width == 2 {
      InsertJoinHalf(b0, b1, b2, b3, data);
    } else {
      InsertJoin(b0, b1, b2, b3, data, r);
    }
  }

  lemma {:induction false} WordBytes(d: Word)
    ensures Join(ByteOf(d, 4, 0), ByteOf(d, 4, 1), ByteOf(d, 4, 2), ByteOf(d, 4, 3)) == d
  {
    assert d / 0x1_0000 == d / 0x100_0000 * 0x100 + d / 0x1_0000 % 0x100;
    assert d / 0x100 == d / 0x1_0000 * 0x100 + d / 0x100 % 0x100;
  }

  lemma {:induction false} InsertIsFlatWrite(m: Memory, a: int, data: Word, width: int)
    requires Aligned(a, width)
    ensures Insert(Word32(m, a - a % 4), data, a % 4, width) == Word32(Write(m, a, width, data), a - a % 4)
  {
    WriteIsWritten(m, a, width, data);
    InsertWritten(m, Write(m, a, width, data), a - a % 4, a % 4, data, width);
  }

  /** Every other word keeps its value. */
  lemma {:induction false} OtherWords(m: Memory, a: int, data: Word, width: int, w: int)
    requires Aligned(a, width) && w % 4 == 0 && w != a - a % 4 && 0 <= w < WORD
    ensures Word32(Write(m, a, width, data), w) == Word32(m, w)
  {
    WriteIsWritten(m, a, width, data);
    var n := Write(m, a, width, data);
    OutsideWord(a, width, w);
    assert Load8(n, w) == Load8(m, w) && Load8(n, w + 1) == Load8(m, w + 1);
    assert Load8(n, w + 2) == Load8(m, w + 2) && Load8(n, w + 3) == Load8(m, w + 3);
  }

  /** An aligned access lies within one word. */
  lemma {:induction false} FitsWord(a: int, width: int)
    requires Aligned(a, width)
    ensures a % 4 + width <= 4
  {
    var v, r := a / 4, a % 4;
    if width == 2 {
      assert (4 * v + r) % 2 == r % 2;
    }
  }

  lemma {:induction false} OutsideWord(a: int, width: int, w: int)
    requires Aligned(a, width) && w % 4 == 0 && w != a - a % 4 && 0 <= w < WORD
    ensures w + 4 <= WORD && (w + 4 <= a || a + width <= w)
  {
    FitsWord(a, width);
    WordsApart(w / 4, a / 4, a % 4, width);
  }

  lemma {:induction false} WordsApart(u: nat, v: nat, r: nat, width: int)
    requires u != v && r + width <= 4
    ensures 4 * u + 4 <= 4 * v + r || 4 * v + r + width <= 4 * u
  {
  }
}
