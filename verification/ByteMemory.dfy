/** Byte memory shared by the compiler models: addresses wrap at 2^32. */
module ByteMemory {
  import opened Words

  type Byte = b: int | 0 <= b < 0x100

  /** Bytes never written are zero. */
  type Memory = map<int, Byte>

  function Load8(m: Memory, a: int): Byte { if a in m then m[a] else 0 }

  /** The address of byte k of an access at a. */
  function Cell(a: int, k: int): Word { (a + k) % WORD }

  /** The number of the byte at address x in an access at a. */
  function Offset(x: int, a: int): int { (x - a) % WORD }

  /** The addresses of an access of w bytes at a. */
  function Touched(a: Word, w: nat): set<int>
  {
    set k | 0 <= k < w :: Cell(a, k)
  }

  function Read(m: Memory, a: Word, w: nat): seq<Byte>
  {
    seq(w, k requires 0 <= k < w => Load8(m, Cell(a, k)))
  }

  /** Sign or zero extension of the bytes of a load. */
  function Extend(bytes: seq<Byte>, signed: bool): Word
  {
    var raw := BigEndian(bytes) % WORD;
    if signed && |bytes| == 1 && raw >= 0x80 then (raw + WORD - 0x100) % WORD
    else if signed && |bytes| == 2 && raw >= 0x8000 then (raw + WORD - 0x1_0000) % WORD
    else raw
  }

  function BigEndian(bytes: seq<Byte>): int
  {
    if bytes == [] then 0 else BigEndian(bytes[..|bytes| - 1]) * 0x100 + bytes[|bytes| - 1]
  }

  /** Byte number k, most significant first, of a w-byte value. */
  function ByteOf(v: Word, w: nat, k: int): Byte
  {
    if w == 1 then v % 0x100
    else if w == 2 then (if k == 0 then v / 0x100 % 0x100 else v % 0x100)
    else if k == 0 then v / 0x100_0000
    else if k == 1 then v / 0x1_0000 % 0x100
    else if k == 2 then v / 0x100 % 0x100
    else v % 0x100
  }

  function Write(m: Memory, a: Word, w: nat, v: Word): Memory
  {
    m + map x: int | x in Touched(a, w) :: ByteOf(v, w, Offset(x, a))
  }

  lemma {:induction false} WritesCommute(m: Memory, a: Word, aw: nat, v: Word, b: Word, bw: nat, u: Word)
    requires Touched(a, aw) !! Touched(b, bw)
    ensures Write(Write(m, a, aw, v), b, bw, u) == Write(Write(m, b, bw, u), a, aw, v)
  {
  }

  lemma {:induction false} ReadOverWrite(m: Memory, a: Word, aw: nat, b: Word, bw: nat, u: Word)
    requires Touched(a, aw) !! Touched(b, bw)
    ensures Read(Write(m, b, bw, u), a, aw) == Read(m, a, aw)
  {
    forall k | 0 <= k < aw
      ensures Load8(Write(m, b, bw, u), Cell(a, k)) == Load8(m, Cell(a, k))
    {
      assert Cell(a, k) in Touched(a, aw);
    }
  }

  /** Away from the top of the address space a write changes its own bytes only. */
  lemma {:induction false} WrittenByte(m: Memory, a: Word, w: nat, v: Word, x: Word)
    requires a + w <= WORD
    ensures Load8(Write(m, a, w, v), x) == if a <= x < a + w then ByteOf(v, w, x - a) else Load8(m, x)
  {
    forall k | 0 <= k < w
      ensures Cell(a, k) == a + k
    {
    }
    if a <= x < a + w {
      assert x == Cell(a, x - a) && x in Touched(a, w);
      assert Offset(x, a) == x - a;
    }
  }
}
