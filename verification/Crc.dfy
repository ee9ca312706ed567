/** The CRC of the JTAG debug protocol (debug/jtag.c), over the polynomial of section
    3.2.9 of IEEE 802.3. */
module Crc {
  import B = Bits
  import opened BitStrings

  type Register = r: BitString | |r| == 32 witness Zeros(32)

  /** A polynomial with its x^32 term left out and its constant term present. */
  type Poly = p: BitString | |p| == 32 && p[0] witness Ones(32)

  /** 0x04c11db7: x^32 + x^26 + x^23 + x^22 + x^16 + x^12 + x^11 + x^10 + x^8 + x^7 +
      x^5 + x^4 + x^2 + x + 1, lowest term first. */
  const POLY: Poly :=
    [true, true, true, false, true, true, false, true,
     true, false, true, true, true, false, false, false,
     true, false, false, false, false, false, true, true,
     false, false, true, false, false, false, false, false]

  /** One turn of the loop in `crc32` for data bit d. */
  function Step(p: Poly, r: Register, d: bool): Register
  {
    var shifted := Shl(r, 1, 32);
    if d != r[31] then Xor(shifted, p) else shifted
  }

  /** The CRC of a message shifted in from its first bit on. */
  function Feed(p: Poly, r: Register, bits: seq<bool>): Register
    decreases |bits|
  {
    if bits == [] then r else Feed(p, Step(p, r, bits[0]), bits[1..])
  }

  /** The first bit to be shifted is the most significant. */
  function Msb(x: BitString): seq<bool> { Reverse(x) }

  // ------------------------------------------------- the step is a bijection

  /** The register before a step that took in d and gave r. */
  function Unstep(p: Poly, r: Register, d: bool): Register
  {
    var before := Shr(if r[0] then Xor(r, p) else r, 1, 32);
    before[31 := r[0] != d]
  }

  lemma {:induction false} StepBit(p: Poly, r: Register, d: bool, j: nat)
    requires j < 32
    ensures Step(p, r, d)[j] == ((j > 0 && r[j - 1]) != ((d != r[31]) && p[j]))
  {
  }

  lemma {:induction false} UnstepBit(p: Poly, r: Register, d: bool, j: nat)
    requires j < 32
    ensures Unstep(p, r, d)[j] == (if j == 31 then r[0] != d else r[j + 1] != (r[0] && p[j + 1]))
  {
    var x := if r[0] then Xor(r, p) else r;
    if j < 31 {
      assert Shr(x, 1, 32)[j] == Bit(x, j + 1) == x[j + 1];
    }
  }

  /** For a fixed input bit, stepping and unstepping are inverse to each other. */
  lemma {:induction false} StepBijective(p: Poly, r: Register, d: bool)
    ensures Unstep(p, Step(p, r, d), d) == r
    ensures Step(p, Unstep(p, r, d), d) == r
  {
    var s, u := Step(p, r, d), Unstep(p, r, d);
    StepBit(p, r, d, 0);
    UnstepBit(p, r, d, 31);
    forall j: nat | j < 32
      ensures Unstep(p, s, d)[j] == r[j]
    {
      UnstepBit(p, s, d, j);
      if j < 31 {
        StepBit(p, r, d, j + 1);
      }
    }
    forall j: nat | j < 32
      ensures Step(p, u, d)[j] == r[j]
    {
      StepBit(p, u, d, j);
      if j > 0 {
        UnstepBit(p, r, d, j - 1);
      }
    }
  }

  /** A message can be chained: its CRC continues from the CRC of its first part. */
  lemma {:induction false} FeedChained(p: Poly, r: Register, a: seq<bool>, b: seq<bool>)
    ensures Feed(p, r, a + b) == Feed(p, Feed(p, r, a), b)
    decreases |a|
  {
    if a == [] {
      assert a + b == b;
    } else {
      FeedChained(p, Step(p, r, a[0]), a[1..], b);
      assert (a + b)[0] == a[0] && (a + b)[1..] == a[1..] + b;
    }
  }

  /** The message decides the register: different registers stay different. */
  lemma {:induction false} FeedInjective(p: Poly, r: Register, s: Register, bits: seq<bool>)
    requires Feed(p, r, bits) == Feed(p, s, bits)
    ensures r == s
    decreases |bits|
  {
    if bits != [] {
      FeedInjective(p, Step(p, r, bits[0]), Step(p, s, bits[0]), bits[1..]);
      StepBijective(p, r, bits[0]);
      StepBijective(p, s, bits[0]);
    }
  }

  // ------------------------------------------------------ burst error detection

  /** The difference of two registers evolves like a register fed with the difference
      of the messages. */
  function Diff(r: BitString, s: BitString): (d: BitString)
    requires |r| == |s|
    ensures |d| == |r|
  {
    Xor(r, s)
  }

  lemma {:induction false} StepLinear(p: Poly, r: Register, s: Register, c: bool, d: bool)
    ensures Diff(Step(p, r, c), Step(p, s, d)) == Step(p, Diff(r, s), c != d)
  {
    var t, x, y, z := Diff(r, s), Step(p, r, c), Step(p, s, d), Step(p, Diff(r, s), c != d);
    forall j: nat | j < 32
      ensures Diff(x, y)[j] == z[j]
    {
      StepBit(p, r, c, j);
      StepBit(p, s, d, j);
      StepBit(p, t, c != d, j);
    }
  }

  lemma {:induction false} FeedLinear(p: Poly, r: Register, s: Register, a: seq<bool>, b: seq<bool>)
    requires |a| == |b|
    ensures Diff(Feed(p, r, a), Feed(p, s, b)) == Feed(p, Diff(r, s), Diff(a, b))
    decreases |a|
  {
    if a != [] {
      StepLinear(p, r, s, a[0], b[0]);
      FeedLinear(p, Step(p, r, a[0]), Step(p, s, b[0]), a[1..], b[1..]);
      assert Diff(a, b)[1..] == Diff(a[1..], b[1..]);
    }
  }

  /** Only the top m bits may be set. */
  predicate TopOnly(r: Register, m: nat) { forall j :: 0 <= j < 32 - m ==> !r[j] }

  /** Going back from zero, each step brings in one bit at the top. */
  lemma {:induction false} BackFromZero(p: Poly, r: Register, bits: seq<bool>)
    requires |bits| <= 31 && Feed(p, r, bits) == Zeros(32)
    ensures TopOnly(r, |bits|)
    decreases |bits|
  {
    if bits != [] {
      var s := Step(p, r, bits[0]);
      BackFromZero(p, s, bits[1..]);
      StepBijective(p, r, bits[0]);
      forall j: nat | j < 32 - |bits|
        ensures !r[j]
      {
        UnstepBit(p, s, bits[0], j);
      }
    }
  }

  /** A nonzero burst of up to 32 bits never leaves the zero register. */
  lemma {:induction false} BurstNonzero(p: Poly, bits: seq<bool>)
    requires |bits| <= 32 && exists i :: 0 <= i < |bits| && bits[i]
    ensures Feed(p, Zeros(32), bits) != Zeros(32)
    decreases |bits|
  {
    var z := Zeros(32);
    if bits[0] {
      StepBit(p, z, true, 0);
      if Feed(p, z, bits) == z {
        BackFromZero(p, Step(p, z, true), bits[1..]);
      }
    } else {
      StepZero(p);
      var i :| 0 <= i < |bits| && bits[i];
      assert bits[1..][i - 1];
      BurstNonzero(p, bits[1..]);
    }
  }

  lemma {:induction false} DiffZero(r: BitString, s: BitString)
    requires |r| == |s|
    ensures Diff(r, s) == Zeros(|r|) <==> r == s
  {
    if r != s {
      var j :| 0 <= j < |r| && r[j] != s[j];
      assert Diff(r, s)[j];
    }
  }

  lemma {:induction false} BurstSeparates(p: Poly, e: Register, a: seq<bool>, b: seq<bool>)
    requires |a| == |b| <= 32 && a != b
    ensures Feed(p, e, a) != Feed(p, e, b)
  {
    if Feed(p, e, a) == Feed(p, e, b) {
      FeedLinear(p, e, e, a, b);
      DiffZero(e, e);
      DiffZero(Feed(p, e, a), Feed(p, e, b));
      var i :| 0 <= i < |a| && a[i] != b[i];
      assert Diff(a, b)[i];
      BurstNonzero(p, Diff(a, b));
    }
  }

  lemma {:induction false} FeedThree(p: Poly, r: Register, a: seq<bool>, b: seq<bool>, c: seq<bool>)
    ensures Feed(p, r, a + b + c) == Feed(p, Feed(p, Feed(p, r, a), b), c)
  {
    FeedChained(p, r, a + b, c);
    FeedChained(p, r, a, b);
  }

  /** Two messages of equal length that differ only within a window of at most 32 bits
      have different CRCs, whatever precedes and follows the window. */
  lemma {:induction false} BurstDetected(p: Poly, r: Register, before: seq<bool>, a: seq<bool>, b: seq<bool>, after: seq<bool>)
    requires |a| == |b| <= 32 && a != b
    ensures Feed(p, r, before + a + after) != Feed(p, r, before + b + after)
  {
    var e := Feed(p, r, before);
    FeedThree(p, r, before, a, after);
    FeedThree(p, r, before, b, after);
    BurstSeparates(p, e, a, b);
    if Feed(p, Feed(p, e, a), after) == Feed(p, Feed(p, e, b), after) {
      FeedInjective(p, Feed(p, e, a), Feed(p, e, b), after);
    }
  }

  lemma {:induction false} StepOwn(p: Poly, r: Register, k: nat)
    requires k < 32
    ensures Step(p, Shl(r, k, 32), r[31 - k]) == Shl(r, k + 1, 32)
  {
    var s, u := Shl(r, k, 32), Shl(r, k + 1, 32);
    assert s[31] == r[31 - k];
    forall j: nat | j < 32
      ensures Step(p, s, r[31 - k])[j] == u[j]
    {
      StepBit(p, s, r[31 - k], j);
    }
  }

  /** A register fed its own bits is emptied. */
  lemma {:induction false} FeedOwn(p: Poly, r: Register, k: nat)
    requires k <= 32
    ensures Feed(p, Shl(r, k, 32), Msb(r)[k..]) == Zeros(32)
    decreases 32 - k
  {
    var own := Msb(r)[k..];
    if k < 32 {
      StepOwn(p, r, k);
      assert own[0] == r[31 - k] && own[1..] == Msb(r)[k + 1..];
      FeedOwn(p, r, k + 1);
    } else {
      assert Shl(r, k, 32) == Zeros(32);
    }
  }

  /** The bound is exact: some burst of 33 bits goes unnoticed. */
  lemma {:induction false} BurstLimit(p: Poly)
    ensures var burst := [true] + Msb(p); |burst| == 33 && Feed(p, Zeros(32), burst) == Feed(p, Zeros(32), Zeros(33))
  {
    var burst, z := [true] + Msb(p), Zeros(32);
    StepZero(p);
    assert Shl(p, 0, 32) == p;
    assert burst[1..] == Msb(p) == Msb(p)[0..];
    FeedOwn(p, p, 0);
    NothingFed(p, 33);
  }

  lemma {:induction false} StepZero(p: Poly)
    ensures Step(p, Zeros(32), true) == p && Step(p, Zeros(32), false) == Zeros(32)
  {
    forall j: nat | j < 32
      ensures Step(p, Zeros(32), true)[j] == p[j] && !Step(p, Zeros(32), false)[j]
    {
      StepBit(p, Zeros(32), true, j);
      StepBit(p, Zeros(32), false, j);
    }
  }

  lemma {:induction false} NothingFed(p: Poly, n: nat)
    ensures Feed(p, Zeros(32), Zeros(n)) == Zeros(32)
  {
    if n > 0 {
      StepZero(p);
      assert Zeros(n)[1..] == Zeros(n - 1);
      NothingFed(p, n - 1);
    }
  }

  // ------------------------------------------------------------------ the loop

  /** The source masks with 28 ones, not 32; the polynomial has no higher bits. */
  lemma {:induction false} MaskSuffices()
    ensures Keep(POLY, 0, 28) == POLY
  {
  }

  /** `crc32`: the CRC of the low bits of value, most significant first. */
  method Crc32(value: BitString, numBits: nat, crcIn: Register) returns (crc: Register)
    requires numBits <= |value|
    ensures crc == Feed(POLY, crcIn, Msb(value[..numBits]))
  {
    crc := crcIn;
    var i: int := numBits - 1;
    ghost var bits := Msb(value[..numBits]);
    while i >= 0
      invariant -1 <= i < numBits && Feed(POLY, crc, bits[numBits - 1 - i..]) == Feed(POLY, crcIn, bits)
    {
      ghost var k := numBits - 1 - i;
      assert bits[k..][0] == bits[k] == value[i] && bits[k..][1..] == bits[k + 1..];
      crc := CrcTurn(crc, value[i]);
      i := i - 1;
    }
  }

  method CrcTurn(crc: Register, bit: bool) returns (next: Register)
    ensures next == Step(POLY, crc, bit)
  {
    var d := if bit then Keep(Ones(32), 0, 28) else Zeros(32);
    var t := if crc[31] then Keep(Ones(32), 0, 28) else Zeros(32);
    var mask := Xor(d, t);
    next := Xor(Shl(crc, 1, 32), seq(32, j requires 0 <= j < 32 => mask[j] && POLY[j]));
    MaskedStep(crc, bit, next);
  }

  lemma {:induction false} MaskedStep(r: Register, d: bool, next: BitString)
    requires |next| == 32
    requires forall j :: 0 <= j < 32 ==>
               next[j] == (Shl(r, 1, 32)[j] != ((d != r[31]) && j < 28 && POLY[j]))
    ensures next == Step(POLY, r, d)
  {
    MaskSuffices();
    forall j | 0 <= j < 32
      ensures next[j] == Step(POLY, r, d)[j]
    {
      assert Keep(POLY, 0, 28)[j] == POLY[j];
    }
  }
}
