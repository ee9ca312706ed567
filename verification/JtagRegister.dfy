/** The byte buffer of a JTAG register, read as the stream of bits in the order they
    are shifted: least significant bit of byte 0 first. */
module JtagRegister {
  import opened BitStrings
  import opened Crc

  type Byte = b: BitString | |b| == 8 witness Zeros(8)

  function Stream(j: seq<Byte>): (s: seq<bool>)
    ensures |s| == 8 * |j|
  {
    seq(8 * |j|, k requires 0 <= k < 8 * |j| => j[k / 8][k % 8])
  }

  lemma {:induction false} StreamAt(j: seq<Byte>, b: nat, m: nat)
    requires b < |j| && m < 8
    ensures Stream(j)[8 * b + m] == j[b][m]
  {
  }

  // ------------------------------------------------------------------- fields

  /** `(j[b] & 0xe0) >> 5 | j[b+1] << 3 | ... | (j[b+4] & 0x1f) << 27`. */
  function Word5(j: seq<Byte>, b: nat): (x: BitString)
    requires b + 5 <= |j|
    ensures |x| == 32
  {
    Or(Or(Or(Or(Shr(Keep(j[b], 5, 8), 5, 32), Shl(j[b + 1], 3, 32)), Shl(j[b + 2], 11, 32)),
          Shl(j[b + 3], 19, 32)), Shl(Keep(j[b + 4], 0, 5), 27, 32))
  }

  lemma {:induction false} Word5Is(j: seq<Byte>, b: nat)
    requires b + 5 <= |j|
    ensures Word5(j, b) == Stream(j)[8 * b + 5..8 * b + 37]
  {
    var x, y := Word5(j, b), Stream(j)[8 * b + 5..8 * b + 37];
    forall t: nat | t < 32
      ensures x[t] == y[t]
    {
      var q, m := (5 + t) / 8, (5 + t) % 8;
      StreamAt(j, b + q, m);
      assert 8 * b + 5 + t == 8 * (b + q) + m;
      assert y[t] == j[b + q][m];
    }
  }

  /** `(j[b] & 0xfe) >> 1 | j[b+1] << 7 | ... | (j[b+4] & 0x01) << 31`. */
  function Word1(j: seq<Byte>, b: nat): (x: BitString)
    requires b + 5 <= |j|
    ensures |x| == 32
  {
    Or(Or(Or(Or(Shr(Keep(j[b], 1, 8), 1, 32), Shl(j[b + 1], 7, 32)), Shl(j[b + 2], 15, 32)),
          Shl(j[b + 3], 23, 32)), Shl(Keep(j[b + 4], 0, 1), 31, 32))
  }

  lemma {:induction false} Word1Is(j: seq<Byte>, b: nat)
    requires b + 5 <= |j|
    ensures Word1(j, b) == Stream(j)[8 * b + 1..8 * b + 33]
  {
    var x, y := Word1(j, b), Stream(j)[8 * b + 1..8 * b + 33];
    forall t: nat | t < 32
      ensures x[t] == y[t]
    {
      var q, m := (1 + t) / 8, (1 + t) % 8;
      StreamAt(j, b + q, m);
      assert 8 * b + 1 + t == 8 * (b + q) + m;
      assert y[t] == j[b + q][m];
    }
  }

  function Half1(j: seq<Byte>, b: nat): (x: BitString)
    requires b + 3 <= |j|
    ensures |x| == 16
  {
    Or(Or(Shr(Keep(j[b], 1, 8), 1, 16), Shl(j[b + 1], 7, 16)), Shl(Keep(j[b + 2], 0, 1), 15, 16))
  }

  lemma {:induction false} Half1Is(j: seq<Byte>, b: nat)
    requires b + 3 <= |j|
    ensures Half1(j, b) == Stream(j)[8 * b + 1..8 * b + 17]
  {
    var x, y := Half1(j, b), Stream(j)[8 * b + 1..8 * b + 17];
    forall t: nat | t < 16
      ensures x[t] == y[t]
    {
      var q, m := (1 + t) / 8, (1 + t) % 8;
      StreamAt(j, b + q, m);
      assert 8 * b + 1 + t == 8 * (b + q) + m;
      assert y[t] == j[b + q][m];
    }
  }

  /** `(j[b] & 0xe0) >> 5 | (j[b+1] & 0x1f) << 3`, a byte at bit offset 5. */
  function Byte5(j: seq<Byte>, b: nat): (x: BitString)
    requires b + 2 <= |j|
    ensures |x| == 8
  {
    Or(Shr(Keep(j[b], 5, 8), 5, 8), Shl(Keep(j[b + 1], 0, 5), 3, 8))
  }

  lemma {:induction false} Byte5Is(j: seq<Byte>, b: nat)
    requires b + 2 <= |j|
    ensures Byte5(j, b) == Stream(j)[8 * b + 5..8 * b + 13]
    ensures Or(Shr(j[b], 5, 8), Shl(j[b + 1], 3, 8)) == Byte5(j, b)
  {
    var x, y := Byte5(j, b), Stream(j)[8 * b + 5..8 * b + 13];
    forall t: nat | t < 8
      ensures x[t] == y[t]
    {
      var q, m := (5 + t) / 8, (5 + t) % 8;
      StreamAt(j, b + q, m);
      assert 8 * b + 5 + t == 8 * (b + q) + m;
      assert y[t] == j[b + q][m];
    }
  }

  /** `(j[0] & 0xe0) >> 5 | (j[1] & 0x01) << 3`. */
  function Nibble5(j: seq<Byte>): (x: BitString)
    requires 2 <= |j|
    ensures |x| == 4
  {
    Or(Shr(Keep(j[0], 5, 8), 5, 4), Shl(Keep(j[1], 0, 1), 3, 4))
  }

  lemma {:induction false} Nibble5Is(j: seq<Byte>)
    requires 2 <= |j|
    ensures Nibble5(j) == Stream(j)[5..9]
  {
    var x, y := Nibble5(j), Stream(j)[5..9];
    forall t: nat | t < 4
      ensures x[t] == y[t]
    {
      var q, m := (5 + t) / 8, (5 + t) % 8;
      StreamAt(j, q, m);
      assert 5 + t == 8 * (q) + m;
      assert y[t] == j[q][m];
    }
  }

  function Nibble1(j: seq<Byte>): (x: BitString)
    requires 1 <= |j|
    ensures |x| == 4
  {
    Keep(Shr(j[0], 1, 4), 0, 4)
  }

  lemma {:induction false} Nibble1Is(j: seq<Byte>)
    requires 1 <= |j|
    ensures Nibble1(j) == Stream(j)[1..5]
  {
    var x, y := Nibble1(j), Stream(j)[1..5];
    forall t: nat | t < 4
      ensures x[t] == y[t]
    {
      var q, m := (1 + t) / 8, (1 + t) % 8;
      StreamAt(j, q, m);
      assert 1 + t == 8 * (q) + m;
      assert y[t] == j[q][m];
    }
  }

  /** The 52 data bits of WRITE_CONTROL. */
  function Data52(j: seq<Byte>): (x: BitString)
    requires 8 <= |j|
    ensures |x| == 52
  {
    Or(Or(Or(Or(Or(Or(Or(Shr(Keep(j[0], 5, 8), 5, 52), Shl(j[1], 3, 52)), Shl(j[2], 11, 52)), Shl(j[3], 19, 52)),
                Shl(j[4], 27, 52)), Shl(j[5], 35, 52)), Shl(j[6], 43, 52)), Shl(Keep(j[7], 0, 1), 51, 52))
  }

  lemma {:induction false} Data52Is(j: seq<Byte>)
    requires 8 <= |j|
    ensures Data52(j) == Stream(j)[5..57]
  {
    var x, y := Data52(j), Stream(j)[5..57];
    forall t: nat | t < 52
      ensures x[t] == y[t]
    {
      var q, m := (5 + t) / 8, (5 + t) % 8;
      StreamAt(j, q, m);
      assert 5 + t == 8 * (q) + m;
      assert y[t] == j[q][m];
    }
  }

  /** `reverse_bits` of an n-bit field. */
  function Reversed(x: BitString, n: nat): (r: BitString)
    requires |x| == n <= 64
    ensures |r| == n && r == Reverse(x)
  {
    var wide := x + Zeros(64 - n);
    ReverseBitsCorrect(wide, n);
    assert wide[..n] == x;
    ReverseBits(wide, n)[..n]
  }

  // ----------------------------------------------------------------- responses

  /** Bit i of the status field followed by the CRC field, as they are shifted. */
  predicate ResponseField(status: BitString, crc: Register, i: int)
    requires |status| == 4
  {
    if 0 <= i < 4 then status[3 - i] else 4 <= i < 36 && crc[35 - i]
  }

  /** Bit k of a response made from the register s: zeros, the ignored bits of s, status
      and CRC.  The byte where the status starts is ORed into, the others are replaced. */
  predicate ResponseBit(s: seq<bool>, status: BitString, crc: Register, ign: nat, zero: nat, k: nat)
    requires |status| == 4 && k < |s|
  {
    var e := zero + ign;
    if k < zero then false
    else if k < e then s[k]
    else if k / 8 == e / 8 then s[k] || ResponseField(status, crc, k - e)
    else if k / 8 <= (e + 35) / 8 then ResponseField(status, crc, k - e)
    else s[k]
  }

  function Response(s: seq<bool>, status: BitString, crc: Register, ign: nat, zero: nat): (r: seq<bool>)
    requires |status| == 4
    ensures |r| == |s|
  {
    seq(|s|, k requires 0 <= k < |s| => ResponseBit(s, status, crc, ign, zero, k))
  }

  /** The bits of the byte where the status starts that the response ORs into. */
  predicate ClearAhead(s: seq<bool>, e: nat)
  {
    forall k :: e <= k < |s| && k / 8 == e / 8 ==> !s[k]
  }

  lemma {:induction false} ResponseAhead(s: seq<bool>, status: BitString, crc: Register, ign: nat, zero: nat, i: nat)
    requires |status| == 4 && i < 36 && zero + ign + i < |s| && ClearAhead(s, zero + ign)
    ensures Response(s, status, crc, ign, zero)[zero + ign + i] == ResponseField(status, crc, i)
  {
  }

  /** The zero field is zero, the ignored field and everything past the last byte are
      untouched; status and CRC follow, provided the register had zeros there. */
  lemma {:induction false} ResponseFields(s: seq<bool>, status: BitString, crc: Register, ign: nat, zero: nat)
    requires |status| == 4 && zero + ign + 36 <= |s|
    ensures var r, e := Response(s, status, crc, ign, zero), zero + ign;
            && r[..zero] == Zeros(zero) && r[zero..e] == s[zero..e]
            && (forall k :: (e + 35) / 8 < k / 8 && k < |s| ==> r[k] == s[k])
            && (ClearAhead(s, e) ==> r[e..e + 4] == Msb(status) && r[e + 4..e + 36] == Msb(crc))
  {
    var r, e := Response(s, status, crc, ign, zero), zero + ign;
    if ClearAhead(s, e) {
      var x, y := r[e..e + 4], r[e + 4..e + 36];
      forall i: nat | i < 4
        ensures x[i] == Msb(status)[i]
      {
        ResponseAhead(s, status, crc, ign, zero, i);
      }
      forall i: nat | i < 32
        ensures y[i] == Msb(crc)[i]
      {
        ResponseAhead(s, status, crc, ign, zero, 4 + i);
      }
    }
  }

  /** The fields as the program has them: reversed, lowest bit first. */
  predicate FieldBit(st: BitString, crc: BitString, i: int) { Bit(st, i) || Bit(crc, i - 4) }

  lemma {:induction false} FieldBitIs(status: BitString, crc: Register, i: int)
    requires |status| == 4
    ensures FieldBit(Reverse(status), Reverse(crc), i) == ResponseField(status, crc, i)
  {
  }

  /** Byte q of the response, b, over the old byte a, the status starting at bit off of
      byte 0. */
  ghost predicate PlacedByte(a: Byte, b: Byte, st: BitString, crc: BitString, q: nat, off: nat)
  {
    forall m: nat :: m < 8 ==> b[m] == ((q == 0 && a[m]) || FieldBit(st, crc, 8 * q + m - off))
  }

  lemma {:induction false} FirstLow(a: Byte, st: BitString, crc: BitString, off: nat)
    requires |st| == 4 && |crc| == 32 && off <= 4
    ensures PlacedByte(a, Or(a, Or(Shl(Keep(st, 0, 4), off, 8), Shl(crc, 4 + off, 8))), st, crc, 0, off)
  {
  }

  lemma {:induction false} FirstHigh(a: Byte, st: BitString, crc: BitString, off: nat)
    requires |st| == 4 && |crc| == 32 && 4 < off < 8
    ensures PlacedByte(a, Or(a, Shl(st, off, 8)), st, crc, 0, off)
  {
  }

  lemma {:induction false} SecondHigh(a: Byte, st: BitString, crc: BitString, off: nat)
    requires |st| == 4 && |crc| == 32 && 4 < off < 8
    ensures PlacedByte(a, Or(Shr(st, 8 - off, 8), Shl(crc, off - 4, 8)), st, crc, 1, off)
  {
  }

  lemma {:induction false} Later(a: Byte, st: BitString, crc: BitString, q: nat, off: nat)
    requires |st| == 4 && |crc| == 32 && off < 8 && q >= 1 && (off > 4 ==> q >= 2)
    ensures PlacedByte(a, Shr(crc, 8 * q - 4 - off, 8), st, crc, q, off)
  {
  }

  /** b is a with the status and CRC bytes written from byte `skip` on at offset off. */
  ghost predicate Placed(a: seq<Byte>, b: seq<Byte>, st: BitString, crc: BitString, skip: nat, off: nat)
  {
    && |a| == |b| && off < 8 && skip + (off + 35) / 8 < |a|
    && (forall c: nat :: c < |a| && (c < skip || skip + (off + 35) / 8 < c) ==> b[c] == a[c])
    && (forall c: nat :: skip <= c <= skip + (off + 35) / 8 ==> PlacedByte(a[c], b[c], st, crc, c - skip, off))
  }

  /** Clearing the zero field: whole bytes, then the low bits of the next. */
  ghost predicate Cleared(a: seq<Byte>, b: seq<Byte>, zero: nat)
  {
    && |a| == |b|
    && (forall c: nat :: c < zero / 8 && c < |a| ==> b[c] == Zeros(8))
    && (zero / 8 < |a| ==> b[zero / 8] == Shl(Shr(a[zero / 8], zero % 8, 8), zero % 8, 8))
    && (forall c: nat :: zero / 8 < c < |a| ==> b[c] == a[c])
  }

  lemma {:induction false} ClearedBit(a: seq<Byte>, b: seq<Byte>, zero: nat, c: nat, m: nat)
    requires Cleared(a, b, zero) && c < |a| && m < 8
    ensures b[c][m] == (8 * c + m >= zero && a[c][m])
  {
    var x := Shr(a[c], zero % 8, 8);
    if c == zero / 8 && m >= zero % 8 {
      assert x[m - zero % 8] == a[c][m];
    }
  }

  /** Byte c of a response, counted from the status byte. */
  lemma {:induction false} FieldByte(a: seq<Byte>, b: seq<Byte>, d: seq<Byte>, status: BitString, crc: Register, e: nat, c: nat, m: nat)
    requires |status| == 4 && c < |a| == |b| && m < 8 && e / 8 <= c <= e / 8 + (e % 8 + 35) / 8
    requires Placed(b, d, Reverse(status), Reverse(crc), e / 8, e % 8)
    ensures d[c][m] == ((c == e / 8 && b[c][m]) || ResponseField(status, crc, 8 * c + m - e))
  {
    assert PlacedByte(b[c], d[c], Reverse(status), Reverse(crc), c - e / 8, e % 8);
    FieldBitIs(status, crc, 8 * c + m - e);
  }

  /** A response bit by byte and bit number. */
  lemma {:induction false} ResponseBitAt(s: seq<bool>, status: BitString, crc: Register, ign: nat, zero: nat, c: nat, m: nat)
    requires |status| == 4 && 8 * c + m < |s| && m < 8
    ensures var e, k := zero + ign, 8 * c + m;
            ResponseBit(s, status, crc, ign, zero, k) ==
              if k < zero then false
              else if k < e then s[k]
              else if c == e / 8 then s[k] || ResponseField(status, crc, k - e)
              else if c <= e / 8 + (e % 8 + 35) / 8 then ResponseField(status, crc, k - e)
              else s[k]
  {
    var e, k := zero + ign, 8 * c + m;
    assert k / 8 == c && (e + 35) / 8 == e / 8 + (e % 8 + 35) / 8;
  }

  lemma {:induction false} NoField(status: BitString, crc: Register, i: int)
    requires |status| == 4 && i < 0
    ensures !ResponseField(status, crc, i)
  {
  }

  lemma {:induction false} ResponseBuiltAt(a: seq<Byte>, b: seq<Byte>, d: seq<Byte>, status: BitString, crc: Register,
                        ign: nat, zero: nat, e: nat, c: nat, m: nat)
    requires |status| == 4 && Cleared(a, b, zero) && c < |a| && m < 8 && e == ign + zero
    requires Placed(b, d, Reverse(status), Reverse(crc), e / 8, e % 8)
    ensures d[c][m] == ResponseBit(Stream(a), status, crc, ign, zero, 8 * c + m)
  {
    StreamAt(a, c, m);
    ClearedBit(a, b, zero, c, m);
    ResponseBitAt(Stream(a), status, crc, ign, zero, c, m);
    if 8 * c + m < e {
      NoField(status, crc, 8 * c + m - e);
    }
    if e / 8 <= c <= e / 8 + (e % 8 + 35) / 8 {
      FieldByte(a, b, d, status, crc, e, c, m);
    } else {
      assert d[c] == b[c];
    }
  }

  lemma {:induction false} ResponseBuilt(a: seq<Byte>, b: seq<Byte>, d: seq<Byte>, status: BitString, crc: Register, ign: nat, zero: nat)
    requires |status| == 4 && Cleared(a, b, zero)
    requires Placed(b, d, Reverse(status), Reverse(crc), (ign + zero) / 8, (ign + zero) % 8)
    ensures Stream(d) == Response(Stream(a), status, crc, ign, zero)
  {
    forall k: nat | k < 8 * |a|
      ensures Stream(d)[k] == ResponseBit(Stream(a), status, crc, ign, zero, k)
    {
      ResponseBuiltAt(a, b, d, status, crc, ign, zero, ign + zero, k / 8, k % 8);
    }
  }

  method PlaceLow(jreg: array<Byte>, st: BitString, crcR: BitString, skip: nat, off: nat)
    requires |st| == 4 && |crcR| == 32 && off <= 4 && skip + 4 < jreg.Length
    modifies jreg
    ensures Placed(old(jreg[..]), jreg[..], st, crcR, skip, off)
  {
    ghost var a := jreg[..];
    jreg[skip] := Or(jreg[skip], Or(Shl(Keep(st, 0, 4), off, 8), Shl(crcR, 4 + off, 8)));
    jreg[skip + 1] := Shr(crcR, 4 - off, 8);
    jreg[skip + 2] := Shr(crcR, 12 - off, 8);
    jreg[skip + 3] := Shr(crcR, 20 - off, 8);
    jreg[skip + 4] := Shr(crcR, 28 - off, 8);
    FirstLow(a[skip], st, crcR, off);
    Later(a[skip + 1], st, crcR, 1, off);
    Later(a[skip + 2], st, crcR, 2, off);
    Later(a[skip + 3], st, crcR, 3, off);
    Later(a[skip + 4], st, crcR, 4, off);
  }

  method PlaceHigh(jreg: array<Byte>, st: BitString, crcR: BitString, skip: nat, off: nat)
    requires |st| == 4 && |crcR| == 32 && 4 < off < 8 && skip + 5 < jreg.Length
    modifies jreg
    ensures Placed(old(jreg[..]), jreg[..], st, crcR, skip, off)
  {
    ghost var a := jreg[..];
    jreg[skip] := Or(jreg[skip], Shl(st, off, 8));
    jreg[skip + 1] := Or(Shr(st, 8 - off, 8), Shl(crcR, off - 4, 8));
    jreg[skip + 2] := Shr(crcR, 12 - off, 8);
    jreg[skip + 3] := Shr(crcR, 20 - off, 8);
    jreg[skip + 4] := Shr(crcR, 28 - off, 8);
    jreg[skip + 5] := Shr(crcR, 36 - off, 8);
    FirstHigh(a[skip], st, crcR, off);
    SecondHigh(a[skip + 1], st, crcR, off);
    Later(a[skip + 2], st, crcR, 2, off);
    Later(a[skip + 3], st, crcR, 3, off);
    Later(a[skip + 4], st, crcR, 4, off);
    Later(a[skip + 5], st, crcR, 5, off);
  }

  /** `construct_response` after the CRC: builds the response in place. */
  method PlaceResponse(jreg: array<Byte>, st: BitString, crcR: BitString, skip: nat, off: nat)
    requires |st| == 4 && |crcR| == 32 && off < 8 && skip + (off + 35) / 8 < jreg.Length
    modifies jreg
    ensures Placed(old(jreg[..]), jreg[..], st, crcR, skip, off)
  {
    if off <= 4 {
      PlaceLow(jreg, st, crcR, skip, off);
    } else {
      PlaceHigh(jreg, st, crcR, skip, off);
    }
  }

  method ClearZero(jreg: array<Byte>, zero: nat)
    requires zero / 8 < jreg.Length
    modifies jreg
    ensures Cleared(old(jreg[..]), jreg[..], zero)
  {
    var zeroBytes, zeroOff := zero / 8, zero % 8;
    for i := 0 to zeroBytes
      invariant forall c: nat :: c < i ==> jreg[c] == Zeros(8)
      invariant forall c: nat :: i <= c < jreg.Length ==> jreg[c] == old(jreg[c])
    {
      jreg[i] := Zeros(8);
    }
    jreg[zeroBytes] := Shr(jreg[zeroBytes], zeroOff, 8);
    jreg[zeroBytes] := Shl(jreg[zeroBytes], zeroOff, 8);
  }

  /** `construct_response`. */
  method ConstructResponse(jreg: array<Byte>, status: BitString, crcIn: Register, ign: nat, zero: nat)
    requires |status| == 4 && (ign + zero) / 8 + ((ign + zero) % 8 + 35) / 8 < jreg.Length
    modifies jreg
    ensures Stream(jreg[..]) == Response(old(Stream(jreg[..])), status, Feed(POLY, crcIn, Msb(status)), ign, zero)
  {
    ghost var a := jreg[..];
    var crcOut := Crc32(status, 4, crcIn);
    assert status[..4] == status;
    ClearZero(jreg, zero);
    ghost var b := jreg[..];
    PlaceResponse(jreg, Reversed(status, 4), Reversed(crcOut, 32), (ign + zero) / 8, (ign + zero) % 8);
    ResponseBuilt(a, b, jreg[..], status, crcOut, ign, zero);
  }
}
