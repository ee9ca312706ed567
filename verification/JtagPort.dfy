/** The packet handlers of debug/jtag.c, working in place on the register's bytes and on
    the debug state; each is proved against module JtagProtocol. */
module JtagPort {
  import opened BitStrings
  import opened Crc
  import opened JtagRegister
  import opened JtagProtocol

  // ------------------------------------------------------------ CRC comparison

  lemma {:induction false} CrcCompare(s: seq<bool>, n: nat, crcIn: BitString, crc: Register)
    requires n + 32 <= |s| && crcIn == Reverse(s[n..n + 32]) && crc == Feed(POLY, Ones(32), s[..n])
    ensures crc == crcIn <==> CrcOk(s, n)
  {
    ReverseTwice(s[n..n + 32]);
    ReverseTwice(crc);
  }

  lemma {:induction false} FedJoin(p: seq<bool>, q: seq<bool>, a: Register, b: Register)
    requires a == Feed(POLY, Ones(32), p) && b == Feed(POLY, a, q)
    ensures b == Feed(POLY, Ones(32), p + q)
  {
    FeedChained(POLY, Ones(32), p, q);
  }

  lemma {:induction false} PrefixJoin(s: seq<bool>, o: nat, x: BitString)
    requires o + |x| <= |s| && x == Field(s, o, |x|)
    ensures s[..o] + Msb(x) == s[..o + |x|]
  {
    MsbField(s, o, |x|);
  }

  lemma {:induction false} MsbField(s: seq<bool>, o: nat, n: nat)
    requires o + n <= |s|
    ensures Msb(Field(s, o, n)) == s[o..o + n]
  {
    ReverseTwice(s[o..o + n]);
  }

  /** The CRC of the select bit and the 4-bit module or command number. */
  method HeadCrc(first: bool, code: BitString) returns (crc: Register)
    requires |code| == 4
    ensures crc == Feed(POLY, Ones(32), [first] + Msb(code))
  {
    crc := Crc32([first], 1, Ones(32));
    assert Msb([first][..1]) == [first];
    crc := Crc32(code, 4, crc);
    assert code[..4] == code;
    FeedChained(POLY, Ones(32), [first], Msb(code));
  }

  lemma {:induction false} HeadIs(s: seq<bool>, code: BitString)
    requires 5 <= |s| && code == Field(s, 1, 4)
    ensures [s[0]] + Msb(code) == s[..5]
  {
    MsbField(s, 1, 4);
  }

  lemma {:induction false} CommandIs(s: seq<bool>, c: nat)
    requires 8 <= |s| && Command(s) == c
    ensures Field(s, 1, 4) == Of(c, 4)
  {
    OfVal(Field(s, 1, 4));
  }

  // -------------------------------------------------------- in-place fields

  /** b is a with the bits x ORed in from stream bit 37 on. */
  ghost predicate Ored(a: seq<Byte>, b: seq<Byte>, x: seq<bool>)
  {
    && |a| == |b| >= 12 && |x| == 52
    && (forall c: nat :: c < |a| && !(4 <= c < 12) ==> b[c] == a[c])
    && (forall c: nat :: 4 <= c < 12 ==> OredByte(a[c], b[c], x, 8 * c - 37))
  }

  ghost predicate OredByte(a: Byte, b: Byte, x: seq<bool>, o: int)
  {
    forall m: nat :: m < 8 ==> b[m] == (a[m] || Bit(x, o + m))
  }

  lemma {:induction false} OredStream(a: seq<Byte>, b: seq<Byte>, x: seq<bool>)
    requires Ored(a, b, x)
    ensures Stream(b) == OrInto(Stream(a), 37, x)
  {
    forall k: nat | k < 8 * |a|
      ensures Stream(b)[k] == (Stream(a)[k] || (37 <= k < 89 && x[k - 37]))
    {
      var c, m := k / 8, k % 8;
      if 4 <= c < 12 {
        assert OredByte(a[c], b[c], x, 8 * c - 37);
      }
    }
  }

  lemma {:induction false} ControlByte5(a: Byte, b: Byte, data: BitString)
    requires |data| == 52 && b == Or(a, Keep(Shr(data, 3, 8), 0, 3)) && forall k :: 6 <= k < 11 ==> !data[k]
    ensures OredByte(a, b, data, 3)
  {
  }

  lemma {:induction false} CommandOred(j: seq<Byte>, b: seq<Byte>, acc: BitString, a: BitString, len: BitString)
    requires 16 <= |j| == |b| && |acc| == 4 && |a| == 32 && |len| == 16
    requires forall c: nat :: c < |j| && !(4 <= c < 12) ==> b[c] == j[c]
    requires b[4] == Or(j[4], Keep(Shl(acc, 5, 8), 5, 8))
    requires b[5] == Or(Or(j[5], Keep(Shr(acc, 3, 8), 0, 1)), Keep(Shl(a, 1, 8), 1, 8))
    requires b[6] == Or(j[6], Shr(a, 7, 8)) && b[7] == Or(j[7], Shr(a, 15, 8)) && b[8] == Or(j[8], Shr(a, 23, 8))
    requires b[9] == Or(Or(j[9], Keep(Shr(a, 31, 8), 0, 1)), Keep(Shl(len, 1, 8), 1, 8))
    requires b[10] == Or(j[10], Shr(len, 7, 8)) && b[11] == Or(j[11], Keep(Shr(len, 15, 8), 0, 1))
    ensures Ored(j, b, acc + a + len)
  {
    var x := acc + a + len;
    assert OredByte(j[4], b[4], x, -5);
    assert OredByte(j[5], b[5], x, 3);
    assert OredByte(j[6], b[6], x, 11);
    assert OredByte(j[7], b[7], x, 19);
    assert OredByte(j[8], b[8], x, 27);
    assert OredByte(j[9], b[9], x, 35);
    assert OredByte(j[10], b[10], x, 43);
    assert OredByte(j[11], b[11], x, 51);
  }

  lemma {:induction false} CommandParts(d: Debug, acc: BitString, a: BitString, len: BitString)
    requires |acc| == 4 && |a| == 32 && |len| == 16
    requires if d.defined then
               acc == Of(d.acc, 4) && a == Of(d.addr, 32) && len == Of(if d.size > 0 then d.size - 1 else 0xffff, 16)
             else acc == Zeros(4) && a == Zeros(32) && len == Zeros(16)
    ensures Msb(acc) + Msb(a) + Msb(len) == CommandBits(d)
  {
  }

  lemma {:induction false} StoredNext(mapped: int -> bool, m: Memory, a: nat, s: seq<bool>, i: nat)
    requires 13 + 8 * i <= |s|
    ensures var low := Stored(mapped, m, a, Written(s, i));
            Stored(mapped, m, a, Written(s, i + 1)) ==
            if mapped(Address(a, i)) then low[Address(a, i) := DataByte(s, i)] else low
  {
    assert Written(s, i + 1)[..i] == Written(s, i);
  }

  lemma {:induction false} SprNext(s: seq<bool>, i: nat, spr: Register, byte: Byte)
    requires i < 4 && 13 + 8 * i <= |s| && spr == SprOf(Written(s, i)) && byte == DataByte(s, i)
    ensures Or(spr, Shl(byte, 8 * i, 32)) == SprOf(Written(s, i + 1))
  {
    var x, y := Or(spr, Shl(byte, 8 * i, 32)), SprOf(Written(s, i + 1));
    forall j: nat | j < 32
      ensures x[j] == y[j]
    {
      if j / 8 == i {
        assert j - 8 * i == j % 8;
      }
    }
  }

  /** Clearing eight bits at 37 + 8i and ORing b in replaces exactly those bits. */
  lemma {:induction false} BytePut(a: seq<Byte>, d: seq<Byte>, i: nat, b: Byte)
    requires i + 6 <= |a| == |d| && forall c: nat :: c < |a| && c != 4 + i && c != 5 + i ==> d[c] == a[c]
    requires d[4 + i] == Or(Shr(Shl(a[4 + i], 3, 8), 3, 8), Shl(b, 5, 8))
    requires d[5 + i] == Or(Shl(Shr(a[5 + i], 5, 8), 5, 8), Shr(b, 3, 8))
    ensures Stream(d) == Put(Stream(a), 37 + 8 * i, b)
  {
    LowByte(a[4 + i], d[4 + i], b);
    HighByte(a[5 + i], d[5 + i], b);
    var x, y := Stream(d), Put(Stream(a), 37 + 8 * i, b);
    forall k: nat | k < 8 * |a|
      ensures x[k] == y[k]
    {
      StreamAt(a, k / 8, k % 8);
      StreamAt(d, k / 8, k % 8);
    }
  }

  lemma {:induction false} LowByte(a: Byte, d: Byte, b: Byte)
    requires d == Or(Shr(Shl(a, 3, 8), 3, 8), Shl(b, 5, 8))
    ensures forall m: nat :: m < 8 ==> d[m] == if m < 5 then a[m] else b[m - 5]
  {
    var x := Shl(a, 3, 8);
    forall m: nat | m < 8
      ensures d[m] == if m < 5 then a[m] else b[m - 5]
    {
      if m < 5 {
        assert x[m + 3] == a[m];
      }
    }
  }

  lemma {:induction false} HighByte(a: Byte, d: Byte, b: Byte)
    requires d == Or(Shl(Shr(a, 5, 8), 5, 8), Shr(b, 3, 8))
    ensures forall m: nat :: m < 8 ==> d[m] == if m < 5 then b[m + 3] else a[m]
  {
    var x := Shr(a, 5, 8);
    forall m: nat | m < 8
      ensures d[m] == if m < 5 then b[m + 3] else a[m]
    {
      if m >= 5 {
        assert x[m - 5] == a[m];
      }
    }
  }

  lemma {:induction false} PutTwice(s: seq<bool>, o: nat, x: seq<bool>, y: seq<bool>)
    requires o + |x| + |y| <= |s|
    ensures Put(Put(s, o, x), o + |x|, y) == Put(s, o, x + y)
  {
  }

  lemma {:induction false} OutgoingGrows(mapped: int -> bool, d: Debug, i: nat)
    ensures Shifted(Outgoing(mapped, d, i + 1)) == Shifted(Outgoing(mapped, d, i)) + Msb(OutByte(mapped, d, i))
  {
    assert Outgoing(mapped, d, i + 1)[..i] == Outgoing(mapped, d, i);
  }

  lemma {:induction false} OutgoingNext(mapped: int -> bool, d: Debug, s: seq<bool>, i: nat)
    requires 45 + 8 * i <= |s|
    ensures var x, y := Shifted(Outgoing(mapped, d, i)), Shifted(Outgoing(mapped, d, i + 1));
            && y == x + Msb(OutByte(mapped, d, i))
            && Put(Put(s, 37, x), 37 + 8 * i, Msb(OutByte(mapped, d, i))) == Put(s, 37, y)
            && Feed(POLY, Feed(POLY, Ones(32), x), Msb(OutByte(mapped, d, i))) == Feed(POLY, Ones(32), y)
  {
    var x, z := Shifted(Outgoing(mapped, d, i)), Msb(OutByte(mapped, d, i));
    OutgoingGrows(mapped, d, i);
    PutTwice(s, 37, x, z);
    FeedChained(POLY, Ones(32), x, z);
  }

  lemma {:induction false} WrittenPrefix(s: seq<bool>, k: nat, t: nat)
    requires 5 + 8 * k <= |s| && t <= k
    ensures Written(s, k)[..t] == Written(s, t)
  {
  }

  lemma {:induction false} ClearedPut(a: seq<Byte>, d: seq<Byte>, n: nat)
    requires n <= |a| == |d| && (forall c: nat :: c < n ==> d[c] == Zeros(8)) && forall c: nat :: n <= c < |a| ==> d[c] == a[c]
    ensures Stream(d) == Put(Stream(a), 0, Zeros(8 * n))
  {
    var x, y := Stream(d), Put(Stream(a), 0, Zeros(8 * n));
    forall k: nat | k < 8 * |a|
      ensures x[k] == y[k]
    {
      StreamAt(a, k / 8, k % 8);
      StreamAt(d, k / 8, k % 8);
    }
  }

  /** i bytes have been shifted into the register. */
  ghost predicate Transferred(mapped: int -> bool, d: Debug, s: seq<bool>, t: seq<bool>, crc: Register, i: nat)
  {
    var bits := Shifted(Outgoing(mapped, d, i));
    37 + |bits| <= |s| && t == Put(s, 37, bits) && crc == Feed(POLY, Ones(32), bits)
  }

  lemma {:induction false} TransferNext(mapped: int -> bool, d: Debug, s: seq<bool>, t: seq<bool>, t': seq<bool>,
                     crc: Register, crc': Register, i: nat)
    requires 45 + 8 * i <= |s| && Transferred(mapped, d, s, t, crc, i)
    requires var x := Msb(OutByte(mapped, d, i)); t' == Put(t, 37 + 8 * i, x) && crc' == Feed(POLY, crc, x)
    ensures Transferred(mapped, d, s, t', crc', i + 1)
  {
    OutgoingNext(mapped, d, s, i);
  }

  lemma {:induction false} GoWriteIs(mapped: int -> bool, d: Debug, s: seq<bool>, n: nat, ok: bool, bad: bool)
    requires 73 <= n <= |s| && ok == CrcOk(s, 5 + 8 * Room(n))
    requires bad == (ok && d.modId == JM_WISHBONE && !AllMapped(mapped, d.addr, Used(d, n)))
    ensures var status := Status(!ok, false, bad, 73 + 8 * d.size != n);
            GoWriteOut(mapped, d, s, n) ==
            Response(s, status, Feed(POLY, Ones(32), Msb(status)), 0, 37 + 8 * Room(n))
  {
    assert GoWriteOut(mapped, d, s, n) == GoWriteReply(d, s, n, ok, bad);
  }

  lemma {:induction false} GoReadIs(mapped: int -> bool, d: Debug, s: seq<bool>, n: nat, ok: bool, bad: bool)
    requires 73 <= n <= |s| && ok == CrcOk(s, 5)
    requires bad == (ok && d.modId == JM_WISHBONE && !AllMapped(mapped, d.addr, Used(d, n)))
    ensures var bits, status := Shifted(Outgoing(mapped, d, Room(n))), Status(!ok, false, bad, 73 + 8 * d.size != n);
            var crc := if ok then Feed(POLY, Ones(32), bits) else Zeros(32);
            GoReadOut(mapped, d, s, n) ==
            Response(if ok then Put(s, 37, bits) else s, status, Feed(POLY, crc, Msb(status)), 8 * Room(n), 37)
  {
    assert GoReadOut(mapped, d, s, n) == GoReadReply(mapped, d, s, n, ok, bad);
  }

  lemma {:induction false} TransferStart(mapped: int -> bool, d: Debug, s: seq<bool>)
    requires 37 <= |s|
    ensures Transferred(mapped, d, s, s, Ones(32), 0)
  {
    assert Outgoing(mapped, d, 0) == [];
    assert Put(s, 37, []) == s;
  }

  lemma {:induction false} MappedNext(mapped: int -> bool, a: nat, i: nat, size: nat)
    ensures AllMapped(mapped, a, Min(i + 1, size)) ==
            (AllMapped(mapped, a, Min(i, size)) && (i < size ==> mapped(Address(a, i))))
  {
  }

  lemma {:induction false} GoReadAdvance(mapped: int -> bool, d: Debug, r: Request, ok: bool, bad: bool)
    requires r.Go? && r.readOk == ok
    requires bad == (ok && d.modId == JM_WISHBONE && !AllMapped(mapped, d.addr, Used(d, r.n)))
    ensures GoReadNext(mapped, d, r) ==
            d.(addr := if !ok || 73 + 8 * d.size != r.n || bad then d.addr
                       else if d.modId == JM_WISHBONE then d.addr + d.size
                       else if d.modId == JM_CPU0 then d.addr + 1 else d.addr)
  {
  }

  lemma {:induction false} ShiftGo(mapped: int -> bool, d: Debug, s: seq<bool>, n: nat)
    requires Shiftable(d, s, n) && d.instr == JI_DEBUG && !s[0] && Command(s) == JCMD_GO
    ensures d.defined ==> n >= 73
    ensures ShiftDr(mapped, d, s, n) == (Next(mapped, d, ParseGo(s, n)), GoOut(mapped, d, s, n))
  {
  }

  lemma {:induction false} ShiftWrite(mapped: int -> bool, d: Debug, s: seq<bool>, n: nat)
    requires Shiftable(d, s, n) && d.instr == JI_DEBUG && !s[0] && Command(s) == JCMD_WRITE
    ensures ShiftDr(mapped, d, s, n) ==
            if n != 125 then (d.(defined := false), s) else (Commanded(d, ParseWrite(s, 125)), WriteReply(s))
  {
  }

  lemma {:induction false} ShiftFixed(mapped: int -> bool, d: Debug, s: seq<bool>, c: nat)
    requires Shiftable(d, s, 125) && d.instr == JI_DEBUG && !s[0] && Command(s) == c && c != JCMD_GO && c != JCMD_WRITE
    ensures RequestOf(d, s, 125) ==
            if c == JCMD_READ then Request.ReadCommand(CrcOk(s, 5))
            else if c == JCMD_READ_CONTROL then Request.ReadControl(CrcOk(s, 5))
            else if c == JCMD_WRITE_CONTROL then ParseControl(s)
            else Ignored
  {
  }

  lemma {:induction false} ShiftRead(mapped: int -> bool, d: Debug, s: seq<bool>, r: Request)
    requires Shiftable(d, s, 125) && r == RequestOf(d, s, 125) && r.ReadCommand?
    ensures ShiftDr(mapped, d, s, 125) == (d, ReadOut(s, r.ok, CommandBits(d)))
  {
  }

  lemma {:induction false} ShiftReadControl(mapped: int -> bool, d: Debug, s: seq<bool>, r: Request)
    requires Shiftable(d, s, 125) && r == RequestOf(d, s, 125) && r.ReadControl?
    ensures ShiftDr(mapped, d, s, 125) == (d, ReadOut(s, r.ok, Msb(ControlBits(d))))
  {
  }

  lemma {:induction false} ShiftWriteControl(mapped: int -> bool, d: Debug, s: seq<bool>, r: Request)
    requires Shiftable(d, s, 125) && r == RequestOf(d, s, 125) && r.WriteControl?
    ensures ShiftDr(mapped, d, s, 125) == (Next(mapped, d, r), WriteReply(s))
  {
  }

  lemma {:induction false} ShiftIgnored(mapped: int -> bool, d: Debug, s: seq<bool>, r: Request)
    requires Shiftable(d, s, 125) && r == RequestOf(d, s, 125) && r.Ignored?
    ensures ShiftDr(mapped, d, s, 125) == (d, s)
  {
  }

  /** What a GO packet does, by the type of the access defined. */
  lemma {:induction false} GoIs(mapped: int -> bool, d: Debug, s: seq<bool>, n: nat, r: Request)
    requires n <= |s| && |s| % 8 == 0 && (d.defined ==> n >= 73) && r == ParseGo(s, n)
    ensures (GoOut(mapped, d, s, n), Next(mapped, d, r)) ==
            if !d.defined then (Put(s, 0, Zeros((n + 7) / 8 * 8)), d)
            else if d.acc in {0, 1, 2} then (GoWriteOut(mapped, d, s, n), GoWritten(mapped, d, r))
            else if d.acc in {4, 5, 6} then (GoReadOut(mapped, d, s, n), GoReadNext(mapped, d, r))
            else (s, d)
  {
  }

  /** The CRC of a GO packet's command and first i data bytes. */
  ghost function DataPrefixCrc(s: seq<bool>, i: nat): Register
    requires 5 + 8 * i <= |s|
  {
    Feed(POLY, Ones(32), s[..5 + 8 * i])
  }

  /** t and crc are s and its CRC after the k bytes of a read have been put in. */
  ghost predicate Fetched(mapped: int -> bool, d: Debug, s: seq<bool>, t: seq<bool>, ok: bool, crc: Register, k: nat)
  {
    if ok then Transferred(mapped, d, s, t, crc, k) else t == s && crc == Zeros(32)
  }

  method CrcField(x: BitString, crcIn: Register) returns (crc: Register)
    ensures crc == Feed(POLY, crcIn, Msb(x))
  {
    crc := Crc32(x, |x|, crcIn);
    assert x[..|x|] == x;
  }

  class DebugUnit {
    const mapped: int -> bool
    var instr: int
    var modId: int
    var writeDefined: bool
    var accType: nat
    var addr: nat
    var size: nat
    var mem: Memory
    var sprs: map<int, Register>
    var stalled: bool
    var resets: nat

    function State(): Debug
      reads this
    {
      Debug(instr, modId, writeDefined, accType, addr, size, mem, sprs, stalled, resets)
    }

    /** Whether the CRC after the first five bits is right. */
    method HeadVerified(jreg: array<Byte>, first: bool, code: BitString) returns (ok: bool)
      requires 10 <= jreg.Length && |code| == 4
      requires first == Stream(jreg[..])[0] && code == Field(Stream(jreg[..]), 1, 4)
      ensures ok == CrcOk(Stream(jreg[..]), 5)
    {
      ghost var s := Stream(jreg[..]);
      Word5Is(jreg[..], 0);
      var crcIn := Reversed(Word5(jreg[..], 0), 32);
      var crc := HeadCrc(first, code);
      HeadIs(s, code);
      CrcCompare(s, 5, crcIn, crc);
      ok := crc == crcIn;
    }

    /** `select_module`. */
    method SelectModule(jreg: array<Byte>, numBits: nat)
      requires instr == JI_DEBUG && Shiftable(State(), Stream(jreg[..]), numBits) && Stream(jreg[..])[0]
      modifies this`modId, jreg
      ensures State() == Next(mapped, old(State()), old(Parse(Stream(jreg[..]), numBits)))
      ensures Stream(jreg[..]) == old(Out(mapped, State(), Stream(jreg[..]), numBits))
    {
      if numBits != 73 {
        return;
      }
      Nibble1Is(jreg[..]);
      var code := Reversed(Nibble1(jreg[..]), 4);
      var id := Val(code);
      var ok := HeadVerified(jreg, true, code);
      var missing := false;
      if ok {
        if id == JM_WISHBONE || id == JM_CPU0 || id == JM_CPU1 {
          modId := id;
        } else {
          missing := true;
          modId := JM_UNDEFINED;
        }
      }
      ConstructResponse(jreg, Status(!ok, missing, false, false), Ones(32), 0, 37);
    }

    /** Continues a CRC over the field that starts at bit o. */
    method MoreCrc(ghost s: seq<bool>, ghost o: nat, x: BitString, crcIn: Register) returns (crc: Register)
      requires o + |x| <= |s| && x == Field(s, o, |x|) && crcIn == Feed(POLY, Ones(32), s[..o])
      ensures crc == Feed(POLY, Ones(32), s[..o + |x|])
    {
      PrefixJoin(s, o, x);
      crc := CrcField(x, crcIn);
      FedJoin(s[..o], Msb(x), crcIn, crc);
    }

    /** The fields of a WRITE_COMMAND and whether its CRC is right. */
    method WriteFields(jreg: array<Byte>) returns (ok: bool, acc: BitString, a: BitString, len: BitString)
      requires 16 <= jreg.Length && !Stream(jreg[..])[0] && Command(Stream(jreg[..])) == JCMD_WRITE
      ensures var s := Stream(jreg[..]);
              acc == Field(s, 5, 4) && a == Field(s, 9, 32) && len == Field(s, 41, 16) && ok == CrcOk(s, 57)
    {
      ghost var s := Stream(jreg[..]);
      Nibble5Is(jreg[..]);
      Word1Is(jreg[..], 1);
      Half1Is(jreg[..], 5);
      Word1Is(jreg[..], 7);
      acc, a := Reversed(Nibble5(jreg[..]), 4), Reversed(Word1(jreg[..], 1), 32);
      len := Reversed(Half1(jreg[..], 5), 16);
      var crcIn := Reversed(Word1(jreg[..], 7), 32);
      CommandIs(s, JCMD_WRITE);
      HeadIs(s, Of(JCMD_WRITE, 4));
      var crc := HeadCrc(false, Of(JCMD_WRITE, 4));
      crc := MoreCrc(s, 5, acc, crc);
      crc := MoreCrc(s, 9, a, crc);
      crc := MoreCrc(s, 41, len, crc);
      CrcCompare(s, 57, crcIn, crc);
      ok := crc == crcIn;
    }

    /** `write_command`. */
    method WriteCommand(jreg: array<Byte>, numBits: nat)
      requires 1 <= jreg.Length && !Stream(jreg[..])[0] && Command(Stream(jreg[..])) == JCMD_WRITE
      requires numBits == 125 ==> 16 <= jreg.Length
      modifies this`writeDefined, this`accType, this`addr, this`size, jreg
      ensures numBits != 125 ==> State() == old(State()).(defined := false) && jreg[..] == old(jreg[..])
      ensures jreg.Length >= 16 && numBits == 125 ==>
                State() == Commanded(old(State()), old(ParseWrite(Stream(jreg[..]), 125)))
      ensures numBits == 125 ==> Stream(jreg[..]) == WriteReply(old(Stream(jreg[..])))
    {
      if numBits != 125 {
        writeDefined := false;
        return;
      }
      AnswerWrite(jreg);
    }

    method AnswerWrite(jreg: array<Byte>)
      requires 16 <= jreg.Length && !Stream(jreg[..])[0] && Command(Stream(jreg[..])) == JCMD_WRITE
      modifies this`writeDefined, this`accType, this`addr, this`size, jreg
      ensures State() == Commanded(old(State()), old(ParseWrite(Stream(jreg[..]), 125)))
      ensures Stream(jreg[..]) == WriteReply(old(Stream(jreg[..])))
    {
      var ok := Decide(jreg);
      ConstructResponse(jreg, Status(!ok, false, false, false), Ones(32), 0, 89);
    }

    method Decide(jreg: array<Byte>) returns (ok: bool)
      requires 16 <= jreg.Length && !Stream(jreg[..])[0] && Command(Stream(jreg[..])) == JCMD_WRITE
      modifies this`writeDefined, this`accType, this`addr, this`size
      ensures State() == Commanded(old(State()), ParseWrite(Stream(jreg[..]), 125))
      ensures ok == CrcOk(Stream(jreg[..]), 57)
    {
      var acc, a, len;
      ok, acc, a, len := WriteFields(jreg);
      Define(ok, Val(acc), Val(a), Val(len) + 1);
      assert ParseWrite(Stream(jreg[..]), 125) == Request.WriteCommand(ok, Val(acc), Val(a), Val(len) + 1);
    }

    /** The validation and the assignments of a WRITE_COMMAND. */
    method Define(ok: bool, acc: nat, a: nat, dataSize: nat)
      modifies this`writeDefined, this`accType, this`addr, this`size
      ensures State() == Commanded(old(State()), Request.WriteCommand(ok, acc, a, dataSize))
    {
      if ok && modId == JM_WISHBONE && ValidWishbone(acc, a, dataSize) {
        writeDefined, accType, addr, size := true, acc, a, dataSize;
      } else if ok && modId == JM_CPU0 && ValidSpr(acc, dataSize) {
        writeDefined, accType, addr, size := true, acc, a % MAX_SPRS, dataSize;
      } else {
        writeDefined := false;
      }
    }

    /** The data of a WRITE_CONTROL and whether its CRC is right. */
    method ControlFields(jreg: array<Byte>) returns (ok: bool, data: BitString)
      requires 16 <= jreg.Length && !Stream(jreg[..])[0] && Command(Stream(jreg[..])) == JCMD_WRITE_CONTROL
      ensures var s := Stream(jreg[..]); data == Field(s, 5, 52) && ok == CrcOk(s, 57)
    {
      ghost var s := Stream(jreg[..]);
      Data52Is(jreg[..]);
      Word1Is(jreg[..], 7);
      data := Reversed(Data52(jreg[..]), 52);
      var crcIn := Reversed(Word1(jreg[..], 7), 32);
      CommandIs(s, JCMD_WRITE_CONTROL);
      HeadIs(s, Of(JCMD_WRITE_CONTROL, 4));
      var crc := HeadCrc(false, Of(JCMD_WRITE_CONTROL, 4));
      crc := MoreCrc(s, 5, data, crc);
      CrcCompare(s, 57, crcIn, crc);
      ok := crc == crcIn;
    }

    method Control(ok: bool, reset: bool, stall: bool)
      modifies this`stalled, this`resets
      ensures State() == Next(mapped, old(State()), Request.WriteControl(ok, reset, stall))
    {
      if ok && modId == JM_CPU0 {
        if reset {
          resets := resets + 1;
        } else {
          stalled := stall;
        }
      }
    }

    /** `write_control` of the right length. */
    method WriteControl(jreg: array<Byte>)
      requires 16 <= jreg.Length && !Stream(jreg[..])[0] && Command(Stream(jreg[..])) == JCMD_WRITE_CONTROL
      modifies this`stalled, this`resets, jreg
      ensures State() == Next(mapped, old(State()), old(ParseControl(Stream(jreg[..]))))
      ensures Stream(jreg[..]) == WriteReply(old(Stream(jreg[..])))
    {
      var ok, data := ControlFields(jreg);
      Control(ok, data[JCB_RESET], data[JCB_STALL]);
      ConstructResponse(jreg, Status(!ok, false, false, false), Ones(32), 0, 89);
    }

    // ---------------------------------------------------------- reading fields

    /** The ORs of `read_command`; the fields come in reversed. */
    method OrCommand(jreg: array<Byte>, acc: BitString, a: BitString, len: BitString)
      requires 16 <= jreg.Length && |acc| == 4 && |a| == 32 && |len| == 16
      modifies jreg
      ensures Stream(jreg[..]) == OrInto(old(Stream(jreg[..])), 37, acc + a + len)
    {
      ghost var old0, x := jreg[..], acc + a + len;
      jreg[4] := Or(jreg[4], Keep(Shl(acc, 5, 8), 5, 8));
      jreg[5] := Or(jreg[5], Keep(Shr(acc, 3, 8), 0, 1));
      jreg[5] := Or(jreg[5], Keep(Shl(a, 1, 8), 1, 8));
      jreg[6] := Or(jreg[6], Shr(a, 7, 8));
      jreg[7] := Or(jreg[7], Shr(a, 15, 8));
      jreg[8] := Or(jreg[8], Shr(a, 23, 8));
      jreg[9] := Or(jreg[9], Keep(Shr(a, 31, 8), 0, 1));
      jreg[9] := Or(jreg[9], Keep(Shl(len, 1, 8), 1, 8));
      jreg[10] := Or(jreg[10], Shr(len, 7, 8));
      jreg[11] := Or(jreg[11], Keep(Shr(len, 15, 8), 0, 1));
      CommandOred(old0, jreg[..], acc, a, len);
      OredStream(old0, jreg[..], x);
    }

    /** The ORs of `read_control`: byte 5 takes only three bits, which is enough because
        the only bit ever set is the second one shifted. */
    method OrControl(jreg: array<Byte>, data: BitString)
      requires 16 <= jreg.Length && |data| == 52 && forall k :: 6 <= k < 11 ==> !data[k]
      modifies jreg
      ensures Stream(jreg[..]) == OrInto(old(Stream(jreg[..])), 37, data)
    {
      ghost var a := jreg[..];
      jreg[4] := Or(jreg[4], Keep(Shl(data, 5, 8), 3, 8));
      jreg[5] := Or(jreg[5], Keep(Shr(data, 3, 8), 0, 3));
      jreg[6] := Or(jreg[6], Shr(data, 11, 8));
      jreg[7] := Or(jreg[7], Shr(data, 19, 8));
      jreg[8] := Or(jreg[8], Shr(data, 27, 8));
      jreg[9] := Or(jreg[9], Shr(data, 35, 8));
      jreg[10] := Or(jreg[10], Shr(data, 43, 8));
      jreg[11] := Or(jreg[11], Keep(Shr(data, 51, 8), 0, 1));
      ControlByte5(a[5], jreg[5], data);
      assert OredByte(a[4], jreg[4], data, -5);
      assert OredByte(a[6], jreg[6], data, 11);
      assert OredByte(a[7], jreg[7], data, 19);
      assert OredByte(a[8], jreg[8], data, 27);
      assert OredByte(a[9], jreg[9], data, 35);
      assert OredByte(a[10], jreg[10], data, 43);
      assert OredByte(a[11], jreg[11], data, 51);
      OredStream(a, jreg[..], data);
    }

    method HeadField(jreg: array<Byte>, c: nat) returns (ok: bool)
      requires 10 <= jreg.Length && !Stream(jreg[..])[0] && Command(Stream(jreg[..])) == c
      ensures ok == CrcOk(Stream(jreg[..]), 5)
    {
      CommandIs(Stream(jreg[..]), c);
      ok := HeadVerified(jreg, false, Of(c, 4));
    }

    /** `read_command` of the right length. */
    method ReadCommand(jreg: array<Byte>)
      requires 16 <= jreg.Length && !Stream(jreg[..])[0] && Command(Stream(jreg[..])) == JCMD_READ
      modifies jreg
      ensures Stream(jreg[..]) == old(ReadOut(Stream(jreg[..]), CrcOk(Stream(jreg[..]), 5), CommandBits(State())))
    {
      ghost var x := CommandBits(State());
      var crcOut := Ones(32);
      var ok := HeadField(jreg, JCMD_READ);
      if ok {
        var acc, a, len := Zeros(4), Zeros(32), Zeros(16);
        if writeDefined {
          acc, a := Of(accType, 4), Of(addr, 32);
          len := Of(if size > 0 then size - 1 else 0xffff, 16);
        }
        crcOut := CommandCrc(acc, a, len);
        CommandParts(State(), acc, a, len);
        OrCommand(jreg, Reversed(acc, 4), Reversed(a, 32), Reversed(len, 16));
      }
      ConstructResponse(jreg, Status(!ok, false, false, false), crcOut, 52, 37);
    }

    method CommandCrc(acc: BitString, a: BitString, len: BitString) returns (crc: Register)
      requires |acc| == 4 && |a| == 32 && |len| == 16
      ensures crc == Feed(POLY, Ones(32), Msb(acc) + Msb(a) + Msb(len))
    {
      crc := Crc32(acc, 4, Ones(32));
      crc := Crc32(a, 32, crc);
      crc := Crc32(len, 16, crc);
      assert acc[..4] == acc && a[..32] == a && len[..16] == len;
      FeedChained(POLY, Ones(32), Msb(acc), Msb(a));
      FeedChained(POLY, Ones(32), Msb(acc) + Msb(a), Msb(len));
    }

    method ControlData() returns (data: BitString)
      ensures data == ControlBits(State())
    {
      data := Zeros(52);
      if modId == JM_CPU0 {
        data := data[JCB_STALL := stalled];
      }
    }

    /** `read_control` of the right length. */
    method ReadControl(jreg: array<Byte>)
      requires 16 <= jreg.Length && !Stream(jreg[..])[0] && Command(Stream(jreg[..])) == JCMD_READ_CONTROL
      modifies jreg
      ensures Stream(jreg[..]) == old(ReadOut(Stream(jreg[..]), CrcOk(Stream(jreg[..]), 5), Msb(ControlBits(State()))))
    {
      var ok := HeadField(jreg, JCMD_READ_CONTROL);
      if ok {
        var data := ControlData();
        var crcOut := CrcField(data, Ones(32));
        OrControl(jreg, Reversed(data, 52));
        ConstructResponse(jreg, Status(false, false, false, false), crcOut, 52, 37);
      } else {
        ConstructResponse(jreg, Status(true, false, false, false), Ones(32), 52, 37);
      }
    }

    // --------------------------------------------------------------- GO packets

    /** Whether the CRC after k data bytes is right. */
    method DataVerified(jreg: array<Byte>, k: nat) returns (ok: bool)
      requires k + 5 <= jreg.Length && !Stream(jreg[..])[0] && Command(Stream(jreg[..])) == JCMD_GO
      ensures ok == CrcOk(Stream(jreg[..]), 5 + 8 * k)
    {
      ghost var s := Stream(jreg[..]);
      Word5Is(jreg[..], k);
      var crcIn := Reversed(Word5(jreg[..], k), 32);
      CommandIs(s, JCMD_GO);
      HeadIs(s, Of(JCMD_GO, 4));
      var crc := HeadCrc(false, Of(JCMD_GO, 4));
      crc := DataCrc(jreg, s, k, crc);
      CrcCompare(s, 5 + 8 * k, crcIn, crc);
      ok := crc == crcIn;
    }

    method DataCrc(jreg: array<Byte>, ghost s: seq<bool>, k: nat, head: Register) returns (crc: Register)
      requires k + 2 <= jreg.Length && s == Stream(jreg[..]) && head == DataPrefixCrc(s, 0)
      ensures crc == DataPrefixCrc(s, k)
    {
      crc := head;
      for i := 0 to k
        invariant crc == DataPrefixCrc(s, i)
      {
        crc := ByteCrc(jreg, s, i, crc);
      }
    }

    method ByteCrc(jreg: array<Byte>, ghost s: seq<bool>, i: nat, crcIn: Register) returns (crc: Register)
      requires i + 2 <= jreg.Length && s == Stream(jreg[..]) && crcIn == DataPrefixCrc(s, i)
      ensures crc == DataPrefixCrc(s, i + 1)
    {
      var byte := PeekByte(jreg, s, i);
      crc := MoreCrc(s, 5 + 8 * i, byte, crcIn);
    }

    method PeekByte(jreg: array<Byte>, ghost s: seq<bool>, i: nat) returns (byte: Byte)
      requires i + 2 <= jreg.Length && s == Stream(jreg[..])
      ensures byte == Field(s, 5 + 8 * i, 8)
    {
      Byte5Is(jreg[..], i);
      byte := Reversed(Byte5(jreg[..], i), 8);
    }

    method TakeByte(jreg: array<Byte>, i: nat) returns (byte: Byte)
      requires i + 2 <= jreg.Length
      ensures byte == DataByte(Stream(jreg[..]), i)
    {
      Byte5Is(jreg[..], i);
      byte := Or(Shr(jreg[i], 5, 8), Shl(jreg[i + 1], 3, 8));
      ReverseByteCorrect(byte);
      byte := ReverseByte(byte);
    }

    /** `wishbone_write`. */
    method WishboneWrite(jreg: array<Byte>, k: nat, over: bool) returns (bad: bool)
      requires k + 2 <= jreg.Length
      modifies this`mem, this`addr
      ensures var t, s := Min(k, size), Stream(jreg[..]);
              && mem == Stored(mapped, old(mem), old(addr), Written(s, t)) && bad == !AllMapped(mapped, old(addr), t)
              && addr == if over || bad then old(addr) else old(addr) + size
    {
      ghost var s := Stream(jreg[..]);
      bad := false;
      for i := 0 to k
        invariant mem == Stored(mapped, old(mem), addr, Written(s, Min(i, size)))
        invariant bad == !AllMapped(mapped, addr, Min(i, size)) && addr == old(addr)
      {
        if i < size {
          StoredNext(mapped, old(mem), addr, s, i);
          if !mapped(Address(addr, i)) {
            bad := true;
          } else {
            var byte := TakeByte(jreg, i);
            mem := mem[Address(addr, i) := byte];
          }
        }
      }
      if !over && !bad {
        addr := addr + size;
      }
    }

    /** `spr_write`. */
    method SprWrite(jreg: array<Byte>, k: nat, over: bool)
      requires k + 2 <= jreg.Length
      modifies this`sprs, this`addr
      ensures sprs == old(sprs)[old(addr) % MAX_SPRS := SprOf(Written(Stream(jreg[..]), Min(k, 4)))]
      ensures addr == if over then old(addr) else old(addr) + 1
    {
      ghost var s := Stream(jreg[..]);
      var spr: Register := Zeros(32);
      for i := 0 to k
        invariant spr == SprOf(Written(s, Min(i, 4))) && sprs == old(sprs) && addr == old(addr)
      {
        if i < 4 {
          var byte := TakeByte(jreg, i);
          SprNext(s, i, spr, byte);
          spr := Or(spr, Shl(byte, 8 * i, 32));
        }
      }
      sprs := sprs[addr % MAX_SPRS := spr];
      if !over {
        addr := addr + 1;
      }
    }

    method StoreByte(jreg: array<Byte>, i: nat, b: Byte)
      requires i + 6 <= jreg.Length
      modifies jreg
      ensures Stream(jreg[..]) == Put(old(Stream(jreg[..])), 37 + 8 * i, b)
    {
      ghost var a := jreg[..];
      jreg[4 + i] := Shr(Shl(jreg[4 + i], 3, 8), 3, 8);
      jreg[5 + i] := Shl(Shr(jreg[5 + i], 5, 8), 5, 8);
      jreg[4 + i] := Or(jreg[4 + i], Shl(b, 5, 8));
      jreg[5 + i] := Or(jreg[5 + i], Shr(b, 3, 8));
      BytePut(a, jreg[..], i, b);
    }

    /** The byte that `wishbone_read`, `spr_read` or `null_read` has for place i. */
    method FetchByte(i: nat) returns (byte: Byte, bad: bool)
      ensures byte == OutByte(mapped, State(), i)
      ensures bad == (modId == JM_WISHBONE && i < size && !mapped(Address(addr, i)))
    {
      byte, bad := Zeros(8), false;
      if modId == JM_WISHBONE {
        if i < size {
          if !mapped(Address(addr, i)) {
            bad := true;
          } else {
            byte := Load(mem, Address(addr, i));
          }
        }
      } else if modId == JM_CPU0 {
        var spr := Spr(State(), addr % MAX_SPRS);
        if i < 4 {
          byte := Shr(spr, 8 * i, 8);
          assert byte == spr[8 * i..8 * i + 8];
        }
      }
    }

    /** The transfer loop of the three read functions. */
    method TransferOut(jreg: array<Byte>, k: nat) returns (crc: Register, bad: bool)
      requires k + 5 <= jreg.Length
      modifies jreg
      ensures Transferred(mapped, State(), old(Stream(jreg[..])), Stream(jreg[..]), crc, k)
      ensures bad == (modId == JM_WISHBONE && !AllMapped(mapped, addr, Min(k, size)))
    {
      ghost var s := Stream(jreg[..]);
      crc, bad := Ones(32), false;
      TransferStart(mapped, State(), s);
      for i := 0 to k
        invariant Transferred(mapped, State(), s, Stream(jreg[..]), crc, i)
        invariant bad == (modId == JM_WISHBONE && !AllMapped(mapped, addr, Min(i, size)))
      {
        ghost var before, crc0 := Stream(jreg[..]), crc;
        var missing;
        crc, missing := TransferByte(jreg, i, crc);
        bad := bad || missing;
        MappedNext(mapped, addr, i, size);
        TransferNext(mapped, State(), s, before, Stream(jreg[..]), crc0, crc, i);
      }
    }

    method TransferByte(jreg: array<Byte>, i: nat, crcIn: Register) returns (crc: Register, bad: bool)
      requires i + 6 <= jreg.Length
      modifies jreg
      ensures var x := Msb(OutByte(mapped, State(), i));
              Stream(jreg[..]) == Put(old(Stream(jreg[..])), 37 + 8 * i, x) && crc == Feed(POLY, crcIn, x)
      ensures bad == (modId == JM_WISHBONE && i < size && !mapped(Address(addr, i)))
    {
      var byte;
      byte, bad := FetchByte(i);
      crc := Crc32(byte, 8, crcIn);
      assert byte[..8] == byte;
      ReverseByteCorrect(byte);
      StoreByte(jreg, i, ReverseByte(byte));
    }

    /** `go_command_write`. */
    method GoCommandWrite(jreg: array<Byte>, numBits: nat, ghost r: Request)
      requires 73 <= numBits <= 8 * jreg.Length && !Stream(jreg[..])[0] && Command(Stream(jreg[..])) == JCMD_GO
      requires r == ParseGo(Stream(jreg[..]), numBits)
      modifies this`mem, this`sprs, this`addr, jreg
      ensures State() == GoWritten(mapped, old(State()), r)
      ensures Stream(jreg[..]) == GoWriteOut(mapped, old(State()), old(Stream(jreg[..])), numBits)
    {
      var regBits := 73 + 8 * size;
      var k := if regBits == numBits then size else (size * 8 + numBits - regBits) / 8;
      assert k == Room(numBits);
      var ok := DataVerified(jreg, k);
      ghost var d := State();
      var bad := WriteOut(jreg, numBits, k, ok, r);
      RespondToWrite(jreg, numBits, k, ok, bad, regBits != numBits, d);
    }

    method RespondToWrite(jreg: array<Byte>, ghost numBits: nat, k: nat, ok: bool, bad: bool, over: bool, ghost d: Debug)
      requires 73 <= numBits <= 8 * jreg.Length && k == Room(numBits) && over == Overrun(d, numBits)
      requires ok == CrcOk(Stream(jreg[..]), 5 + 8 * k)
      requires bad == (ok && d.modId == JM_WISHBONE && !AllMapped(mapped, d.addr, Used(d, numBits)))
      modifies jreg
      ensures Stream(jreg[..]) == GoWriteOut(mapped, d, old(Stream(jreg[..])), numBits)
    {
      ghost var s := Stream(jreg[..]);
      ConstructResponse(jreg, Status(!ok, false, bad, over), Ones(32), 0, 37 + 8 * k);
      GoWriteIs(mapped, d, s, numBits, ok, bad);
    }

    method WriteOut(jreg: array<Byte>, numBits: nat, k: nat, ok: bool, ghost r: Request) returns (bad: bool)
      requires 73 <= numBits <= 8 * jreg.Length && k == Room(numBits)
      requires r.Go? && r.n == numBits && r.writeOk == ok && r.data == Written(Stream(jreg[..]), k)
      modifies this`mem, this`sprs, this`addr
      ensures State() == GoWritten(mapped, old(State()), r)
      ensures var d := old(State()); bad == (ok && d.modId == JM_WISHBONE && !AllMapped(mapped, d.addr, Used(d, numBits)))
    {
      WrittenPrefix(Stream(jreg[..]), k, Min(k, size));
      WrittenPrefix(Stream(jreg[..]), k, Min(k, 4));
      bad := false;
      if ok {
        if modId == JM_WISHBONE {
          bad := WishboneWrite(jreg, k, 73 + 8 * size != numBits);
        } else if modId == JM_CPU0 {
          SprWrite(jreg, k, 73 + 8 * size != numBits);
        }
      }
    }

    /** `go_command_read`. */
    method GoCommandRead(jreg: array<Byte>, numBits: nat, ghost r: Request)
      requires 73 <= numBits <= 8 * jreg.Length && !Stream(jreg[..])[0] && Command(Stream(jreg[..])) == JCMD_GO
      requires r == ParseGo(Stream(jreg[..]), numBits)
      modifies this`addr, jreg
      ensures State() == GoReadNext(mapped, old(State()), r)
      ensures Stream(jreg[..]) == GoReadOut(mapped, old(State()), old(Stream(jreg[..])), numBits)
    {
      var regBits := 73 + 8 * size;
      var k := if regBits == numBits then size else (size * 8 + numBits - regBits) / 8;
      assert k == Room(numBits);
      ghost var d, s := State(), Stream(jreg[..]);
      var ok, bad, crcOut := ReadAndAdvance(jreg, k, regBits != numBits, r);
      RespondToRead(jreg, numBits, k, ok, bad, regBits != numBits, crcOut, d, s);
    }

    method ReadAndAdvance(jreg: array<Byte>, k: nat, over: bool, ghost r: Request) returns (ok: bool, bad: bool, crcOut: Register)
      requires k + 10 <= jreg.Length && !Stream(jreg[..])[0] && Command(Stream(jreg[..])) == JCMD_GO
      requires r.Go? && Room(r.n) == k && r.readOk == CrcOk(Stream(jreg[..]), 5) && over == Overrun(State(), r.n)
      modifies this`addr, jreg
      ensures State() == GoReadNext(mapped, old(State()), r) && ok == r.readOk
      ensures var d, s := old(State()), old(Stream(jreg[..]));
              && bad == (ok && d.modId == JM_WISHBONE && !AllMapped(mapped, d.addr, Used(d, r.n)))
              && Fetched(mapped, d, s, Stream(jreg[..]), ok, crcOut, k)
    {
      ghost var d := State();
      ok, bad, crcOut := ReadData(jreg, k);
      AdvanceAfterRead(!ok || over || bad);
      GoReadAdvance(mapped, d, r, ok, bad);
    }

    method RespondToRead(jreg: array<Byte>, ghost numBits: nat, k: nat, ok: bool, bad: bool, over: bool, crcOut: Register,
                         ghost d: Debug, ghost s: seq<bool>)
      requires 73 <= numBits <= 8 * jreg.Length == |s| && k == Room(numBits) && over == Overrun(d, numBits)
      requires ok == CrcOk(s, 5)
      requires bad == (ok && d.modId == JM_WISHBONE && !AllMapped(mapped, d.addr, Used(d, numBits)))
      requires Fetched(mapped, d, s, Stream(jreg[..]), ok, crcOut, k)
      modifies jreg
      ensures Stream(jreg[..]) == GoReadOut(mapped, d, s, numBits)
    {
      GoReadIs(mapped, d, s, numBits, ok, bad);
      ConstructResponse(jreg, Status(!ok, false, bad, over), crcOut, 8 * k, 37);
    }

    method ReadData(jreg: array<Byte>, k: nat) returns (ok: bool, bad: bool, crcOut: Register)
      requires k + 10 <= jreg.Length && !Stream(jreg[..])[0] && Command(Stream(jreg[..])) == JCMD_GO
      modifies jreg
      ensures ok == CrcOk(old(Stream(jreg[..])), 5)
      ensures bad == (ok && modId == JM_WISHBONE && !AllMapped(mapped, addr, Min(k, size)))
      ensures Fetched(mapped, State(), old(Stream(jreg[..])), Stream(jreg[..]), ok, crcOut, k)
    {
      bad, crcOut := false, Zeros(32);
      ok := HeadField(jreg, JCMD_GO);
      if ok {
        crcOut, bad := TransferOut(jreg, k);
      }
    }

    method AdvanceAfterRead(failed: bool)
      modifies this`addr
      ensures addr == if failed then old(addr) else if modId == JM_WISHBONE then old(addr) + size
                      else if modId == JM_CPU0 then old(addr) + 1 else old(addr)
    {
      if !failed {
        if modId == JM_WISHBONE {
          addr := addr + size;
        } else if modId == JM_CPU0 {
          addr := addr + 1;
        }
      }
    }

    method ClearRegister(jreg: array<Byte>, n: nat)
      requires n <= jreg.Length
      modifies jreg
      ensures Stream(jreg[..]) == Put(old(Stream(jreg[..])), 0, Zeros(8 * n))
    {
      ghost var a := jreg[..];
      for i := 0 to n
        invariant forall c: nat :: c < i ==> jreg[c] == Zeros(8)
        invariant forall c: nat :: i <= c < jreg.Length ==> jreg[c] == a[c]
      {
        jreg[i] := Zeros(8);
      }
      ClearedPut(a, jreg[..], n);
    }

    /** `go_command`. */
    method GoCommand(jreg: array<Byte>, numBits: nat)
      requires numBits <= 8 * jreg.Length && (writeDefined ==> 73 <= numBits) && 1 <= jreg.Length
      requires !Stream(jreg[..])[0] && Command(Stream(jreg[..])) == JCMD_GO
      modifies this`mem, this`sprs, this`addr, jreg
      ensures Stream(jreg[..]) == GoOut(mapped, old(State()), old(Stream(jreg[..])), numBits)
      ensures State() == Next(mapped, old(State()), ParseGo(old(Stream(jreg[..])), numBits))
    {
      GoIs(mapped, State(), Stream(jreg[..]), numBits, ParseGo(Stream(jreg[..]), numBits));
      if !writeDefined {
        ClearRegister(jreg, (numBits + 7) / 8);
      } else if accType == 0 || accType == 1 || accType == 2 {
        GoCommandWrite(jreg, numBits, ParseGo(Stream(jreg[..]), numBits));
      } else if accType == 4 || accType == 5 || accType == 6 {
        GoCommandRead(jreg, numBits, ParseGo(Stream(jreg[..]), numBits));
      }
    }

    /** `jtag_shift_dr`. */
    method Shift(jreg: array<Byte>, numBits: nat)
      requires Shiftable(State(), Stream(jreg[..]), numBits)
      modifies this, jreg
      ensures (State(), Stream(jreg[..])) == old(ShiftDr(mapped, State(), Stream(jreg[..]), numBits))
    {
      if instr != JI_DEBUG {
        return;
      }
      ghost var s := Stream(jreg[..]);
      StreamAt(jreg[..], 0, 0);
      if jreg[0][0] {
        SelectModule(jreg, numBits);
      } else {
        Nibble1Is(jreg[..]);
        var c := Val(Reversed(Nibble1(jreg[..]), 4));
        assert c == Command(s);
        ShiftCommand(jreg, numBits, c);
      }
    }

    method ShiftCommand(jreg: array<Byte>, numBits: nat, c: nat)
      requires instr == JI_DEBUG && Shiftable(State(), Stream(jreg[..]), numBits)
      requires !Stream(jreg[..])[0] && Command(Stream(jreg[..])) == c
      modifies this, jreg
      ensures (State(), Stream(jreg[..])) == old(ShiftDr(mapped, State(), Stream(jreg[..]), numBits))
    {
      ghost var d, s := State(), Stream(jreg[..]);
      if c == JCMD_GO {
        ShiftGo(mapped, d, s, numBits);
        GoCommand(jreg, numBits);
      } else if c == JCMD_WRITE {
        ShiftWrite(mapped, d, s, numBits);
        WriteCommand(jreg, numBits);
      } else if numBits == 125 {
        ShiftFixed(mapped, d, s, c);
        ghost var r := RequestOf(d, s, 125);
        if c == JCMD_READ {
          ShiftRead(mapped, d, s, r);
          ReadCommand(jreg);
        } else if c == JCMD_READ_CONTROL {
          ShiftReadControl(mapped, d, s, r);
          ReadControl(jreg);
        } else if c == JCMD_WRITE_CONTROL {
          ShiftWriteControl(mapped, d, s, r);
          WriteControl(jreg);
        } else {
          ShiftIgnored(mapped, d, s, r);
        }
      }
    }
  }
}
