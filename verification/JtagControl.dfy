/** What single shifts do, told by the bits of the register alone: the control register, the
    choice of a module, the status and the data of a GO packet. */
module JtagControl {
  import opened BitStrings
  import opened Crc
  import opened JtagRegister
  import opened JtagProtocol
  import opened JtagSafety
  import opened JtagStreaming

  /** The register starts with these bits. */
  predicate StartsWith(s: seq<bool>, bits: seq<bool>) { bits <= s }

  const GO := [false, false, false, false, false]
  const WRITE_COMMAND := [false, false, false, true, false]
  const READ_CONTROL := [false, false, false, true, true]
  const WRITE_CONTROL := [false, false, true, false, false]

  /** A buffer that holds n bits. */
  predicate Buffer(s: seq<bool>, n: nat) { n <= |s| && 8 <= |s| && |s| % 8 == 0 }

  function Digit(b: bool, v: nat): nat { if b then v else 0 }

  lemma {:induction false} FourBits(x: BitString)
    requires |x| == 4
    ensures Val(x) == Digit(x[0], 1) + Digit(x[1], 2) + Digit(x[2], 4) + Digit(x[3], 8)
  {
    var y, z, t := x[1..], x[2..], x[3..];
    assert y[1..] == z && z[1..] == t && t[1..] == [];
    assert Val(t) == Digit(t[0], 1) && Val(z) == Digit(z[0], 1) + 2 * Val(t) && Val(y) == Digit(y[0], 1) + 2 * Val(z);
    assert y[0] == x[1] && z[0] == x[2] && t[0] == x[3];
  }

  /** Bits 1 to 4 of the register as a number, most significant first. */
  lemma {:induction false} CodeIs(s: seq<bool>)
    requires 8 <= |s|
    ensures Command(s) == Digit(s[1], 8) + Digit(s[2], 4) + Digit(s[3], 2) + Digit(s[4], 1)
  {
    FourBits(Field(s, 1, 4));
  }

  lemma {:induction false} Coded(s: seq<bool>, bits: seq<bool>)
    requires 8 <= |s| && bits <= s && bits in {GO, WRITE_COMMAND, READ_CONTROL, WRITE_CONTROL}
    ensures !s[0] && Command(s) == if bits == GO then JCMD_GO
                                   else if bits == WRITE_COMMAND then JCMD_WRITE
                                   else if bits == READ_CONTROL then JCMD_READ_CONTROL else JCMD_WRITE_CONTROL
  {
    CodeIs(s);
    assert s[0] == bits[0] && s[1] == bits[1] && s[2] == bits[2] && s[3] == bits[3] && s[4] == bits[4];
  }

  // ---------------------------------------------------- the control register

  /** Data bits are shifted most significant first: bit 51 asks for a reset, bit 50 for a stall. */
  lemma {:induction false} ControlData(s: seq<bool>)
    requires 125 <= |s|
    ensures ParseControl(s) == WriteControl(CrcOk(s, 57), s[5], s[6])
  {
  }

  /** A WRITE_CONTROL register with a right CRC resets the processor if its reset bit was shifted
      in, and otherwise stalls or releases it as its stall bit says; one with a wrong CRC, or for
      another module than the processor, does nothing. */
  lemma {:induction false} ControlWritten(mapped: int -> bool, d: Debug, s: seq<bool>)
    requires Buffer(s, 125) && StartsWith(s, WRITE_CONTROL) && d.instr == JI_DEBUG
    ensures Shiftable(d, s, 125)
    ensures ShiftDr(mapped, d, s, 125).0 ==
            if !CrcOk(s, 57) || d.modId != JM_CPU0 then d
            else if s[5] then d.(resets := d.resets + 1)
            else d.(stalled := s[6])
  {
    ControlParsed(d, s);
  }

  lemma {:induction false} ControlParsed(d: Debug, s: seq<bool>)
    requires Buffer(s, 125) && StartsWith(s, WRITE_CONTROL) && d.instr == JI_DEBUG
    ensures RequestOf(d, s, 125) == WriteControl(CrcOk(s, 57), s[5], s[6])
  {
    Coded(s, WRITE_CONTROL);
    ControlData(s);
  }

  /** The bits that a WRITE register shifts out: zeros and whether the CRC was wrong. */
  lemma {:induction false} ControlAnswered(mapped: int -> bool, d: Debug, s: seq<bool>)
    requires Buffer(s, 125) && StartsWith(s, WRITE_CONTROL) && d.instr == JI_DEBUG && Shiftable(d, s, 125)
    requires ClearAhead(s, 89)
    ensures ShiftDr(mapped, d, s, 125).1[..93] == Zeros(89) + [false, false, false, !CrcOk(s, 57)]
  {
    ControlParsed(d, s);
    StatusAt(s, !CrcOk(s, 57), false, false, false, Ones(32), 89);
  }

  lemma {:induction false} StatusBits(a: bool, b: bool, c: bool, d: bool)
    ensures Msb(Status(a, b, c, d)) == [d, c, b, a]
  {
    var x, y := Msb(Status(a, b, c, d)), [d, c, b, a];
    assert x[0] == y[0] && x[1] == y[1] && x[2] == y[2] && x[3] == y[3];
  }

  /** Four status bits behind zeros, the CRC error last. */
  lemma {:induction false} StatusAt(s: seq<bool>, crcError: bool, missing: bool, wishbone: bool, overrun: bool, crc: Register,
                                    zero: nat)
    requires zero + 36 <= |s| && ClearAhead(s, zero)
    ensures Reply(s, Status(crcError, missing, wishbone, overrun), crc, 0, zero)[..zero + 4] ==
            Zeros(zero) + [overrun, wishbone, missing, crcError]
  {
    var status := Status(crcError, missing, wishbone, overrun);
    var c := Feed(POLY, crc, Msb(status));
    ResponseFields(s, status, c, 0, zero);
    var r := Response(s, status, c, 0, zero);
    assert r[..zero + 4] == r[..zero] + r[zero..zero + 4];
    StatusBits(crcError, missing, wishbone, overrun);
  }

  /** A READ_CONTROL register that the host filled with zeros behind its CRC. */
  predicate AsksControl(s: seq<bool>)
  {
    Buffer(s, 128) && StartsWith(s, READ_CONTROL) && CrcOk(s, 5) && forall k :: 37 <= k < 128 ==> !s[k]
  }

  /** READ_CONTROL shifts out whether the processor is stalled, and else only zeros. */
  lemma {:induction false} ControlRead(mapped: int -> bool, d: Debug, s: seq<bool>)
    requires AsksControl(s) && d.instr == JI_DEBUG
    ensures Shiftable(d, s, 125) && ShiftDr(mapped, d, s, 125).0 == d
    ensures ShiftDr(mapped, d, s, 125).1[..93] == Zeros(38) + [d.modId == JM_CPU0 && d.stalled] + Zeros(54)
  {
    var x, out, b := Msb(ControlBits(d)), ShiftDr(mapped, d, s, 125).1, d.modId == JM_CPU0 && d.stalled;
    ReadParsed(mapped, d, s);
    Replied(s, x);
    ControlBitsAre(d, x, b);
    Around(out, x, b);
  }

  lemma {:induction false} ReadParsed(mapped: int -> bool, d: Debug, s: seq<bool>)
    requires AsksControl(s) && d.instr == JI_DEBUG
    ensures RequestOf(d, s, 125) == Request.ReadControl(true) && Shiftable(d, s, 125)
    ensures ShiftDr(mapped, d, s, 125) == (d, ReadOut(s, true, Msb(ControlBits(d))))
  {
    ReadAsked(d, s);
  }

  lemma {:induction false} ReadAsked(d: Debug, s: seq<bool>)
    requires AsksControl(s) && d.instr == JI_DEBUG
    ensures RequestOf(d, s, 125) == Request.ReadControl(true)
  {
    Coded(s, READ_CONTROL);
  }

  lemma {:induction false} ControlBitsAre(d: Debug, x: seq<bool>, b: bool)
    requires x == Msb(ControlBits(d)) && b == (d.modId == JM_CPU0 && d.stalled)
    ensures x == [false, b] + Zeros(50)
  {
  }

  lemma {:induction false} Around(out: seq<bool>, x: seq<bool>, b: bool)
    requires 93 <= |out| && out[..37] == Zeros(37) && out[37..89] == x == [false, b] + Zeros(50) && out[89..93] == Zeros(4)
    ensures out[..93] == Zeros(38) + [b] + Zeros(54)
  {
    var y := Zeros(38) + [b] + Zeros(54);
    forall k | 0 <= k < 93
      ensures out[k] == y[k]
    {
      if k < 37 {
        assert out[k] == out[..37][k];
      } else if k < 89 {
        assert out[k] == out[37..89][k - 37];
      } else {
        assert out[k] == out[89..93][k - 89];
      }
    }
  }

  /** The stall bit that WRITE_CONTROL shifted in is the one READ_CONTROL shifts out. */
  lemma {:induction false} StallReadBack(mapped: int -> bool, d: Debug, w: seq<bool>, e: Debug, r: seq<bool>)
    requires Buffer(w, 125) && StartsWith(w, WRITE_CONTROL) && CrcOk(w, 57) && !w[5] && AsksControl(r)
    requires d.instr == JI_DEBUG && d.modId == JM_CPU0 && Shiftable(d, w, 125) && e == ShiftDr(mapped, d, w, 125).0
    ensures Shiftable(e, r, 125) && ShiftDr(mapped, e, r, 125).1[..93] == Zeros(38) + [w[6]] + Zeros(54)
  {
    ControlWritten(mapped, d, w);
    ControlRead(mapped, e, r);
  }

  // ------------------------------------------------------ defining an access

  /** The n bits from o on as a number, most significant first. */
  function Number(s: seq<bool>, o: nat, n: nat): nat
    requires o + n <= |s|
  {
    if n == 0 then 0 else 2 * Number(s, o, n - 1) + Digit(s[o + n - 1], 1)
  }

  lemma {:induction false} NumberIs(s: seq<bool>, o: nat, n: nat)
    requires o + n <= |s|
    ensures Val(Field(s, o, n)) == Number(s, o, n)
  {
    if n > 0 {
      NumberIs(s, o, n - 1);
      var x := Field(s, o, n);
      assert x[1..] == Field(s, o, n - 1) && x[0] == s[o + n - 1];
    }
  }

  /** How wide an access of this type is. */
  function Width(acc: nat): nat { if acc in {0, 4} then 1 else if acc in {1, 5} then 2 else 4 }

  /** A WRITE_COMMAND register whose CRC is right defines the access it names, if the module selected
      can make it: a write or a read of bytes, half words or words at an aligned address and of whole
      units, or of one word for a special-purpose register.  Any other withdraws what was defined. */
  lemma {:induction false} CommandDefines(mapped: int -> bool, d: Debug, s: seq<bool>, acc: nat, addr: nat, size: nat)
    requires Buffer(s, 125) && StartsWith(s, WRITE_COMMAND) && d.instr == JI_DEBUG
    requires acc == Number(s, 5, 4) && addr == Number(s, 9, 32) && size == Number(s, 41, 16) + 1
    ensures Shiftable(d, s, 125)
    ensures ShiftDr(mapped, d, s, 125).0 ==
            if CrcOk(s, 57) && d.modId == JM_WISHBONE && acc in {0, 1, 2, 4, 5, 6} && addr % Width(acc) == 0 && size % Width(acc) == 0
            then d.(defined := true, acc := acc, addr := addr, size := size)
            else if CrcOk(s, 57) && d.modId == JM_CPU0 && acc in {2, 6} && size == 4
            then d.(defined := true, acc := acc, addr := addr % 0x1_0000, size := size)
            else d.(defined := false)
  {
    Coded(s, WRITE_COMMAND);
    NumberIs(s, 5, 4);
    NumberIs(s, 9, 32);
    NumberIs(s, 41, 16);
    var r := WriteCommand(CrcOk(s, 57), acc, addr, size);
    assert RequestOf(d, s, 125) == r;
    CommandIs(d, r);
  }

  lemma {:induction false} CommandIs(d: Debug, r: Request)
    requires r.WriteCommand?
    ensures Commanded(d, r) ==
            if r.ok && d.modId == JM_WISHBONE && r.acc in {0, 1, 2, 4, 5, 6}
               && r.addr % Width(r.acc) == 0 && r.size % Width(r.acc) == 0
            then d.(defined := true, acc := r.acc, addr := r.addr, size := r.size)
            else if r.ok && d.modId == JM_CPU0 && r.acc in {2, 6} && r.size == 4
            then d.(defined := true, acc := r.acc, addr := r.addr % 0x1_0000, size := r.size)
            else d.(defined := false)
  {
  }

  // ------------------------------------------------------- choosing a module

  /** The module that bits 1 to 4 name, most significant first. */
  function ModuleOf(s: seq<bool>): int
    requires 8 <= |s|
  {
    if s[1] || s[2] then JM_UNDEFINED
    else if !s[3] && !s[4] then JM_WISHBONE
    else if !s[3] && s[4] then JM_CPU0
    else if s[3] && !s[4] then JM_CPU1
    else JM_UNDEFINED
  }

  /** A module select with a right CRC leaves exactly the module shifted in selected, or none if
      there is no such module; one with a wrong CRC or of another length leaves the old one. */
  lemma {:induction false} ModuleSelected(mapped: int -> bool, d: Debug, s: seq<bool>, n: nat)
    requires Buffer(s, n) && s[0] && d.instr == JI_DEBUG
    ensures Shiftable(d, s, n)
    ensures ShiftDr(mapped, d, s, n).0 == if n == 73 && CrcOk(s, 5) then d.(modId := ModuleOf(s)) else d
  {
    CodeIs(s);
  }

  lemma {:induction false} SelectOut(mapped: int -> bool, d: Debug, s: seq<bool>, ok: bool)
    requires Buffer(s, 73) && s[0] && d.instr == JI_DEBUG && Shiftable(d, s, 73) && ok == CrcOk(s, 5)
    ensures ShiftDr(mapped, d, s, 73).1 ==
            Reply(s, Status(!ok, ok && ModuleOf(s) == JM_UNDEFINED, false, false), Ones(32), 0, 37)
  {
    CodeIs(s);
  }

  /** It shifts out zeros, whether the module is missing and whether the CRC was wrong. */
  lemma {:induction false} SelectAnswered(mapped: int -> bool, d: Debug, s: seq<bool>, ok: bool, out: seq<bool>)
    requires Buffer(s, 73) && s[0] && d.instr == JI_DEBUG && Shiftable(d, s, 73) && ClearAhead(s, 37)
    requires ok == CrcOk(s, 5) && out == ShiftDr(mapped, d, s, 73).1
    ensures 41 <= |out| && out[..41] == Zeros(37) + [false, false, ok && ModuleOf(s) == JM_UNDEFINED, !ok]
  {
    SelectOut(mapped, d, s, ok);
    StatusAt(s, !ok, ok && ModuleOf(s) == JM_UNDEFINED, false, false, Ones(32), 37);
  }

  // ---------------------------------------------------------------- GO packets

  /** A GO packet of n bits. */
  predicate GoPacket(d: Debug, s: seq<bool>, n: nat)
  {
    Buffer(s, n) && 73 <= n && StartsWith(s, GO) && d.instr == JI_DEBUG && d.defined
  }

  lemma {:induction false} GoIsGo(d: Debug, s: seq<bool>, n: nat)
    requires GoPacket(d, s, n)
    ensures RequestOf(d, s, n) == ParseGo(s, n) && Shiftable(d, s, n)
  {
    Coded(s, GO);
  }

  /** A packet for size bytes has room for just these. */
  lemma {:induction false} RoomIs(size: nat, n: nat)
    requires n == 73 + 8 * size
    ensures Room(n) == size
  {
  }

  lemma {:induction false} GoOutOf(mapped: int -> bool, d: Debug, s: seq<bool>, n: nat)
    requires GoPacket(d, s, n) && Shiftable(d, s, n)
    ensures ShiftDr(mapped, d, s, n).1 == GoOut(mapped, d, s, n)
  {
    GoIsGo(d, s, n);
  }

  lemma {:induction false} GoNextOf(mapped: int -> bool, d: Debug, s: seq<bool>, n: nat)
    requires GoPacket(d, s, n) && Shiftable(d, s, n) && d.acc in {0, 1, 2}
    ensures ShiftDr(mapped, d, s, n).0 == GoWritten(mapped, d, ParseGo(s, n))
  {
    GoIsGo(d, s, n);
  }

  /** Some of the first k bytes of the access are at no mapped address. */
  predicate Unmapped(mapped: int -> bool, d: Debug, k: nat)
  {
    d.modId == JM_WISHBONE && exists i: nat :: i < k && i < d.size && !mapped(Address(d.addr, i))
  }

  lemma {:induction false} UnmappedIs(mapped: int -> bool, d: Debug, k: nat)
    ensures Unmapped(mapped, d, k) <==> d.modId == JM_WISHBONE && !AllMapped(mapped, d.addr, Min(k, d.size))
  {
  }

  lemma {:induction false} WriteReplyIs(mapped: int -> bool, d: Debug, s: seq<bool>, n: nat, ok: bool, bad: bool)
    requires GoPacket(d, s, n) && d.acc in {0, 1, 2} && Shiftable(d, s, n)
    requires ok == CrcOk(s, 5 + 8 * Room(n)) && bad == (ok && Unmapped(mapped, d, Room(n)))
    ensures ShiftDr(mapped, d, s, n).1 == GoWriteReply(d, s, n, ok, bad)
  {
    GoOutOf(mapped, d, s, n);
    UnmappedIs(mapped, d, Room(n));
  }

  /** The status of a write packet: over- or underrun, bus error, and CRC error. */
  lemma {:induction false} WriteStatus(mapped: int -> bool, d: Debug, s: seq<bool>, n: nat, ok: bool, bad: bool, over: bool)
    requires GoPacket(d, s, n) && d.acc in {0, 1, 2} && Shiftable(d, s, n) && ClearAhead(s, 37 + 8 * Room(n))
    requires ok == CrcOk(s, 5 + 8 * Room(n)) && bad == (ok && Unmapped(mapped, d, Room(n))) && over == (n != 73 + 8 * d.size)
    ensures 41 + 8 * Room(n) <= |s| == |ShiftDr(mapped, d, s, n).1|
    ensures ShiftDr(mapped, d, s, n).1[..41 + 8 * Room(n)] == Zeros(37 + 8 * Room(n)) + [over, bad, false, !ok]
  {
    WriteReplyIs(mapped, d, s, n, ok, bad);
    WriteReplyStatus(d, s, n, ok, bad, over);
  }

  lemma {:induction false} WriteReplyStatus(d: Debug, s: seq<bool>, n: nat, ok: bool, bad: bool, over: bool)
    requires 73 <= n <= |s| && ClearAhead(s, 37 + 8 * Room(n)) && over == Overrun(d, n)
    ensures |s| == |GoWriteReply(d, s, n, ok, bad)|
    ensures GoWriteReply(d, s, n, ok, bad)[..41 + 8 * Room(n)] == Zeros(37 + 8 * Room(n)) + [over, bad, false, !ok]
  {
    StatusAt(s, !ok, false, bad, over, Ones(32), 37 + 8 * Room(n));
  }

  lemma {:induction false} ReadReplyIs(mapped: int -> bool, d: Debug, s: seq<bool>, n: nat, ok: bool, bad: bool)
    requires GoPacket(d, s, n) && d.acc in {4, 5, 6} && Shiftable(d, s, n)
    requires ok == CrcOk(s, 5) && bad == (ok && Unmapped(mapped, d, Room(n)))
    ensures ShiftDr(mapped, d, s, n).1 == GoReadReply(mapped, d, s, n, ok, bad)
  {
    GoOutOf(mapped, d, s, n);
    UnmappedIs(mapped, d, Room(n));
  }

  /** The status of a read packet, behind its data. */
  lemma {:induction false} ReadStatus(mapped: int -> bool, d: Debug, s: seq<bool>, n: nat, ok: bool, bad: bool, over: bool,
                                      ign: nat, out: seq<bool>)
    requires GoPacket(d, s, n) && d.acc in {4, 5, 6} && Shiftable(d, s, n) && ign == 8 * Room(n) && ClearAhead(s, 37 + ign)
    requires ok == CrcOk(s, 5) && bad == (ok && Unmapped(mapped, d, Room(n))) && over == (n != 73 + 8 * d.size)
    requires out == ShiftDr(mapped, d, s, n).1
    ensures 41 + ign <= |out| == |s| && out[37 + ign..41 + ign] == [over, bad, false, !ok]
  {
    ReadReplyIs(mapped, d, s, n, ok, bad);
    if ok {
      GoodReplyStatus(mapped, d, s, n, bad, over, Shifted(Outgoing(mapped, d, Room(n))), ign, out);
    } else {
      BadReplyStatus(mapped, d, s, n, bad, over, ign, out);
    }
  }

  lemma {:induction false} GoodReplyStatus(mapped: int -> bool, d: Debug, s: seq<bool>, n: nat, bad: bool, over: bool,
                                           bits: seq<bool>, ign: nat, out: seq<bool>)
    requires 73 <= n <= |s| && ign == 8 * Room(n) && ClearAhead(s, 37 + ign) && over == Overrun(d, n)
    requires bits == Shifted(Outgoing(mapped, d, Room(n))) && out == GoReadReply(mapped, d, s, n, true, bad)
    ensures 41 + ign <= |out| == |s| && out[37 + ign..41 + ign] == [over, bad, false, false]
  {
    GoodReplyIs(mapped, d, s, n, bad, over, bits, ign);
    DataReplyStatus(s, bits, ign, bad, over, out);
  }

  lemma {:induction false} BadReplyStatus(mapped: int -> bool, d: Debug, s: seq<bool>, n: nat, bad: bool, over: bool,
                                          ign: nat, out: seq<bool>)
    requires 73 <= n <= |s| && ign == 8 * Room(n) && ClearAhead(s, 37 + ign) && over == Overrun(d, n)
    requires out == GoReadReply(mapped, d, s, n, false, bad)
    ensures 41 + ign <= |out| == |s| && out[37 + ign..41 + ign] == [over, bad, false, true]
  {
    BadReplyIs(mapped, d, s, n, bad, over, ign);
    StatusBehind(s, true, false, bad, over, Zeros(32), ign);
  }

  lemma {:induction false} GoodReplyIs(mapped: int -> bool, d: Debug, s: seq<bool>, n: nat, bad: bool, over: bool, bits: seq<bool>,
                                       ign: nat)
    requires 73 <= n <= |s| && over == Overrun(d, n) && bits == Shifted(Outgoing(mapped, d, Room(n))) && ign == 8 * Room(n)
    ensures GoReadReply(mapped, d, s, n, true, bad) ==
            Reply(Put(s, 37, bits), Status(false, false, bad, over), Feed(POLY, Ones(32), bits), ign, 37)
  {
  }

  lemma {:induction false} BadReplyIs(mapped: int -> bool, d: Debug, s: seq<bool>, n: nat, bad: bool, over: bool, ign: nat)
    requires 73 <= n <= |s| && over == Overrun(d, n) && ign == 8 * Room(n)
    ensures GoReadReply(mapped, d, s, n, false, bad) == Reply(s, Status(true, false, bad, over), Zeros(32), ign, 37)
  {
  }

  lemma {:induction false} DataReplyStatus(s: seq<bool>, bits: seq<bool>, ign: nat, bad: bool, over: bool, out: seq<bool>)
    requires ign == |bits| && 73 + ign <= |s| && ClearAhead(s, 37 + ign)
    requires out == Reply(Put(s, 37, bits), Status(false, false, bad, over), Feed(POLY, Ones(32), bits), ign, 37)
    ensures |out| == |s| && out[37 + ign..41 + ign] == [over, bad, false, false]
  {
    PutKeepsAhead(s, 37, bits);
    StatusBehind(Put(s, 37, bits), false, false, bad, over, Feed(POLY, Ones(32), bits), ign);
  }

  lemma {:induction false} StatusBehind(t: seq<bool>, crcError: bool, missing: bool, wishbone: bool, overrun: bool, crc: Register,
                                        ign: nat)
    requires 73 + ign <= |t| && ClearAhead(t, 37 + ign)
    ensures Reply(t, Status(crcError, missing, wishbone, overrun), crc, ign, 37)[37 + ign..41 + ign] ==
            [overrun, wishbone, missing, crcError]
  {
    var status := Status(crcError, missing, wishbone, overrun);
    ResponseFields(t, status, Feed(POLY, crc, Msb(status)), ign, 37);
    StatusBits(crcError, missing, wishbone, overrun);
  }

  /** Bit j of the i-th data byte, as shifted most significant first. */
  predicate DataBit(s: seq<bool>, o: nat, i: nat, j: nat)
    requires o + 8 * i + 8 <= |s| && j < 8
  {
    s[o + 8 * i + 7 - j]
  }

  /** A verified write packet puts its i-th byte at the i-th address of the access, bit by bit. */
  lemma {:induction false} WriteBits(mapped: int -> bool, d: Debug, s: seq<bool>, n: nat, i: nat, j: nat)
    requires GoPacket(d, s, n) && d.acc in {0, 1, 2} && d.modId == JM_WISHBONE && n == 73 + 8 * d.size
    requires CrcOk(s, 5 + 8 * d.size) && Shiftable(d, s, n) && AllMapped(mapped, d.addr, d.size)
    requires i < d.size <= 0x1_0000 && j < 8
    ensures var a, e := Address(d.addr, i), ShiftDr(mapped, d, s, n).0; a in e.mem && e.mem[a][j] == DataBit(s, 5, i, j)
  {
    var data := Written(s, d.size);
    GoWrote(mapped, d, s, n, data);
    StoredIn(mapped, d.mem, d.addr, data, i);
    StoredLoads(mapped, d.mem, d.addr, data, i);
    WrittenBit(s, data, d.size, i, j);
  }

  lemma {:induction false} WrittenBit(s: seq<bool>, data: seq<Byte>, k: nat, i: nat, j: nat)
    requires 5 + 8 * k <= |s| && data == Written(s, k) && i < k && j < 8
    ensures data[i][j] == DataBit(s, 5, i, j)
  {
    assert data[i] == DataByte(s, i);
  }

  lemma {:induction false} GoWrote(mapped: int -> bool, d: Debug, s: seq<bool>, n: nat, data: seq<Byte>)
    requires GoPacket(d, s, n) && d.acc in {0, 1, 2} && d.modId == JM_WISHBONE
    requires n == 73 + 8 * d.size && Shiftable(d, s, n) && data == Written(s, d.size)
    ensures ShiftDr(mapped, d, s, n).0.mem == if CrcOk(s, 5 + 8 * d.size) then Stored(mapped, d.mem, d.addr, data) else d.mem
  {
    GoNextOf(mapped, d, s, n);
    RoomIs(d.size, n);
    assert data[..d.size] == data;
  }

  lemma {:induction false} StoredIn(mapped: int -> bool, m: Memory, a: nat, data: seq<Byte>, i: nat)
    requires AllMapped(mapped, a, |data|) && i < |data|
    ensures Address(a, i) in Stored(mapped, m, a, data)
  {
    var k := |data| - 1;
    assert mapped(Address(a, k));
    if i < k {
      StoredIn(mapped, m, a, data[..k], i);
    }
  }

  /** And it changes no other address. */
  lemma {:induction false} StoredElsewhere(mapped: int -> bool, m: Memory, a: nat, data: seq<Byte>, x: int)
    requires forall i: nat :: i < |data| ==> x != Address(a, i)
    ensures var n := Stored(mapped, m, a, data); (x in n <==> x in m) && (x in m ==> n[x] == m[x])
  {
    if data != [] {
      StoredElsewhere(mapped, m, a, data[..|data| - 1], x);
    }
  }

  lemma {:induction false} WriteElsewhere(mapped: int -> bool, d: Debug, s: seq<bool>, n: nat, x: int)
    requires GoPacket(d, s, n) && d.acc in {0, 1, 2} && d.modId == JM_WISHBONE && n == 73 + 8 * d.size
    requires Shiftable(d, s, n)
    requires forall i: nat :: i < d.size ==> x != Address(d.addr, i)
    ensures var e := ShiftDr(mapped, d, s, n).0;
            (x in e.mem <==> x in d.mem) && (x in d.mem ==> e.mem[x] == d.mem[x])
  {
    var data := Written(s, d.size);
    GoWrote(mapped, d, s, n, data);
    StoredElsewhere(mapped, d.mem, d.addr, data, x);
  }

  /** A verified read packet shifts out the i-th byte of the access in its i-th place. */
  lemma {:induction false} ReadBits(mapped: int -> bool, d: Debug, s: seq<bool>, n: nat, i: nat, j: nat)
    requires GoPacket(d, s, n) && d.acc in {4, 5, 6} && d.modId == JM_WISHBONE && CrcOk(s, 5)
    requires n == 73 + 8 * d.size && Shiftable(d, s, n) && AllMapped(mapped, d.addr, d.size) && i < d.size && j < 8
    ensures var a := Address(d.addr, i);
            DataBit(ShiftDr(mapped, d, s, n).1, 37, i, j) == (a in d.mem && d.mem[a][j])
  {
    var bytes, out := Outgoing(mapped, d, d.size), ShiftDr(mapped, d, s, n).1;
    GoReadAnswers(mapped, d, s, d.size, n, bytes);
    assert mapped(Address(d.addr, i)) && bytes[i] == OutByte(mapped, d, i);
    ReadBit(bytes, out, d.size, i, j);
  }

  lemma {:induction false} ReadBit(bytes: seq<Byte>, out: seq<bool>, k: nat, i: nat, j: nat)
    requires i < k == |bytes| && j < 8 && 37 + 8 * k <= |out| && out[37..37 + 8 * k] == Shifted(bytes)
    ensures DataBit(out, 37, i, j) == bytes[i][j]
  {
    ShiftedByte(bytes, i, j);
    BitOf(out, 37, 8 * k, 8 * i + 7 - j);
  }

  lemma {:induction false} BitOf(s: seq<bool>, o: nat, n: nat, k: nat)
    requires o + n <= |s| && k < n
    ensures s[o..o + n][k] == s[o + k]
  {
  }

  lemma {:induction false} GoReadAnswers(mapped: int -> bool, d: Debug, s: seq<bool>, k: nat, n: nat, bytes: seq<Byte>)
    requires GoPacket(d, s, n) && d.acc in {4, 5, 6} && CrcOk(s, 5) && n == 73 + 8 * k && Shiftable(d, s, n)
    requires bytes == Outgoing(mapped, d, k)
    ensures ShiftDr(mapped, d, s, n).1[37..37 + 8 * k] == Shifted(bytes)
  {
    GoOutOf(mapped, d, s, n);
    RoomIs(k, n);
    ReadPacketOut(mapped, d, s, n, bytes);
  }

  lemma {:induction false} ShiftedByte(data: seq<Byte>, i: nat, j: nat)
    requires i < |data| && j < 8
    ensures Shifted(data)[8 * i + 7 - j] == data[i][j]
    decreases |data|
  {
    var k := |data| - 1;
    if i < k {
      ShiftedByte(data[..k], i, j);
    }
  }

  /** A value written to a special-purpose register is read back bit by bit. */
  lemma {:induction false} SprReadBack(mapped: int -> bool, d: Debug, w: seq<bool>, f: Debug, r: seq<bool>)
    requires GoPacket(d, w, 105) && d.acc == 2 && d.size == 4 && d.modId == JM_CPU0 && CrcOk(w, 37) && Shiftable(d, w, 105)
    requires GoPacket(f, r, 105) && f.acc == 6 && f.size == 4 && f.modId == JM_CPU0 && CrcOk(r, 5) && Shiftable(f, r, 105)
    requires f.sprs == ShiftDr(mapped, d, w, 105).0.sprs && f.addr % MAX_SPRS == d.addr % MAX_SPRS
    ensures ShiftDr(mapped, f, r, 105).1[37..69] == w[5..37]
    ensures ShiftDr(mapped, d, w, 105).0.addr == d.addr + 1
    ensures forall a :: a in d.sprs && a != d.addr % MAX_SPRS ==> a in f.sprs && f.sprs[a] == d.sprs[a]
  {
    var data, bytes := Written(w, 4), Outgoing(mapped, f, 4);
    SprWritten(mapped, d, w, data);
    SprBytes(mapped, f, data);
    GoReadAnswers(mapped, f, r, 4, 105, bytes);
    WrittenBits(w, 4);
  }

  lemma {:induction false} SprWritten(mapped: int -> bool, d: Debug, w: seq<bool>, data: seq<Byte>)
    requires GoPacket(d, w, 105) && d.acc == 2 && d.size == 4 && d.modId == JM_CPU0 && CrcOk(w, 37) && Shiftable(d, w, 105)
    requires data == Written(w, 4)
    ensures ShiftDr(mapped, d, w, 105).0 == d.(sprs := d.sprs[d.addr % MAX_SPRS := SprOf(data)], addr := d.addr + 1)
  {
    GoNextOf(mapped, d, w, 105);
    assert data[..4] == data;
  }

  lemma {:induction false} SprBytes(mapped: int -> bool, f: Debug, data: seq<Byte>)
    requires |data| == 4 && f.modId == JM_CPU0 && f.addr % MAX_SPRS in f.sprs && f.sprs[f.addr % MAX_SPRS] == SprOf(data)
    ensures Outgoing(mapped, f, 4) == data
  {
    forall i: nat | i < 4
      ensures SprByte(f, i) == data[i]
    {
      SprPart(data, i);
    }
  }

  lemma {:induction false} SprPart(data: seq<Byte>, i: nat)
    requires |data| == 4 && i < 4
    ensures SprOf(data)[8 * i..8 * i + 8] == data[i]
  {
    var x := SprOf(data);
    forall j: nat | j < 8
      ensures x[8 * i + j] == data[i][j]
    {
      assert (8 * i + j) / 8 == i && (8 * i + j) % 8 == j;
    }
  }
}
