/** Properties of every run of data register shifts. */
module JtagSafety {
  import B = Bits
  import opened BitStrings
  import opened Crc
  import opened JtagRegister
  import opened JtagProtocol

  // ------------------------------------------------------------- single shifts

  /** What a definition always satisfies. */
  predicate Legal(d: Debug)
  {
    d.defined ==>
      && (WriteType(d.acc) || ReadType(d.acc)) && 1 <= d.size <= 0x1_0000 && d.size % AccessBytes(d.acc) == 0
  }

  /** The length field has 16 bits. */
  predicate Sized(r: Request)
  {
    && (r.WriteCommand? ==> 1 <= r.size <= 0x1_0000)
    && (r.Go? ==> |r.data| == Room(r.n))
  }

  lemma {:induction false} ParsedSized(s: seq<bool>, n: nat)
    requires n <= |s| && 8 <= |s|
    ensures Sized(Parse(s, n))
  {
    Pow16();
    if n == 125 {
      LengthBound(Field(s, 41, 16));
    }
  }

  lemma {:induction false} LengthBound(x: BitString)
    requires |x| == 16
    ensures Val(x) < 0x1_0000
  {
    Pow16();
  }

  lemma {:induction false} Pow16()
    ensures B.Pow2(16) == 0x1_0000
  {
    assert B.Pow2(4) == 16;
    assert B.Pow2(8) == 16 * B.Pow2(4);
    assert B.Pow2(12) == 16 * B.Pow2(8);
  }

  lemma {:induction false} NextKeepsLegal(mapped: int -> bool, d: Debug, r: Request)
    requires Legal(d) && Sized(r)
    ensures Legal(Next(mapped, d, r))
  {
  }

  /** A GO packet that may act: its CRC verified over command and data. */
  predicate VerifiedGo(d: Debug, r: Request) { r.Go? && d.defined && WriteType(d.acc) && r.writeOk }

  /** Memory, SPRs and the processor change only in a shift whose CRC verified, of the
      right command, for the right module. */
  lemma {:induction false} OnlyVerifiedActs(mapped: int -> bool, d: Debug, r: Request)
    requires Sized(r)
    ensures var e := Next(mapped, d, r);
            && (e.mem != d.mem ==> VerifiedGo(d, r) && d.modId == JM_WISHBONE)
            && (e.sprs != d.sprs ==> VerifiedGo(d, r) && d.modId == JM_CPU0)
            && (e.stalled != d.stalled || e.resets != d.resets ==> r.WriteControl? && r.ok && d.modId == JM_CPU0)
            && e.instr == d.instr
  {
  }

  /** The CRC flags mean what they say about the bits shifted. */
  lemma {:induction false} FlagsMeanCrc(d: Debug, s: seq<bool>, n: nat)
    requires Shiftable(d, s, n)
    ensures var r := RequestOf(d, s, n);
            && (r.Go? && r.writeOk ==> n >= 73 && CrcOk(s, 5 + 8 * Room(n)))
            && (r.Go? && r.readOk ==> n >= 73 && CrcOk(s, 5))
            && (r.WriteControl? && r.ok ==> n == 125 && CrcOk(s, 57))
            && (r.WriteCommand? && r.ok ==> n == 125 && CrcOk(s, 57))
  {
  }

  /** A field empties the register r exactly if it holds r. */
  lemma {:induction false} FieldEmpties(r: Register, x: BitString)
    requires |x| == 32
    ensures Feed(POLY, r, x) == Zeros(32) <==> x == Msb(r)
  {
    assert Shl(r, 0, 32) == r && Msb(r)[0..] == Msb(r);
    FeedOwn(POLY, r, 0);
    if x != Msb(r) {
      BurstDetected(POLY, r, [], x, Msb(r), []);
      assert [] + x + [] == x && [] + Msb(r) + [] == Msb(r);
    }
  }

  /** The CRC is right exactly if the message followed by it empties the register. */
  lemma {:induction false} CrcEmpties(s: seq<bool>, n: nat)
    requires n + 32 <= |s|
    ensures CrcOk(s, n) <==> Feed(POLY, Ones(32), s[..n + 32]) == Zeros(32)
  {
    assert s[..n + 32] == s[..n] + s[n..n + 32];
    FeedChained(POLY, Ones(32), s[..n], s[n..n + 32]);
    FieldEmpties(Feed(POLY, Ones(32), s[..n]), s[n..n + 32]);
  }

  /** A packet that passes and one that differs from it only in a window of at most 32 bits,
      anywhere in the bits the CRC covers and the CRC itself, do not both pass. */
  lemma {:induction false} BurstRejected(s: seq<bool>, t: seq<bool>, n: nat, i: nat, w: nat)
    requires n + 32 <= |s| == |t| && i + w <= n + 32 && w <= 32 && s[i..i + w] != t[i..i + w]
    requires s[..i] == t[..i] && s[i + w..] == t[i + w..] && CrcOk(s, n)
    ensures !CrcOk(t, n)
  {
    var m := n + 32;
    var after := s[i + w..m];
    assert s[..m] == s[..i] + s[i..i + w] + after;
    assert t[..m] == t[..i] + t[i..i + w] + after by {
      assert t[i + w..m] == t[i + w..][..m - i - w] == after;
    }
    BurstDetected(POLY, Ones(32), s[..i], s[i..i + w], t[i..i + w], after);
    CrcEmpties(s, n);
    CrcEmpties(t, n);
  }

  /** Only an accepted WRITE_COMMAND defines an access, any other one withdraws it, and
      no other packet changes what is defined. */
  lemma {:induction false} DefinedExactly(mapped: int -> bool, d: Debug, r: Request)
    requires Sized(r)
    ensures Next(mapped, d, r).defined ==
            if r.WriteCommand? then ValidAccess(d, r) else d.defined && !r.BadWriteCommand?
  {
  }

  predicate GoClean(mapped: int -> bool, d: Debug, r: Request)
    requires r.Go?
  {
    && r.n == 73 + 8 * d.size && AllMapped(mapped, d.addr, d.size)
    && (if WriteType(d.acc) then r.writeOk else r.readOk)
  }

  /** In Wishbone mode the address advances, by exactly the size, if and only if the GO
      packet had no error. */
  lemma {:induction false} AdvancesExactly(mapped: int -> bool, d: Debug, r: Request)
    requires Sized(r) && r.Go? && d.defined && Legal(d) && d.modId == JM_WISHBONE
    ensures Next(mapped, d, r).addr == if GoClean(mapped, d, r) then d.addr + d.size else d.addr
  {
  }

  // --------------------------------------------------------------------- runs

  function Run(mapped: int -> bool, d: Debug, rs: seq<Request>): Debug
    requires forall i :: 0 <= i < |rs| ==> Sized(rs[i])
    decreases |rs|
  {
    if rs == [] then d else assert Sized(rs[0]); Run(mapped, Next(mapped, d, rs[0]), rs[1..])
  }

  lemma {:induction false} RunKeepsLegal(mapped: int -> bool, d: Debug, rs: seq<Request>)
    requires Legal(d) && forall i :: 0 <= i < |rs| ==> Sized(rs[i])
    ensures Legal(Run(mapped, d, rs))
    decreases |rs|
  {
    if rs != [] {
      NextKeepsLegal(mapped, d, rs[0]);
      RunKeepsLegal(mapped, Next(mapped, d, rs[0]), rs[1..]);
    }
  }

  /** No packet of the run is an accepted WRITE_COMMAND. */
  predicate NoneAccepted(mapped: int -> bool, d: Debug, rs: seq<Request>)
    requires forall i :: 0 <= i < |rs| ==> Sized(rs[i])
    decreases |rs|
  {
    rs == [] ||
    (assert Sized(rs[0]);
     !(rs[0].WriteCommand? && ValidAccess(d, rs[0])) && NoneAccepted(mapped, Next(mapped, d, rs[0]), rs[1..]))
  }

  /** A rejected WRITE_COMMAND disables every GO packet until another is accepted. */
  lemma {:induction false} GoDisabled(mapped: int -> bool, d: Debug, rs: seq<Request>)
    requires forall i :: 0 <= i < |rs| ==> Sized(rs[i])
    requires !d.defined && NoneAccepted(mapped, d, rs)
    ensures var e := Run(mapped, d, rs); !e.defined && e.mem == d.mem && e.sprs == d.sprs && e.addr == d.addr
    decreases |rs|
  {
    if rs != [] {
      GoDisabled(mapped, Next(mapped, d, rs[0]), rs[1..]);
    }
  }

  // ------------------------------------------------------------ reading back

  /** The register is as a host shifts it for a READ_COMMAND: the ignored bits zero. */
  predicate CleanRead(d: Debug, s: seq<bool>)
  {
    && |s| >= 128 && |s| % 8 == 0 && RequestOf(d, s, 125) == ReadCommand(true)
    && forall k :: 37 <= k < 128 ==> !s[k]
  }

  /** The register out answers s with 37 zeros, the data bits, and, with the rest of s
      clear, a status and a CRC over data and status. */
  ghost predicate Answers(s: seq<bool>, out: seq<bool>, bits: seq<bool>)
  {
    var g := |bits|;
    && |out| == |s| >= 73 + g && out[..37] == Zeros(37) && out[37..37 + g] == bits
    && (ClearAhead(s, 37 + g) ==>
          out[41 + g..73 + g] == Msb(Feed(POLY, Ones(32), bits + out[37 + g..41 + g])))
  }

  lemma {:induction false} AnswersFrom(s: seq<bool>, t: seq<bool>, out: seq<bool>, bits: seq<bool>, status: BitString)
    requires |s| == |t| == |out| >= 73 + |bits|
    requires out[..37] == Zeros(37) && out[37..37 + |bits|] == t[37..37 + |bits|] == bits
    requires ClearAhead(s, 37 + |bits|) ==> ClearAhead(t, 37 + |bits|)
    requires var e := 37 + |bits|;
             ClearAhead(t, e) ==>
               out[e..e + 4] == Msb(status) && out[e + 4..e + 36] == Msb(Feed(POLY, Ones(32), bits + Msb(status)))
    ensures Answers(s, out, bits)
  {
  }

  lemma {:induction false} Replied(s: seq<bool>, x: seq<bool>)
    requires |s| >= 128 && |x| == 52 && forall k :: 37 <= k < 128 ==> !s[k]
    ensures Answers(s, ReadOut(s, true, x), x) && ReadOut(s, true, x)[89..93] == Zeros(4)
  {
    var status := Status(false, false, false, false);
    ReadOutIs(s, x, status);
    OrAhead(s, x);
    RepliedFields(s, OrInto(s, 37, x), x, status, Feed(POLY, Ones(32), x + Msb(status)));
    assert Msb(status) == Zeros(4);
  }

  lemma {:induction false} ReadOutIs(s: seq<bool>, x: seq<bool>, status: BitString)
    requires |s| >= 128 && |x| == 52 && status == Status(false, false, false, false)
    ensures ReadOut(s, true, x) == Response(OrInto(s, 37, x), status, Feed(POLY, Ones(32), x + Msb(status)), 52, 37)
  {
    FeedChained(POLY, Ones(32), x, Msb(status));
  }

  lemma {:induction false} RepliedFields(s: seq<bool>, t: seq<bool>, x: seq<bool>, status: BitString, crc: Register)
    requires |s| == |t| >= 128 && |x| == 52 && |status| == 4 && crc == Feed(POLY, Ones(32), x + Msb(status))
    requires t[37..89] == x && ClearAhead(t, 89)
    ensures var out := Response(t, status, crc, 52, 37); Answers(s, out, x) && out[89..93] == Msb(status)
  {
    ResponseFields(t, status, crc, 52, 37);
    AnswersFrom(s, t, Response(t, status, crc, 52, 37), x, status);
  }

  lemma {:induction false} OrAhead(s: seq<bool>, x: seq<bool>)
    requires |s| >= 128 && |x| == 52 && forall k :: 37 <= k < 128 ==> !s[k]
    ensures OrInto(s, 37, x)[37..89] == x && ClearAhead(s, 89) && ClearAhead(OrInto(s, 37, x), 89)
  {
  }

  /** READ_COMMAND shifts out zeros, access type, address and length, a clean status,
      and a CRC over the latter four. */
  lemma {:induction false} ReadShiftsOut(mapped: int -> bool, d: Debug, s: seq<bool>)
    requires CleanRead(d, s)
    ensures Answers(s, Out(mapped, d, s, 125), CommandBits(d)) && Out(mapped, d, s, 125)[89..93] == Zeros(4)
  {
    Replied(s, CommandBits(d));
  }

  lemma {:induction false} FieldBack(s: seq<bool>, o: nat, n: nat)
    requires o + n <= |s|
    ensures Msb(Of(Val(Field(s, o, n)), n)) == s[o..o + n]
  {
    OfVal(Field(s, o, n));
    ReverseTwice(s[o..o + n]);
  }

  lemma {:induction false} CommandFields(d: Debug)
    requires d.defined && d.size > 0
    ensures var x := CommandBits(d);
            x[..4] == Msb(Of(d.acc, 4)) && x[4..36] == Msb(Of(d.addr, 32)) && x[36..] == Msb(Of(d.size - 1, 16))
  {
  }

  lemma {:induction false} CommandBack(e: Debug, w: seq<bool>)
    requires 125 <= |w| && e.defined && e.size == Val(Field(w, 41, 16)) + 1 && e.acc == Val(Field(w, 5, 4))
    ensures var x := CommandBits(e);
            x[..4] == w[5..9] && x[36..] == w[41..57] && x[4..36] == Msb(Of(e.addr, 32))
  {
    CommandFields(e);
    FieldBack(w, 5, 4);
    FieldBack(w, 41, 16);
  }

  /** A packet that neither defines nor withdraws an access and leaves module m selected. */
  predicate Keeps(m: int, r: Request)
  {
    && !r.WriteCommand? && !r.BadWriteCommand?
    && (r.Select? && r.ok ==> m == if r.id in {JM_WISHBONE, JM_CPU0, JM_CPU1} then r.id else JM_UNDEFINED)
  }

  /** A GO packet without error. */
  predicate ErrorFree(mapped: int -> bool, d: Debug, r: Request)
  {
    && r.Go? && d.defined && d.modId in {JM_WISHBONE, JM_CPU0} && r.n == 73 + 8 * d.size
    && (if WriteType(d.acc) then r.writeOk else ReadType(d.acc) && r.readOk)
    && (d.modId == JM_WISHBONE ==> AllMapped(mapped, d.addr, d.size))
  }

  /** How many GO packets of a run have no error. */
  function ErrorFreeGos(mapped: int -> bool, d: Debug, rs: seq<Request>): nat
    requires forall i :: 0 <= i < |rs| ==> Sized(rs[i])
    decreases |rs|
  {
    if rs == [] then 0
    else
      assert Sized(rs[0]);
      (if ErrorFree(mapped, d, rs[0]) then 1 else 0) + ErrorFreeGos(mapped, Next(mapped, d, rs[0]), rs[1..])
  }

  /** What one GO packet advances the address by: SPRs are numbered, bytes addressed. */
  function Advance(d: Debug): nat { if d.modId == JM_WISHBONE then d.size else 1 }

  /** The access of d kept, its address at a. */
  predicate SameAccess(d: Debug, e: Debug, a: nat)
  {
    && e.modId == d.modId && e.instr == d.instr && e.defined == d.defined && e.acc == d.acc && e.size == d.size
    && e.addr == a
  }

  lemma {:induction false} RoomForAll(d: Debug, n: nat)
    ensures !Overrun(d, n) ==> Used(d, n) == Room(n) == d.size
  {
  }

  lemma {:induction false} KeptByWrite(mapped: int -> bool, d: Debug, r: Request)
    requires Sized(r) && r.Go? && d.defined && WriteType(d.acc)
    ensures SameAccess(d, GoWritten(mapped, d, r), if ErrorFree(mapped, d, r) then d.addr + Advance(d) else d.addr)
  {
    RoomForAll(d, r.n);
  }

  lemma {:induction false} KeptByRead(mapped: int -> bool, d: Debug, r: Request)
    requires Sized(r) && r.Go? && d.defined && ReadType(d.acc)
    ensures SameAccess(d, GoReadNext(mapped, d, r), if ErrorFree(mapped, d, r) then d.addr + Advance(d) else d.addr)
  {
    RoomForAll(d, r.n);
  }

  lemma {:induction false} KeptByOne(mapped: int -> bool, d: Debug, r: Request)
    requires Sized(r) && Legal(d) && Keeps(d.modId, r)
    ensures SameAccess(d, Next(mapped, d, r), if ErrorFree(mapped, d, r) then d.addr + Advance(d) else d.addr)
  {
    if r.Go? && d.defined {
      if WriteType(d.acc) {
        KeptByWrite(mapped, d, r);
      } else {
        KeptByRead(mapped, d, r);
      }
    }
  }

  /** Until the next WRITE_COMMAND or change of module, access type and size stay, and the
      address has advanced once for each GO packet without error. */
  lemma {:induction false} RunAdvances(mapped: int -> bool, d: Debug, rs: seq<Request>)
    requires Legal(d) && forall i :: 0 <= i < |rs| ==> Sized(rs[i]) && Keeps(d.modId, rs[i])
    ensures SameAccess(d, Run(mapped, d, rs), Advanced(d.addr, ErrorFreeGos(mapped, d, rs), Advance(d)))
    decreases |rs|
  {
    if rs != [] {
      assert Sized(rs[0]) && Keeps(d.modId, rs[0]);
      var e := Next(mapped, d, rs[0]);
      KeptByOne(mapped, d, rs[0]);
      NextKeepsLegal(mapped, d, rs[0]);
      RunAdvances(mapped, e, rs[1..]);
      AdvancedFirst(d.addr, ErrorFreeGos(mapped, e, rs[1..]), Advance(d));
    } else {
      AdvancedFirst(d.addr, 0, Advance(d));
    }
  }

  /** The address after n advances. */
  function Advanced(a: nat, n: nat, step: nat): nat { a + n * step }

  lemma {:induction false} AdvancedFirst(a: nat, n: nat, step: nat)
    ensures Advanced(a + step, n, step) == Advanced(a, n + 1, step) && Advanced(a, 0, step) == a
  {
    assert (n + 1) * step == n * step + step;
  }

  /** The address of WRITE_COMMAND w; SPR addresses are reduced when they are accepted. */
  function StartOf(d: Debug, w: seq<bool>): nat
    requires 125 <= |w|
  {
    if d.modId == JM_WISHBONE then Val(Field(w, 9, 32)) else Val(Field(w, 9, 32)) % MAX_SPRS
  }

  function StepOf(d: Debug, w: seq<bool>): nat
    requires 125 <= |w|
  {
    if d.modId == JM_WISHBONE then Val(Field(w, 41, 16)) + 1 else 1
  }

  lemma {:induction false} CommandedIs(d: Debug, w: seq<bool>)
    requires 125 <= |w| && ValidAccess(d, ParseWrite(w, 125))
    ensures var c := Commanded(d, ParseWrite(w, 125));
            && Legal(c) && c.defined && c.acc == Val(Field(w, 5, 4)) && c.size == Val(Field(w, 41, 16)) + 1
            && c.addr == StartOf(d, w) && Advance(c) == StepOf(d, w) && c.modId == d.modId && c.instr == d.instr
  {
    LengthBound(Field(w, 41, 16));
  }

  /** What READ_COMMAND shifts out, any run of GO packets and others after the accepted
      WRITE_COMMAND w, is what w shifted in, bit by bit, its address advanced. */
  lemma {:induction false} ReadBack(mapped: int -> bool, d: Debug, w: seq<bool>, rs: seq<Request>)
    requires 125 <= |w| && ValidAccess(d, ParseWrite(w, 125))
    requires forall i :: 0 <= i < |rs| ==> Sized(rs[i]) && Keeps(d.modId, rs[i])
    ensures var c := Commanded(d, ParseWrite(w, 125));
            var x := CommandBits(Run(mapped, c, rs));
            && x[..4] == w[5..9] && x[36..] == w[41..57]
            && x[4..36] == Msb(Of(Advanced(StartOf(d, w), ErrorFreeGos(mapped, c, rs), StepOf(d, w)), 32))
  {
    var c := Commanded(d, ParseWrite(w, 125));
    CommandedIs(d, w);
    RunAdvances(mapped, c, rs);
    CommandBack(Run(mapped, c, rs), w);
  }
}
