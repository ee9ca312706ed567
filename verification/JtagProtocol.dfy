/** What a shift of a JTAG data register does to the debug unit and to the register
    (debug/jtag.c), on streams of bits in shifting order. */
module JtagProtocol {
  import B = Bits
  import opened BitStrings
  import opened Crc
  import opened JtagRegister

  const JI_DEBUG := 8
  const JM_UNDEFINED := -1
  const JM_WISHBONE := 0
  const JM_CPU0 := 1
  const JM_CPU1 := 2
  const JCMD_GO := 0
  const JCMD_READ := 1
  const JCMD_WRITE := 2
  const JCMD_READ_CONTROL := 3
  const JCMD_WRITE_CONTROL := 4
  const JCB_RESET := 51
  const JCB_STALL := 50
  const MAX_SPRS: nat := 0x1_0000
  const ADDRESSES: nat := 0x1_0000_0000

  type Memory = map<int, Byte>

  /** `runtime.debug` and what it acts on; resets counts the processor resets. */
  datatype Debug = Debug(instr: int, modId: int, defined: bool, acc: nat, addr: nat, size: nat,
                         mem: Memory, sprs: map<int, Register>, stalled: bool, resets: nat)

  /** Bits CRC_IN_ERROR, MODULE_MISSING, WISHBONE_ERROR and OVER_UNDERRUN. */
  function Status(crcError: bool, missing: bool, wishbone: bool, overrun: bool): (s: BitString)
    ensures |s| == 4
  {
    [crcError, missing, wishbone, overrun]
  }

  /** The n-bit field shifted from bit o on, most significant bit first. */
  function Field(s: seq<bool>, o: nat, n: nat): (x: BitString)
    requires o + n <= |s|
    ensures |x| == n
  {
    Reverse(s[o..o + n])
  }

  /** The CRC after the first n bits is the CRC of those bits. */
  predicate CrcOk(s: seq<bool>, n: nat)
    requires n + 32 <= |s|
  {
    s[n..n + 32] == Msb(Feed(POLY, Ones(32), s[..n]))
  }

  function Reply(s: seq<bool>, status: BitString, crcIn: Register, ign: nat, zero: nat): (r: seq<bool>)
    requires |status| == 4
    ensures |r| == |s|
  {
    Response(s, status, Feed(POLY, crcIn, Msb(status)), ign, zero)
  }

  // ------------------------------------------------------------------ requests

  /** What a packet asks for.  The CRC flags say whether its CRC verified; a GO packet
      has two, since how it is read depends on the access defined. */
  datatype Request =
    | Ignored
    | Select(ok: bool, id: nat)
    | Go(n: nat, writeOk: bool, readOk: bool, data: seq<Byte>)
    | ReadCommand(ok: bool)
    | WriteCommand(ok: bool, acc: nat, addr: nat, size: nat)
    | BadWriteCommand
    | ReadControl(ok: bool)
    | WriteControl(ok: bool, reset: bool, stall: bool)

  /** The data bytes a GO packet of n bits has room for. */
  function Room(n: nat): nat { if n < 73 then 0 else (n - 73) / 8 }

  function DataByte(s: seq<bool>, i: nat): Byte
    requires 13 + 8 * i <= |s|
  {
    Field(s, 5 + 8 * i, 8)
  }

  /** The first k bytes of a write packet's data. */
  function Written(s: seq<bool>, k: nat): (data: seq<Byte>)
    requires 5 + 8 * k <= |s|
    ensures |data| == k
  {
    seq(k, i requires 0 <= i < k => DataByte(s, i))
  }

  function Command(s: seq<bool>): nat
    requires 8 <= |s|
  {
    Val(Field(s, 1, 4))
  }

  function ParseGo(s: seq<bool>, n: nat): (r: Request)
    requires n <= |s|
    ensures r.Go? && r.n == n && |r.data| == Room(n)
  {
    if n < 73 then Go(n, false, false, [])
    else var k := Room(n); Go(n, CrcOk(s, 5 + 8 * k), CrcOk(s, 5), Written(s, k))
  }

  function ParseWrite(s: seq<bool>, n: nat): Request
    requires n <= |s|
  {
    if n != 125 then BadWriteCommand
    else WriteCommand(CrcOk(s, 57), Val(Field(s, 5, 4)), Val(Field(s, 9, 32)), Val(Field(s, 41, 16)) + 1)
  }

  function ParseControl(s: seq<bool>): Request
    requires 125 <= |s|
  {
    var data := Field(s, 5, 52);
    WriteControl(CrcOk(s, 57), data[JCB_RESET], data[JCB_STALL])
  }

  /** The request in a register of n bits while the DEBUG instruction is selected;
      packets of a wrong length are ignored, except that WRITE_COMMAND is not. */
  function Parse(s: seq<bool>, n: nat): (r: Request)
    requires n <= |s| && 8 <= |s|
    ensures r.Go? ==> r.n == n && |r.data| == Room(n)
    ensures r.ReadCommand? || r.ReadControl? || r.WriteCommand? || r.WriteControl? ==> n == 125
  {
    if s[0] then (if n != 73 then Ignored else Select(CrcOk(s, 5), Val(Field(s, 1, 4))))
    else
      var c := Command(s);
      if c == JCMD_GO then ParseGo(s, n)
      else if c == JCMD_WRITE then ParseWrite(s, n)
      else if n != 125 then Ignored
      else if c == JCMD_READ then ReadCommand(CrcOk(s, 5))
      else if c == JCMD_READ_CONTROL then ReadControl(CrcOk(s, 5))
      else if c == JCMD_WRITE_CONTROL then ParseControl(s)
      else Ignored
  }

  function RequestOf(d: Debug, s: seq<bool>, n: nat): (r: Request)
    requires n <= |s| && 8 <= |s|
    ensures r.Go? ==> r.n == n && |r.data| == Room(n)
    ensures r.ReadCommand? || r.ReadControl? || r.WriteCommand? || r.WriteControl? ==> n == 125
  {
    if d.instr == JI_DEBUG then Parse(s, n) else Ignored
  }

  // ------------------------------------------------------------------- effects

  function Min(a: nat, b: nat): nat { if a < b then a else b }

  function Address(a: nat, i: nat): int { (a + i) % ADDRESSES }

  predicate AllMapped(mapped: int -> bool, a: nat, k: nat)
  {
    forall i: nat :: i < k ==> mapped(Address(a, i))
  }

  /** Memory after the mapped ones of the bytes have been stored from a on. */
  function Stored(mapped: int -> bool, m: Memory, a: nat, data: seq<Byte>): Memory
  {
    if data == [] then m
    else
      var k := |data| - 1;
      var low := Stored(mapped, m, a, data[..k]);
      if mapped(Address(a, k)) then low[Address(a, k) := data[k]] else low
  }

  /** Byte i goes to bits 8i to 8i + 7 of the register. */
  function SprOf(data: seq<Byte>): Register
  {
    seq(32, j requires 0 <= j < 32 => j / 8 < |data| && data[j / 8][j % 8])
  }

  predicate WriteType(acc: nat) { acc in {0, 1, 2} }

  predicate ReadType(acc: nat) { acc in {4, 5, 6} }

  function Overrun(d: Debug, n: nat): bool { n != 73 + 8 * d.size }

  /** The bytes of a GO packet that the access uses. */
  function Used(d: Debug, n: nat): nat { Min(Room(n), d.size) }

  function GoWritten(mapped: int -> bool, d: Debug, r: Request): Debug
    requires r.Go? && |r.data| == Room(r.n)
  {
    var over := Overrun(d, r.n);
    if !r.writeOk then d
    else if d.modId == JM_WISHBONE then
      var t := Used(d, r.n);
      d.(mem := Stored(mapped, d.mem, d.addr, r.data[..t]),
         addr := if over || !AllMapped(mapped, d.addr, t) then d.addr else d.addr + d.size)
    else if d.modId == JM_CPU0 then
      d.(sprs := d.sprs[d.addr % MAX_SPRS := SprOf(r.data[..Min(|r.data|, 4)])],
         addr := if over then d.addr else d.addr + 1)
    else d
  }

  function GoReadNext(mapped: int -> bool, d: Debug, r: Request): Debug
    requires r.Go?
  {
    var over := Overrun(d, r.n);
    if !r.readOk || over then d
    else if d.modId == JM_WISHBONE then
      if AllMapped(mapped, d.addr, Used(d, r.n)) then d.(addr := d.addr + d.size) else d
    else if d.modId == JM_CPU0 then d.(addr := d.addr + 1)
    else d
  }

  /** The bytes of one access. */
  function AccessBytes(acc: nat): nat
  {
    if acc in {1, 5} then 2 else if acc in {2, 6} then 4 else 1
  }

  predicate ValidWishbone(acc: nat, addr: nat, size: nat)
  {
    (WriteType(acc) || ReadType(acc)) && addr % AccessBytes(acc) == 0 && size % AccessBytes(acc) == 0
  }

  predicate ValidSpr(acc: nat, size: nat) { acc in {2, 6} && size == 4 }

  predicate ValidAccess(d: Debug, r: Request)
    requires r.WriteCommand?
  {
    r.ok &&
    ((d.modId == JM_WISHBONE && ValidWishbone(r.acc, r.addr, r.size)) || (d.modId == JM_CPU0 && ValidSpr(r.acc, r.size)))
  }

  function Commanded(d: Debug, r: Request): Debug
    requires r.WriteCommand?
  {
    if ValidAccess(d, r) then
      d.(defined := true, acc := r.acc, size := r.size,
         addr := if d.modId == JM_CPU0 then r.addr % MAX_SPRS else r.addr)
    else d.(defined := false)
  }

  function Next(mapped: int -> bool, d: Debug, r: Request): Debug
    requires r.Go? ==> |r.data| == Room(r.n)
  {
    match r
    case Ignored => d
    case Select(ok, id) =>
      if !ok then d else d.(modId := if id in {JM_WISHBONE, JM_CPU0, JM_CPU1} then id else JM_UNDEFINED)
    case Go(_, _, _, _) =>
      if !d.defined then d
      else if WriteType(d.acc) then GoWritten(mapped, d, r)
      else if ReadType(d.acc) then GoReadNext(mapped, d, r)
      else d
    case ReadCommand(_) => d
    case WriteCommand(_, _, _, _) => Commanded(d, r)
    case BadWriteCommand => d.(defined := false)
    case ReadControl(_) => d
    case WriteControl(ok, reset, stall) =>
      if !ok || d.modId != JM_CPU0 then d
      else if reset then d.(resets := d.resets + 1) else d.(stalled := stall)
  }

  // ------------------------------------------------------------------ responses

  /** The answer to WRITE_COMMAND and WRITE_CONTROL. */
  function WriteReply(s: seq<bool>): seq<bool>
    requires 125 <= |s|
  {
    Reply(s, Status(!CrcOk(s, 57), false, false, false), Ones(32), 0, 89)
  }

  function Load(m: Memory, a: int): Byte { if a in m then m[a] else Zeros(8) }

  /** Byte i of a Wishbone read. */
  function WishboneByte(mapped: int -> bool, d: Debug, i: nat): Byte
  {
    if i < d.size && mapped(Address(d.addr, i)) then Load(d.mem, Address(d.addr, i)) else Zeros(8)
  }

  function Spr(d: Debug, a: int): Register { if a in d.sprs then d.sprs[a] else Zeros(32) }

  function SprByte(d: Debug, i: nat): Byte
  {
    if i < 4 then Spr(d, d.addr % MAX_SPRS)[8 * i..8 * i + 8] else Zeros(8)
  }

  function OutByte(mapped: int -> bool, d: Debug, i: nat): Byte
  {
    if d.modId == JM_WISHBONE then WishboneByte(mapped, d, i)
    else if d.modId == JM_CPU0 then SprByte(d, i)
    else Zeros(8)
  }

  /** The data a read shifts out. */
  function Outgoing(mapped: int -> bool, d: Debug, k: nat): (data: seq<Byte>)
    ensures |data| == k
  {
    seq(k, i requires 0 <= i < k => OutByte(mapped, d, i))
  }

  /** Bytes as they are shifted. */
  function Shifted(data: seq<Byte>): (s: seq<bool>)
    ensures |s| == 8 * |data|
  {
    if data == [] then [] else Shifted(data[..|data| - 1]) + Msb(data[|data| - 1])
  }

  /** The register with the bits x put in from o on. */
  function Put(s: seq<bool>, o: nat, x: seq<bool>): (r: seq<bool>)
    requires o + |x| <= |s|
    ensures |r| == |s|
  {
    s[..o] + x + s[o + |x|..]
  }

  function GoWriteReply(d: Debug, s: seq<bool>, n: nat, ok: bool, bad: bool): seq<bool>
  {
    Reply(s, Status(!ok, false, bad, Overrun(d, n)), Ones(32), 0, 37 + 8 * Room(n))
  }

  function GoWriteOut(mapped: int -> bool, d: Debug, s: seq<bool>, n: nat): seq<bool>
    requires 73 <= n <= |s|
  {
    var ok := CrcOk(s, 5 + 8 * Room(n));
    GoWriteReply(d, s, n, ok, ok && d.modId == JM_WISHBONE && !AllMapped(mapped, d.addr, Used(d, n)))
  }

  function GoReadReply(mapped: int -> bool, d: Debug, s: seq<bool>, n: nat, ok: bool, bad: bool): seq<bool>
    requires 73 <= n <= |s|
  {
    var bits := Shifted(Outgoing(mapped, d, Room(n)));
    Reply(if ok then Put(s, 37, bits) else s, Status(!ok, false, bad, Overrun(d, n)),
          if ok then Feed(POLY, Ones(32), bits) else Zeros(32), 8 * Room(n), 37)
  }

  function GoReadOut(mapped: int -> bool, d: Debug, s: seq<bool>, n: nat): seq<bool>
    requires 73 <= n <= |s|
  {
    var ok := CrcOk(s, 5);
    GoReadReply(mapped, d, s, n, ok, ok && d.modId == JM_WISHBONE && !AllMapped(mapped, d.addr, Used(d, n)))
  }

  function GoOut(mapped: int -> bool, d: Debug, s: seq<bool>, n: nat): seq<bool>
    requires n <= |s| && |s| % 8 == 0 && (d.defined ==> n >= 73)
  {
    if !d.defined then Put(s, 0, Zeros((n + 7) / 8 * 8))
    else if WriteType(d.acc) then GoWriteOut(mapped, d, s, n)
    else if ReadType(d.acc) then GoReadOut(mapped, d, s, n)
    else s
  }

  /** ORing a field into the register. */
  function OrInto(s: seq<bool>, o: nat, x: seq<bool>): (r: seq<bool>)
    requires o + |x| <= |s|
    ensures |r| == |s|
  {
    seq(|s|, k requires 0 <= k < |s| => s[k] || (o <= k < o + |x| && x[k - o]))
  }

  /** Access type, address and length as READ_COMMAND shifts them. */
  function CommandBits(d: Debug): (x: seq<bool>)
    ensures |x| == 52
  {
    if d.defined then
      Msb(Of(d.acc, 4)) + Msb(Of(d.addr, 32)) + Msb(Of(if d.size > 0 then d.size - 1 else 0xffff, 16))
    else Zeros(52)
  }

  /** Only the stall bit can be read. */
  function ControlBits(d: Debug): (x: BitString)
    ensures |x| == 52
  {
    seq(52, j requires 0 <= j < 52 => j == JCB_STALL && d.modId == JM_CPU0 && d.stalled)
  }

  /** A fixed-length register answered with the bits x, or with a CRC error. */
  function ReadOut(s: seq<bool>, ok: bool, x: seq<bool>): seq<bool>
    requires 125 <= |s| && |x| == 52
  {
    if ok then Reply(OrInto(s, 37, x), Status(false, false, false, false), Feed(POLY, Ones(32), x), 52, 37)
    else Reply(s, Status(true, false, false, false), Ones(32), 52, 37)
  }

  function Out(mapped: int -> bool, d: Debug, s: seq<bool>, n: nat): seq<bool>
    requires Shiftable(d, s, n)
  {
    match RequestOf(d, s, n)
    case Ignored => s
    case Select(ok, id) =>
      Reply(s, Status(!ok, ok && id !in {JM_WISHBONE, JM_CPU0, JM_CPU1}, false, false), Ones(32), 0, 37)
    case Go(_, _, _, _) => GoOut(mapped, d, s, n)
    case ReadCommand(ok) => ReadOut(s, ok, CommandBits(d))
    case WriteCommand(_, _, _, _) => WriteReply(s)
    case BadWriteCommand => s
    case ReadControl(ok) => ReadOut(s, ok, Msb(ControlBits(d)))
    case WriteControl(_, _, _) => WriteReply(s)
  }

  /** The buffer holds the register, and a GO packet holds its fixed fields. */
  predicate Shiftable(d: Debug, s: seq<bool>, n: nat)
  {
    && n <= |s| && 8 <= |s| && |s| % 8 == 0 && (RequestOf(d, s, n).Go? && d.defined ==> n >= 73)
  }

  /** `jtag_shift_dr`. */
  function ShiftDr(mapped: int -> bool, d: Debug, s: seq<bool>, n: nat): (Debug, seq<bool>)
    requires Shiftable(d, s, n)
  {
    (Next(mapped, d, RequestOf(d, s, n)), Out(mapped, d, s, n))
  }
}
