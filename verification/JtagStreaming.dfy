/** Sessions of data register shifts, and the two round trips of the protocol: the access
    defined can be read back, and what a stream of GO packets writes over Wishbone a later
    stream reads. */
module JtagStreaming {
  import opened BitStrings
  import opened Crc
  import opened JtagRegister
  import opened JtagProtocol
  import opened JtagSafety

  // ------------------------------------------------------------------ sessions

  /** The buffer shifted in and the length of the register. */
  datatype Shift = Shift(s: seq<bool>, n: nat)

  /** The buffer holds the register, and a GO packet holds its fixed fields. */
  predicate Fits(x: Shift)
  {
    x.n <= |x.s| && 8 <= |x.s| && |x.s| % 8 == 0 && (Parse(x.s, x.n).Go? ==> x.n >= 73)
  }

  predicate AllFit(xs: seq<Shift>) { forall i :: 0 <= i < |xs| ==> Fits(xs[i]) }

  /** The state a series of shifts leaves, and the buffers shifted out. */
  function Session(mapped: int -> bool, d: Debug, xs: seq<Shift>): (r: (Debug, seq<seq<bool>>))
    requires AllFit(xs)
    ensures |r.1| == |xs|
    decreases |xs|
  {
    if xs == [] then (d, [])
    else
      var first := ShiftDr(mapped, d, xs[0].s, xs[0].n);
      var rest := Session(mapped, first.0, xs[1..]);
      (rest.0, [first.1] + rest.1)
  }

  lemma {:induction false} SessionSplit(mapped: int -> bool, d: Debug, xs: seq<Shift>, ys: seq<Shift>)
    requires AllFit(xs) && AllFit(ys)
    ensures AllFit(xs + ys)
    ensures var mid := Session(mapped, d, xs);
            var end := Session(mapped, mid.0, ys);
            Session(mapped, d, xs + ys) == (end.0, mid.1 + end.1)
    decreases |xs|
  {
    if xs == [] {
      assert xs + ys == ys;
      assert [] + Session(mapped, d, ys).1 == Session(mapped, d, ys).1;
    } else {
      assert (xs + ys)[0] == xs[0] && (xs + ys)[1..] == xs[1..] + ys;
      var first := ShiftDr(mapped, d, xs[0].s, xs[0].n);
      SessionSplit(mapped, first.0, xs[1..], ys);
      var mid := Session(mapped, first.0, xs[1..]);
      var end := Session(mapped, mid.0, ys);
      assert [first.1] + (mid.1 + end.1) == ([first.1] + mid.1) + end.1;
    }
  }

  lemma {:induction false} SessionJoin(mapped: int -> bool, d: Debug, xs: seq<Shift>, ys: seq<Shift>, mid: Debug, end: Debug)
    requires AllFit(xs) && AllFit(ys) && mid == Session(mapped, d, xs).0 && end == Session(mapped, mid, ys).0
    ensures AllFit(xs + ys) && Session(mapped, d, xs + ys).0 == end
  {
    SessionSplit(mapped, d, xs, ys);
  }

  lemma {:induction false} SessionOne(mapped: int -> bool, d: Debug, x: Shift)
    requires Fits(x)
    ensures AllFit([x]) && Session(mapped, d, [x]) == (Next(mapped, d, RequestOf(d, x.s, x.n)), [Out(mapped, d, x.s, x.n)])
  {
    var rest := Session(mapped, Next(mapped, d, RequestOf(d, x.s, x.n)), []);
    assert [x][1..] == [] && [Out(mapped, d, x.s, x.n)] + rest.1 == [Out(mapped, d, x.s, x.n)];
  }

  /** The requests of a series of shifts. */
  function Requests(d: Debug, xs: seq<Shift>): (rs: seq<Request>)
    requires AllFit(xs)
    ensures |rs| == |xs| && forall i :: 0 <= i < |xs| ==> Sized(rs[i])
  {
    if xs == [] then []
    else
      ParsedSized(xs[0].s, xs[0].n);
      [RequestOf(d, xs[0].s, xs[0].n)] + Requests(d, xs[1..])
  }

  lemma {:induction false} RequestsIn(d: Debug, e: Debug, xs: seq<Shift>)
    requires AllFit(xs) && d.instr == e.instr
    ensures Requests(d, xs) == Requests(e, xs)
    ensures forall i :: 0 <= i < |xs| ==> Requests(d, xs)[i] == RequestOf(d, xs[i].s, xs[i].n)
    decreases |xs|
  {
    if xs != [] {
      RequestsIn(d, e, xs[1..]);
    }
  }

  /** A session leaves the state of the run of its requests. */
  lemma {:induction false} SessionRuns(mapped: int -> bool, d: Debug, xs: seq<Shift>)
    requires AllFit(xs)
    ensures Session(mapped, d, xs).0 == Run(mapped, d, Requests(d, xs))
    decreases |xs|
  {
    if xs != [] {
      var rs, r := Requests(d, xs), RequestOf(d, xs[0].s, xs[0].n);
      var e := Next(mapped, d, r);
      OnlyVerifiedActs(mapped, d, r);
      RequestsIn(d, e, xs[1..]);
      assert rs[0] == r && rs[1..] == Requests(d, xs[1..]);
      SessionRuns(mapped, e, xs[1..]);
    }
  }

  // -------------------------------------------------- reading an access back

  /** A WRITE_COMMAND that is accepted. */
  predicate AcceptedCommand(d: Debug, x: Shift)
  {
    && Fits(x) && x.n == 125 && RequestOf(d, x.s, 125) == ParseWrite(x.s, 125)
    && ValidAccess(d, ParseWrite(x.s, 125))
  }

  lemma {:induction false} CommandStep(mapped: int -> bool, d: Debug, w: Shift)
    requires AcceptedCommand(d, w)
    ensures AllFit([w]) && Session(mapped, d, [w]).0 == Commanded(d, ParseWrite(w.s, 125))
  {
    SessionOne(mapped, d, w);
  }

  /** One session: an accepted WRITE_COMMAND, any shifts that keep its access, and a
      READ_COMMAND, which shifts out access type, address and length as they were shifted
      in, the address advanced once for each GO packet without error. */
  lemma {:induction false} AccessReadBack(mapped: int -> bool, d: Debug, w: Shift, xs: seq<Shift>, r: Shift)
    requires AcceptedCommand(d, w) && Fits(r) && r.n == 125 && CleanRead(d, r.s)
    requires AllFit(xs) && forall i :: 0 <= i < |xs| ==> Keeps(d.modId, RequestOf(d, xs[i].s, xs[i].n))
    ensures AllFit([w] + xs + [r])
    ensures var out := Session(mapped, d, [w] + xs + [r]).1[1 + |xs|];
            var gos := ErrorFreeGos(mapped, Commanded(d, ParseWrite(w.s, 125)), Requests(d, xs));
            && |out| == |r.s| && out[37..41] == w.s[5..9] && out[73..89] == w.s[41..57] && out[89..93] == Zeros(4)
            && out[41..73] == Msb(Of(Advanced(StartOf(d, w.s), gos, StepOf(d, w.s)), 32))
  {
    var c := Commanded(d, ParseWrite(w.s, 125));
    var e := KeptAccess(mapped, d, w, xs);
    LastOut(mapped, d, [w] + xs, r, e);
    RequestsIn(d, c, xs);
    ReadBack(mapped, d, w.s, Requests(d, xs));
    ReadBackBits(mapped, e, r.s, Session(mapped, d, [w] + xs + [r]).1[1 + |xs|], CommandBits(e));
  }

  lemma {:induction false} LastOut(mapped: int -> bool, d: Debug, xs: seq<Shift>, y: Shift, e: Debug)
    requires AllFit(xs) && Fits(y) && e == Session(mapped, d, xs).0
    ensures AllFit(xs + [y]) && Session(mapped, d, xs + [y]).1[|xs|] == Out(mapped, e, y.s, y.n)
  {
    SessionOne(mapped, e, y);
    SessionSplit(mapped, d, xs, [y]);
  }

  lemma {:induction false} KeptAccess(mapped: int -> bool, d: Debug, w: Shift, xs: seq<Shift>) returns (e: Debug)
    requires AcceptedCommand(d, w) && AllFit(xs)
    requires forall i :: 0 <= i < |xs| ==> Keeps(d.modId, RequestOf(d, xs[i].s, xs[i].n))
    ensures AllFit([w] + xs) && e == Session(mapped, d, [w] + xs).0 && e.instr == d.instr
    ensures e == Run(mapped, Commanded(d, ParseWrite(w.s, 125)), Requests(d, xs))
    ensures forall i :: 0 <= i < |xs| ==> Keeps(d.modId, Requests(d, xs)[i])
  {
    var c := Commanded(d, ParseWrite(w.s, 125));
    RequestsIn(d, c, xs);
    CommandStep(mapped, d, w);
    CommandedIs(d, w.s);
    SessionRuns(mapped, c, xs);
    SessionSplit(mapped, d, [w], xs);
    e := Run(mapped, c, Requests(c, xs));
    RunAdvances(mapped, c, Requests(c, xs));
  }

  lemma {:induction false} SubSlice(s: seq<bool>, a: nat, b: nat, c: nat, d: nat)
    requires a <= b <= |s| && c <= d <= b - a
    ensures s[a..b][c..d] == s[a + c..a + d]
  {
    var x, y := s[a..b][c..d], s[a + c..a + d];
    forall i | 0 <= i < d - c
      ensures x[i] == y[i]
    {
      assert s[a..b][c + i] == s[a + c + i];
    }
  }

  lemma {:induction false} ReadBackBits(mapped: int -> bool, e: Debug, s: seq<bool>, out: seq<bool>, x: seq<bool>)
    requires CleanRead(e, s) && out == Out(mapped, e, s, 125) && x == CommandBits(e)
    ensures && |out| == |s| && out[89..93] == Zeros(4)
            && out[37..41] == x[..4] && out[41..73] == x[4..36] && out[73..89] == x[36..]
  {
    ReadShiftsOut(mapped, e, s);
    SubSlice(out, 37, 89, 0, 4);
    SubSlice(out, 37, 89, 4, 36);
    SubSlice(out, 37, 89, 36, 52);
  }

  // --------------------------------------------------------- writing a stream

  /** A GO packet for an access of the given size whose CRC verifies. */
  predicate GoShift(x: Shift, size: nat, write: bool)
  {
    && Fits(x) && x.n == 73 + 8 * size && !x.s[0] && Command(x.s) == JCMD_GO
    && CrcOk(x.s, if write then 5 + 8 * size else 5)
  }

  predicate GoShifts(xs: seq<Shift>, size: nat, write: bool)
  {
    forall i :: 0 <= i < |xs| ==> GoShift(xs[i], size, write)
  }

  lemma {:induction false} GoParsed(d: Debug, x: Shift, size: nat, write: bool)
    requires GoShift(x, size, write) && d.instr == JI_DEBUG
    ensures var r := RequestOf(d, x.s, x.n);
            && r.Go? && r.n == x.n && Room(x.n) == size && r.data == Written(x.s, size)
            && (if write then r.writeOk else r.readOk)
  {
  }

  /** The bytes of a stream of write packets, packet by packet. */
  function DataOf(xs: seq<Shift>, size: nat): (data: seq<seq<Byte>>)
    requires GoShifts(xs, size, true)
    ensures |data| == |xs| && forall i :: 0 <= i < |xs| ==> data[i] == Written(xs[i].s, size)
  {
    seq(|xs|, i requires 0 <= i < |xs| => Written(xs[i].s, size))
  }

  function Joined(data: seq<seq<Byte>>): seq<Byte>
  {
    if data == [] then [] else data[0] + Joined(data[1..])
  }

  lemma {:induction false} JoinedSize(data: seq<seq<Byte>>, size: nat)
    requires forall i :: 0 <= i < |data| ==> |data[i]| == size
    ensures |Joined(data)| == Total(|data|, size)
    decreases |data|
  {
    if data != [] {
      JoinedSize(data[1..], size);
      TotalFirst(|data| - 1, size);
    }
  }

  /** The bytes of n accesses. */
  function Total(n: nat, size: nat): nat { n * size }

  lemma {:induction false} TotalFirst(n: nat, size: nat)
    ensures Total(n + 1, size) == size + Total(n, size)
  {
  }

  lemma {:induction false} StoredTwice(mapped: int -> bool, m: Memory, a: nat, x: seq<Byte>, y: seq<Byte>)
    ensures Stored(mapped, Stored(mapped, m, a, x), a + |x|, y) == Stored(mapped, m, a, x + y)
    decreases |y|
  {
    if y == [] {
      assert x + y == x;
    } else {
      var k := |y| - 1;
      StoredTwice(mapped, m, a, x, y[..k]);
      assert (x + y)[..|x| + k] == x + y[..k];
      assert Address(a + |x|, k) == Address(a, |x| + k);
    }
  }

  /** d after the bytes x are stored, as a state. */
  function Wrote(mapped: int -> bool, d: Debug, x: seq<Byte>): Debug
  {
    d.(mem := Stored(mapped, d.mem, d.addr, x), addr := d.addr + |x|)
  }

  lemma {:induction false} WroteTwice(mapped: int -> bool, d: Debug, x: seq<Byte>, y: seq<Byte>)
    ensures Wrote(mapped, Wrote(mapped, d, x), y) == Wrote(mapped, d, x + y)
  {
    StoredTwice(mapped, d.mem, d.addr, x, y);
  }

  lemma {:induction false} MappedSplit(mapped: int -> bool, a: nat, x: nat, y: nat, b: nat)
    requires AllMapped(mapped, a, x + y) && b == a + x
    ensures AllMapped(mapped, a, x) && AllMapped(mapped, b, y)
  {
    forall i: nat | i < y
      ensures mapped(Address(b, i))
    {
      assert Address(b, i) == Address(a, x + i);
    }
  }

  lemma {:induction false} OneWrite(mapped: int -> bool, d: Debug, x: Shift)
    requires d.instr == JI_DEBUG && d.defined && WriteType(d.acc) && d.modId == JM_WISHBONE
    requires GoShift(x, d.size, true) && AllMapped(mapped, d.addr, d.size)
    ensures Next(mapped, d, RequestOf(d, x.s, x.n)) == Wrote(mapped, d, Written(x.s, d.size))
  {
    var r := RequestOf(d, x.s, x.n);
    GoParsed(d, x, d.size, true);
    assert r.data[..d.size] == r.data;
  }

  /** Any number of verified write packets store their bytes consecutively from the
      address, and advance it past them. */
  lemma {:induction false} WriteStream(mapped: int -> bool, d: Debug, xs: seq<Shift>)
    requires d.instr == JI_DEBUG && d.defined && WriteType(d.acc) && d.modId == JM_WISHBONE
    requires GoShifts(xs, d.size, true) && AllMapped(mapped, d.addr, |Joined(DataOf(xs, d.size))|)
    ensures AllFit(xs) && Session(mapped, d, xs).0 == Wrote(mapped, d, Joined(DataOf(xs, d.size)))
    decreases |xs|
  {
    if xs != [] {
      var first, rest := Written(xs[0].s, d.size), Joined(DataOf(xs[1..], d.size));
      DataFirst(xs, d.size);
      var e := Wrote(mapped, d, first);
      MappedSplit(mapped, d.addr, d.size, |rest|, e.addr);
      OneWrite(mapped, d, xs[0]);
      WriteStream(mapped, e, xs[1..]);
      SessionFirst(mapped, d, xs, e);
      WroteTwice(mapped, d, first, rest);
    }
  }

  lemma {:induction false} DataFirst(xs: seq<Shift>, size: nat)
    requires xs != [] && GoShifts(xs, size, true)
    ensures GoShifts(xs[1..], size, true)
    ensures Joined(DataOf(xs, size)) == Written(xs[0].s, size) + Joined(DataOf(xs[1..], size))
  {
    assert DataOf(xs, size)[1..] == DataOf(xs[1..], size);
  }

  lemma {:induction false} SessionFirst(mapped: int -> bool, d: Debug, xs: seq<Shift>, e: Debug)
    requires xs != [] && Fits(xs[0]) && AllFit(xs[1..]) && e == Next(mapped, d, RequestOf(d, xs[0].s, xs[0].n))
    ensures AllFit(xs) && Session(mapped, d, xs).0 == Session(mapped, e, xs[1..]).0
  {
    assert AllFit(xs) by {
      forall i | 0 < i < |xs|
        ensures Fits(xs[i])
      {
        assert xs[i] == xs[1..][i - 1];
      }
    }
  }

  // --------------------------------------------------------- reading a stream

  /** Memory holds the bytes x, all mapped, from a on. */
  predicate Holds(mapped: int -> bool, m: Memory, a: nat, x: seq<Byte>)
  {
    forall j: nat :: j < |x| ==> mapped(Address(a, j)) && Load(m, Address(a, j)) == x[j]
  }

  lemma {:induction false} HoldsSplit(mapped: int -> bool, m: Memory, a: nat, x: seq<Byte>, y: seq<Byte>, b: nat)
    requires Holds(mapped, m, a, x + y) && b == a + |x|
    ensures Holds(mapped, m, a, x) && Holds(mapped, m, b, y)
  {
    forall j: nat | j < |x|
      ensures mapped(Address(a, j)) && Load(m, Address(a, j)) == x[j]
    {
      assert (x + y)[j] == x[j];
    }
    forall j: nat | j < |y|
      ensures mapped(Address(b, j)) && Load(m, Address(b, j)) == y[j]
    {
      var k := |x| + j;
      assert mapped(Address(a, k)) && Load(m, Address(a, k)) == (x + y)[k];
      assert Address(b, j) == Address(a, k) && (x + y)[k] == y[j];
    }
  }

  lemma {:induction false} HoldsFirst(mapped: int -> bool, m: Memory, a: nat, data: seq<seq<Byte>>, b: nat)
    requires data != [] && Holds(mapped, m, a, Joined(data)) && b == a + |data[0]|
    ensures Holds(mapped, m, a, data[0]) && Holds(mapped, m, b, Joined(data[1..]))
  {
    HoldsSplit(mapped, m, a, data[0], Joined(data[1..]), b);
  }

  lemma {:induction false} OutIsGo(mapped: int -> bool, d: Debug, s: seq<bool>, n: nat)
    requires Shiftable(d, s, n) && RequestOf(d, s, n).Go? && d.defined && ReadType(d.acc)
    ensures Out(mapped, d, s, n) == GoReadOut(mapped, d, s, n)
  {
  }

  lemma {:induction false} OneReadOut(mapped: int -> bool, d: Debug, x: Shift, bytes: seq<Byte>)
    requires d.instr == JI_DEBUG && d.defined && ReadType(d.acc) && GoShift(x, d.size, false)
    requires bytes == Outgoing(mapped, d, d.size)
    ensures Answered(x, Out(mapped, d, x.s, x.n), bytes)
  {
    GoParsed(d, x, d.size, false);
    OutIsGo(mapped, d, x.s, x.n);
    ReadPacketOut(mapped, d, x.s, x.n, bytes);
  }

  lemma {:induction false} OneReadNext(mapped: int -> bool, d: Debug, x: Shift)
    requires d.instr == JI_DEBUG && d.defined && ReadType(d.acc) && d.modId == JM_WISHBONE
    requires GoShift(x, d.size, false) && AllMapped(mapped, d.addr, d.size)
    ensures Next(mapped, d, RequestOf(d, x.s, x.n)) == d.(addr := d.addr + d.size)
  {
    GoParsed(d, x, d.size, false);
  }

  lemma {:induction false} HeldBytes(mapped: int -> bool, d: Debug, bytes: seq<Byte>)
    requires d.modId == JM_WISHBONE && |bytes| == d.size && Holds(mapped, d.mem, d.addr, bytes)
    ensures Outgoing(mapped, d, d.size) == bytes && AllMapped(mapped, d.addr, d.size)
  {
    var out := Outgoing(mapped, d, d.size);
    forall j: nat | j < d.size
      ensures mapped(Address(d.addr, j)) && out[j] == bytes[j]
    {
      assert out[j] == OutByte(mapped, d, j);
    }
  }

  /** The buffer out answers x with the bytes. */
  ghost predicate Answered(x: Shift, out: seq<bool>, bytes: seq<Byte>) { Answers(x.s, out, Shifted(bytes)) }

  ghost predicate AllAnswered(xs: seq<Shift>, outs: seq<seq<bool>>, data: seq<seq<Byte>>)
  {
    |outs| == |xs| == |data| && forall i :: 0 <= i < |xs| ==> Answered(xs[i], outs[i], data[i])
  }

  lemma {:induction false} AnsweredCons(xs: seq<Shift>, outs: seq<seq<bool>>, data: seq<seq<Byte>>)
    requires |outs| == |xs| == |data| > 0 && Answered(xs[0], outs[0], data[0])
    requires AllAnswered(xs[1..], outs[1..], data[1..])
    ensures AllAnswered(xs, outs, data)
  {
    forall i | 0 < i < |xs|
      ensures Answered(xs[i], outs[i], data[i])
    {
      assert xs[i] == xs[1..][i - 1] && outs[i] == outs[1..][i - 1] && data[i] == data[1..][i - 1];
    }
  }

  lemma {:induction false} RestGo(xs: seq<Shift>, size: nat)
    requires xs != [] && GoShifts(xs, size, false)
    ensures GoShifts(xs[1..], size, false)
  {
  }

  /** Any number of verified read packets shift out consecutive bytes of memory. */
  lemma {:induction false} ReadStream(mapped: int -> bool, d: Debug, xs: seq<Shift>, data: seq<seq<Byte>>)
    requires d.instr == JI_DEBUG && d.defined && ReadType(d.acc) && d.modId == JM_WISHBONE
    requires GoShifts(xs, d.size, false) && |data| == |xs| && forall i :: 0 <= i < |data| ==> |data[i]| == d.size
    requires Holds(mapped, d.mem, d.addr, Joined(data))
    ensures AllFit(xs) && AllAnswered(xs, Session(mapped, d, xs).1, data)
    decreases |xs|
  {
    if xs != [] {
      var e := d.(addr := d.addr + d.size);
      HoldsFirst(mapped, d.mem, d.addr, data, e.addr);
      HeldBytes(mapped, d, data[0]);
      OneReadOut(mapped, d, xs[0], data[0]);
      OneReadNext(mapped, d, xs[0]);
      RestGo(xs, d.size);
      ReadStream(mapped, e, xs[1..], data[1..]);
      assert Session(mapped, d, xs).1[1..] == Session(mapped, e, xs[1..]).1;
      AnsweredCons(xs, Session(mapped, d, xs).1, data);
    }
  }

  /** Stored bytes are read back, as long as they do not wrap onto themselves. */
  lemma {:induction false} StoredLoads(mapped: int -> bool, m: Memory, a: nat, data: seq<Byte>, i: nat)
    requires AllMapped(mapped, a, |data|) && |data| <= ADDRESSES && i < |data|
    ensures Load(Stored(mapped, m, a, data), Address(a, i)) == data[i]
    decreases |data|
  {
    var k := |data| - 1;
    if i < k {
      StoredLoads(mapped, m, a, data[..k], i);
      assert Address(a, i) != Address(a, k);
    }
  }

  // ------------------------------------------------------------ the round trip

  /** Bit 37 on of `out`, the answer to r, are the bits of w from bit 5 on; zeros precede
      them and a status and CRC follow. */
  ghost predicate Echoes(w: Shift, r: Shift, out: seq<bool>, size: nat)
    requires 5 + 8 * size <= |w.s|
  {
    && 37 + 8 * size <= |out| && out[37..37 + 8 * size] == w.s[5..5 + 8 * size]
    && Answers(r.s, out, w.s[5..5 + 8 * size])
  }

  /** The answers from number k on echo the data written. */
  ghost predicate EchoesFrom(ws: seq<Shift>, rs: seq<Shift>, outs: seq<seq<bool>>, k: nat, size: nat)
    requires GoShifts(ws, size, true)
  {
    |ws| == |rs| && |outs| == k + |rs| && forall i: nat :: i < |rs| ==> Echoes(ws[i], rs[i], outs[k + i], size)
  }

  lemma {:induction false} EchoesData(ws: seq<Shift>, rs: seq<Shift>, before: seq<seq<bool>>, after: seq<seq<bool>>, size: nat)
    requires GoShifts(ws, size, true) && |ws| == |rs| && AllAnswered(rs, after, DataOf(ws, size))
    ensures EchoesFrom(ws, rs, before + after, |before|, size)
  {
    var data := DataOf(ws, size);
    forall i: nat | i < |rs|
      ensures Echoes(ws[i], rs[i], (before + after)[|before| + i], size)
    {
      assert Answered(rs[i], after[i], data[i]) && (before + after)[|before| + i] == after[i];
      WrittenBits(ws[i].s, size);
      EchoesOne(ws[i], rs[i], after[i], size);
    }
  }

  lemma {:induction false} EchoesOne(w: Shift, r: Shift, out: seq<bool>, size: nat)
    requires 5 + 8 * size <= |w.s| && Answered(r, out, Written(w.s, size)) && Shifted(Written(w.s, size)) == w.s[5..5 + 8 * size]
    ensures Echoes(w, r, out, size)
  {
  }

  /** An accepted WRITE_COMMAND for size bytes at a. */
  predicate OpensWrite(d: Debug, w: Shift, a: nat, size: nat)
  {
    && AcceptedCommand(d, w) && WriteType(Val(Field(w.s, 5, 4)))
    && a == Val(Field(w.s, 9, 32)) && size == Val(Field(w.s, 41, 16)) + 1
  }

  predicate OpensRead(d: Debug, r: Shift, a: nat, size: nat)
  {
    && AcceptedCommand(d, r) && ReadType(Val(Field(r.s, 5, 4)))
    && a == Val(Field(r.s, 9, 32)) && size == Val(Field(r.s, 41, 16)) + 1
  }

  predicate OnWishbone(d: Debug) { d.instr == JI_DEBUG && d.modId == JM_WISHBONE }

  /** One session: an accepted write command at a, k verified GO packets, an accepted read
      command at a for the same size, k verified GO packets.  Each read register shifts out
      the data bits that the corresponding write register shifted in, for every k and size. */
  lemma {:induction false} RoundTrip(mapped: int -> bool, d: Debug, w: Shift, ws: seq<Shift>, r: Shift, rs: seq<Shift>, a: nat, size: nat)
    requires OnWishbone(d) && OpensWrite(d, w, a, size) && OpensRead(d, r, a, size)
    requires GoShifts(ws, size, true) && GoShifts(rs, size, false) && |rs| == |ws|
    requires AllMapped(mapped, a, Total(|ws|, size)) && Total(|ws|, size) <= ADDRESSES
    ensures AllFit([w] + ws + [r] + rs)
    ensures EchoesFrom(ws, rs, Session(mapped, d, [w] + ws + [r] + rs).1, 2 + |ws|, size)
  {
    var data := DataOf(ws, size);
    JoinedSize(data, size);
    var u := WritesDone(mapped, d, w, ws, a, size);
    var e := ReadsOpened(mapped, u, r, Joined(data), a, size);
    SessionSplit(mapped, d, [w] + ws, [r]);
    ReadStream(mapped, e, rs, data);
    SessionSplit(mapped, d, [w] + ws + [r], rs);
    EchoesData(ws, rs, Session(mapped, d, [w] + ws + [r]).1, Session(mapped, e, rs).1, size);
  }

  lemma {:induction false} WritesDone(mapped: int -> bool, d: Debug, w: Shift, ws: seq<Shift>, a: nat, size: nat) returns (u: Debug)
    requires OnWishbone(d) && OpensWrite(d, w, a, size) && GoShifts(ws, size, true)
    requires var n := |Joined(DataOf(ws, size))|; AllMapped(mapped, a, n) && n <= ADDRESSES
    ensures AllFit([w] + ws) && u == Session(mapped, d, [w] + ws).0
    ensures OnWishbone(u) && Holds(mapped, u.mem, a, Joined(DataOf(ws, size)))
  {
    var c := WriteOpened(mapped, d, w, a, size);
    WriteStream(mapped, c, ws);
    u := Wrote(mapped, c, Joined(DataOf(ws, size)));
    SessionJoin(mapped, d, [w], ws, c, u);
    StoredHolds(mapped, c.mem, a, Joined(DataOf(ws, size)));
  }

  lemma {:induction false} WriteOpened(mapped: int -> bool, d: Debug, w: Shift, a: nat, size: nat) returns (c: Debug)
    requires OnWishbone(d) && OpensWrite(d, w, a, size)
    ensures AllFit([w]) && c == Session(mapped, d, [w]).0
    ensures OnWishbone(c) && c.defined && WriteType(c.acc) && c.size == size && c.addr == a
  {
    CommandStep(mapped, d, w);
    CommandedIs(d, w.s);
    c := Commanded(d, ParseWrite(w.s, 125));
  }

  lemma {:induction false} ReadsOpened(mapped: int -> bool, u: Debug, r: Shift, x: seq<Byte>, a: nat, size: nat) returns (e: Debug)
    requires OnWishbone(u) && OpensRead(u, r, a, size) && Holds(mapped, u.mem, a, x)
    ensures AllFit([r]) && e == Session(mapped, u, [r]).0
    ensures OnWishbone(e) && e.defined && ReadType(e.acc) && e.size == size && Holds(mapped, e.mem, e.addr, x)
  {
    CommandStep(mapped, u, r);
    CommandedIs(u, r.s);
    e := Commanded(u, ParseWrite(r.s, 125));
  }

  lemma {:induction false} StoredHolds(mapped: int -> bool, m: Memory, a: nat, data: seq<Byte>)
    requires AllMapped(mapped, a, |data|) && |data| <= ADDRESSES
    ensures Holds(mapped, Stored(mapped, m, a, data), a, data)
  {
    forall j: nat | j < |data|
      ensures Load(Stored(mapped, m, a, data), Address(a, j)) == data[j]
    {
      StoredLoads(mapped, m, a, data, j);
    }
  }

  // ------------------------------------------------- bytes as bits on the wire

  lemma {:induction false} ByteBits(s: seq<bool>, i: nat)
    requires 13 + 8 * i <= |s|
    ensures Msb(DataByte(s, i)) == s[5 + 8 * i..13 + 8 * i]
  {
    ReverseTwice(s[5 + 8 * i..13 + 8 * i]);
  }

  lemma {:induction false} SliceJoin(s: seq<bool>, a: nat, b: nat, c: nat)
    requires a <= b <= c <= |s|
    ensures s[a..b] + s[b..c] == s[a..c]
  {
  }

  lemma {:induction false} ShiftedSlices(s: seq<bool>, data: seq<Byte>)
    requires 5 + 8 * |data| <= |s|
    requires forall i: nat :: i < |data| ==> Msb(data[i]) == s[5 + 8 * i..13 + 8 * i]
    ensures Shifted(data) == s[5..5 + 8 * |data|]
    decreases |data|
  {
    if data != [] {
      var i := |data| - 1;
      ShiftedSlices(s, data[..i]);
      SliceJoin(s, 5, 5 + 8 * i, 13 + 8 * i);
    }
  }

  /** The data bits of a write packet, in the order shifted, are its bytes. */
  lemma {:induction false} WrittenBits(s: seq<bool>, k: nat)
    requires 5 + 8 * k <= |s|
    ensures Shifted(Written(s, k)) == s[5..5 + 8 * k]
  {
    var data := Written(s, k);
    forall i: nat | i < k
      ensures Msb(data[i]) == s[5 + 8 * i..13 + 8 * i]
    {
      ByteBits(s, i);
    }
    ShiftedSlices(s, data);
  }

  /** A verified read packet is answered with its bytes. */
  lemma {:induction false} ReadPacketOut(mapped: int -> bool, d: Debug, s: seq<bool>, n: nat, bytes: seq<Byte>)
    requires 73 <= n <= |s| && CrcOk(s, 5) && bytes == Outgoing(mapped, d, Room(n))
    ensures Answers(s, GoReadOut(mapped, d, s, n), Shifted(bytes))
  {
    var bad := d.modId == JM_WISHBONE && !AllMapped(mapped, d.addr, Used(d, n));
    DataReply(s, Shifted(bytes), Status(false, false, bad, Overrun(d, n)));
  }

  lemma {:induction false} DataReply(s: seq<bool>, bits: seq<bool>, status: BitString)
    requires 73 + |bits| <= |s| && |status| == 4
    ensures Answers(s, Reply(Put(s, 37, bits), status, Feed(POLY, Ones(32), bits), |bits|, 37), bits)
  {
    var t, crc := Put(s, 37, bits), Feed(POLY, Ones(32), bits + Msb(status));
    FeedChained(POLY, Ones(32), bits, Msb(status));
    assert Reply(t, status, Feed(POLY, Ones(32), bits), |bits|, 37) == Response(t, status, crc, |bits|, 37);
    PutKeepsAhead(s, 37, bits);
    DataAnswers(s, t, bits, status, crc);
  }

  lemma {:induction false} DataAnswers(s: seq<bool>, t: seq<bool>, bits: seq<bool>, status: BitString, crc: Register)
    requires 73 + |bits| <= |s| == |t| && |status| == 4 && crc == Feed(POLY, Ones(32), bits + Msb(status))
    requires t[37..37 + |bits|] == bits && (ClearAhead(s, 37 + |bits|) ==> ClearAhead(t, 37 + |bits|))
    ensures Answers(s, Response(t, status, crc, |bits|, 37), bits)
  {
    ResponseFields(t, status, crc, |bits|, 37);
    AnswersFrom(s, t, Response(t, status, crc, |bits|, 37), bits, status);
  }

  lemma {:induction false} PutKeepsAhead(s: seq<bool>, o: nat, x: seq<bool>)
    requires o + |x| <= |s|
    ensures Put(s, o, x)[o..o + |x|] == x
    ensures ClearAhead(s, o + |x|) ==> ClearAhead(Put(s, o, x), o + |x|)
  {
    var e, t := o + |x|, Put(s, o, x);
    assert forall k :: e <= k < |s| ==> t[k] == s[k];
  }
}
