/** What the counts of the memory profiler (mprofiler.c) mean: tallies of the records in
    range, group by group. */
module AccessCounts {
  import opened Words
  import B = Bits

  datatype Record = Record(addr: Word, typ: nat)

  /** `-m width` counts widths, the other modes kinds of access. */
  datatype Mode = Detail | Pretty | Access | Width

  /** The counter a record goes to; unknown types are counted in the first. */
  function IndexOf(mode: Mode, typ: nat): (i: nat)
    ensures i < 3
  {
    var t := if typ > 64 then 0 else typ;
    var u := if mode.Width? then t / 8 else t % 8;
    if u == 1 then 0 else if u == 2 then 1 else if u == 4 then 2 else 0
  }

  /** A type holds the width of an access, in units of 8, and its kind; each mode counts by one of the
      two, in the order of the bits 1, 2 and 4. */
  lemma {:induction false} KindCounted(mode: Mode, width: nat, kind: nat)
    requires kind < 8 && 8 * width + kind <= 64
    ensures var n := if mode.Width? then width else kind;
            IndexOf(mode, 8 * width + kind) == if n == 2 then 1 else if n == 4 then 2 else 0
  {
    assert (8 * width + kind) / 8 == width && (8 * width + kind) % 8 == kind;
  }

  predicate InRange(start: Word, end: Word, r: Record) { start <= r.addr <= end }

  /** The records in range that group a and counter i take. */
  function Tally(mode: Mode, g: nat, start: Word, end: Word, rs: seq<Record>, a: int, i: nat): nat
  {
    if rs == [] then 0
    else
      var r := rs[|rs| - 1];
      Tally(mode, g, start, end, rs[..|rs| - 1], a, i) +
      (if InRange(start, end, r) && r.addr / B.Pow2(g) == a && IndexOf(mode, r.typ) == i then 1 else 0)
  }

  /** One more record. */
  lemma {:induction false} TallyGrows(mode: Mode, g: nat, start: Word, end: Word, rs: seq<Record>, r: Record)
    ensures forall a: int, i: nat ::
              Tally(mode, g, start, end, rs + [r], a, i) ==
              Tally(mode, g, start, end, rs, a, i) +
              (if InRange(start, end, r) && r.addr / B.Pow2(g) == a && IndexOf(mode, r.typ) == i then 1 else 0)
  {
    assert (rs + [r])[..|rs|] == rs;
  }

  function Counted(start: Word, end: Word, rs: seq<Record>): nat
  {
    if rs == [] then 0
    else Counted(start, end, rs[..|rs| - 1]) + (if InRange(start, end, rs[|rs| - 1]) then 1 else 0)
  }

  /** All three counters of group a. */
  function GroupTally(mode: Mode, g: nat, start: Word, end: Word, rs: seq<Record>, a: int): nat
  {
    Tally(mode, g, start, end, rs, a, 0) + Tally(mode, g, start, end, rs, a, 1) + Tally(mode, g, start, end, rs, a, 2)
  }

  /** The counters of n groups from group a on. */
  function GroupsTally(mode: Mode, g: nat, start: Word, end: Word, rs: seq<Record>, a: int, n: nat): nat
    decreases n
  {
    if n == 0 then 0
    else GroupsTally(mode, g, start, end, rs, a, n - 1) + GroupTally(mode, g, start, end, rs, a + n - 1)
  }

  lemma {:induction false} NoRecords(mode: Mode, g: nat, start: Word, end: Word, a: int, n: nat)
    ensures GroupsTally(mode, g, start, end, [], a, n) == 0
    decreases n
  {
    if n > 0 {
      NoRecords(mode, g, start, end, a, n - 1);
    }
  }

  /** One more record adds one to the n groups from a on if its group is among them. */
  lemma {:induction false} OneRecord(mode: Mode, g: nat, start: Word, end: Word, rs: seq<Record>, r: Record, a: int, n: nat)
    ensures var hit := InRange(start, end, r) && a <= r.addr / B.Pow2(g) < a + n;
            GroupsTally(mode, g, start, end, rs + [r], a, n) ==
            GroupsTally(mode, g, start, end, rs, a, n) + (if hit then 1 else 0)
    decreases n
  {
    if n > 0 {
      OneRecord(mode, g, start, end, rs, r, a, n - 1);
      OneGroup(mode, g, start, end, rs, r, a + n - 1);
    }
  }

  lemma {:induction false} OneGroup(mode: Mode, g: nat, start: Word, end: Word, rs: seq<Record>, r: Record, a: int)
    ensures var hit := InRange(start, end, r) && r.addr / B.Pow2(g) == a;
            GroupTally(mode, g, start, end, rs + [r], a) ==
            GroupTally(mode, g, start, end, rs, a) + (if hit then 1 else 0)
  {
    assert (rs + [r])[..|rs|] == rs;
  }

  /** The groups from the one of start to the one of end hold every record in range, and
      each record once. */
  lemma {:induction false} AllCounted(mode: Mode, g: nat, start: Word, end: Word, rs: seq<Record>, n: nat)
    requires start <= end && n == end / B.Pow2(g) - start / B.Pow2(g) + 1
    ensures GroupsTally(mode, g, start, end, rs, start / B.Pow2(g), n) == Counted(start, end, rs)
    decreases |rs|
  {
    var a := start / B.Pow2(g);
    if rs == [] {
      NoRecords(mode, g, start, end, a, n);
    } else {
      var m := |rs| - 1;
      AllCounted(mode, g, start, end, rs[..m], n);
      OneRecord(mode, g, start, end, rs[..m], rs[m], a, n);
      assert rs == rs[..m] + [rs[m]];
      if InRange(start, end, rs[m]) {
        DivMonotone(start, rs[m].addr, B.Pow2(g));
        DivMonotone(rs[m].addr, end, B.Pow2(g));
      }
    }
  }

  lemma {:induction false} DivMonotone(x: nat, y: nat, d: nat)
    requires x <= y && d > 0
    ensures x / d <= y / d
  {
    var k := x / d - y / d;
    assert k * d == x / d * d - y / d * d;
    B.MulGrows(k, d);
  }
}
