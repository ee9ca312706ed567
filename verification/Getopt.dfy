/** The scanner: `argv` is permuted in place while options are read. */
module ArgumentPermutation {
  import opened OptionSyntax

  datatype Ordering = RequireOrder | Permute | ReturnInOrder

  // ----------------------------------------------------------------- rotation

  /** Where the element that an exchange of [bottom, middle) and [middle, top) puts at
      k comes from. */
  function Source(bottom: nat, middle: nat, top: nat, k: nat): nat
    requires bottom <= middle <= top
  {
    if k < bottom || top <= k then k
    else if k < bottom + (top - middle) then k + (middle - bottom)
    else k - (top - middle)
  }

  /** a with the segments [bottom, middle) and [middle, top) exchanged. */
  function Rotated<T>(a: seq<T>, bottom: nat, middle: nat, top: nat): (r: seq<T>)
    requires bottom <= middle <= top <= |a|
    ensures |r| == |a|
  {
    seq(|a|, k requires 0 <= k < |a| => a[Source(bottom, middle, top, k)])
  }

  lemma {:induction false} RotatedParts<T>(a: seq<T>, bottom: nat, middle: nat, top: nat)
    requires bottom <= middle <= top <= |a|
    ensures Rotated(a, bottom, middle, top) == a[..bottom] + a[middle..top] + a[bottom..middle] + a[top..]
  {
  }

  /** An exchange permutes. */
  lemma {:induction false} RotatedPermutes<T>(a: seq<T>, bottom: nat, middle: nat, top: nat)
    requires bottom <= middle <= top <= |a|
    ensures multiset(Rotated(a, bottom, middle, top)) == multiset(a)
  {
    RotatedParts(a, bottom, middle, top);
    assert a == a[..bottom] + a[bottom..middle] + a[middle..top] + a[top..];
  }

  lemma {:induction false} NothingRotated<T>(a: seq<T>, bottom: nat, middle: nat, top: nat)
    requires bottom <= middle <= top <= |a| && (bottom == middle || middle == top)
    ensures Rotated(a, bottom, middle, top) == a
  {
  }

  /** b is a with [x, x + len) and [x + gap, x + gap + len) swapped. */
  ghost predicate Swapped<T>(a: seq<T>, b: seq<T>, x: nat, gap: nat, len: nat)
  {
    && |a| == |b| && len <= gap && x + gap + len <= |a|
    && (forall k: nat :: k < x || x + len <= k < x + gap || x + gap + len <= k < |a| ==> b[k] == a[k])
    && (forall k: nat :: x <= k < x + len ==> b[k] == a[k + gap])
    && (forall k: nat :: x + gap <= k < x + gap + len ==> b[k] == a[k - gap])
  }

  /** The shorter bottom segment goes to the far end of the top segment. */
  lemma {:induction false} ShortBottom<T>(a: seq<T>, b: seq<T>, bottom: nat, middle: nat, top: nat)
    requires bottom <= middle <= top <= |a| && middle - bottom < top - middle
    requires var len := middle - bottom; Swapped(a, b, bottom, top - middle, len)
    ensures Rotated(b, bottom, middle, top - (middle - bottom)) == Rotated(a, bottom, middle, top)
  {
  }

  /** The shorter top segment goes to the start of the bottom segment. */
  lemma {:induction false} ShortTop<T>(a: seq<T>, b: seq<T>, bottom: nat, middle: nat, top: nat)
    requires bottom <= middle <= top <= |a| && top - middle <= middle - bottom
    requires Swapped(a, b, bottom, middle - bottom, top - middle)
    ensures Rotated(b, bottom + (top - middle), middle, top) == Rotated(a, bottom, middle, top)
  {
  }

  method SwapRanges<T>(v: array<T>, x: nat, gap: nat, len: nat)
    requires len <= gap && x + gap + len <= v.Length
    modifies v
    ensures Swapped(old(v[..]), v[..], x, gap, len)
  {
    for i := 0 to len
      invariant Swapped(old(v[..]), v[..], x, gap, i)
    {
      var tem := v[x + i];
      v[x + i] := v[x + gap + i];
      v[x + gap + i] := tem;
    }
  }

  method MoveBottom<T>(v: array<T>, bottom: nat, middle: nat, top: nat)
    requires bottom <= middle <= top <= v.Length && middle - bottom < top - middle
    modifies v
    ensures Rotated(v[..], bottom, middle, top - (middle - bottom)) == Rotated(old(v[..]), bottom, middle, top)
  {
    SwapRanges(v, bottom, top - middle, middle - bottom);
    ShortBottom(old(v[..]), v[..], bottom, middle, top);
  }

  method MoveTop<T>(v: array<T>, bottom: nat, middle: nat, top: nat)
    requires bottom <= middle <= top <= v.Length && top - middle <= middle - bottom
    modifies v
    ensures Rotated(v[..], bottom + (top - middle), middle, top) == Rotated(old(v[..]), bottom, middle, top)
  {
    SwapRanges(v, bottom, middle - bottom, top - middle);
    ShortTop(old(v[..]), v[..], bottom, middle, top);
  }

  /** The block swaps of `exchange`: the shorter segment moves into place each time. */
  method Rotate<T>(v: array<T>, first: nat, middle: nat, last: nat)
    requires first <= middle <= last <= v.Length
    modifies v
    ensures v[..] == Rotated(old(v[..]), first, middle, last)
  {
    var bottom: nat, top: nat := first, last;
    while top > middle && middle > bottom
      invariant bottom <= middle <= top <= v.Length
      invariant Rotated(v[..], bottom, middle, top) == Rotated(old(v[..]), first, middle, last)
      decreases top - bottom
    {
      if top - middle > middle - bottom {
        MoveBottom(v, bottom, middle, top);
        top := top - (middle - bottom);
      } else {
        MoveTop(v, bottom, middle, top);
        bottom := bottom + (top - middle);
      }
    }
    NothingRotated(v[..], bottom, middle, top);
  }

  // ---------------------------------------------------- the layout of a scan

  function OrderingOf(cfg: Config, posix: bool): Ordering
  {
    if CharAt(cfg.optstring, 0) == '-' then ReturnInOrder
    else if CharAt(cfg.optstring, 0) == '+' || posix then RequireOrder
    else Permute
  }

  /** a is orig permuted so far: options read, non-options skipped in [first, last),
      options read since, and the untouched rest from ind on. */
  ghost predicate Layout(syn: Reader, orig: seq<string>, a: seq<string>, first: nat, last: nat, ind: nat)
  {
    && 1 <= first <= last <= ind <= |a| == |orig| && a[0] == orig[0] && SameFrom(a, orig, ind)
    && MakesUp(ReadPart(a, first, last, ind), Options(syn, orig[ind..]), Options(syn, orig[1..]))
    && MakesUp(a[first..last], Others(syn, orig[ind..]), Others(syn, orig[1..]))
  }

  ghost predicate SameFrom(a: seq<string>, b: seq<string>, i: nat)
  {
    i <= |a| == |b| && a[i..] == b[i..]
  }

  ghost predicate MakesUp(x: seq<string>, y: seq<string>, all: seq<string>) { x + y == all }

  /** The options read: those moved to the front, and those since. */
  function ReadPart(a: seq<string>, first: nat, last: nat, ind: nat): seq<string>
    requires 1 <= first <= last <= ind <= |a|
  {
    a[1..first] + a[last..ind]
  }

  /** What is still to be reported of the rest a, nextchar being left of its first
      element, completes done to all. */
  ghost predicate Pending(syn: Reader, a: seq<string>, nextchar: string, done: seq<Report>, all: seq<Report>)
  {
    if nextchar == "" then done + Reports(syn, a) == all
    else
      && a != [] && IsOption(a[0]) && a[0] != "--" && WidthFrom(syn, a, nextchar) == Width(syn, a)
      && done + ReportsFrom(syn, a, nextchar) + Reports(syn, Rest(a, Width(syn, a))) == all
  }

  lemma {:induction false} ExchangedParts(a: seq<string>, first: nat, last: nat, ind: nat)
    requires 1 <= first <= last <= ind <= |a|
    ensures var b, f := Rotated(a, first, last, ind), first + (ind - last);
            && b[0] == a[0] && b[1..f] == ReadPart(a, first, last, ind) && b[f..ind] == a[first..last]
            && b[ind..] == a[ind..]
  {
    var b, f := Rotated(a, first, last, ind), first + (ind - last);
    assert b[1..first] == a[1..first] && b[first..f] == a[last..ind];
  }

  lemma {:induction false} LayoutExchanged(syn: Reader, orig: seq<string>, a: seq<string>, first: nat, last: nat, ind: nat, b: seq<string>, f: nat)
    requires Layout(syn, orig, a, first, last, ind) && b == Rotated(a, first, last, ind) && f == first + (ind - last)
    ensures Layout(syn, orig, b, f, ind, ind)
  {
    ExchangedParts(a, first, last, ind);
    LayoutIs(syn, orig, b, f, ind, ReadPart(a, first, last, ind), a[first..last], orig[ind..]);
  }

  lemma {:induction false} LayoutIs(syn: Reader, orig: seq<string>, b: seq<string>, f: nat, ind: nat, read: seq<string>, others: seq<string>,
                 rest: seq<string>)
    requires 1 <= f <= ind <= |b| == |orig| && b[0] == orig[0] && SameFrom(b, orig, ind)
    requires read == b[1..f] && others == b[f..ind] && rest == orig[ind..]
    requires MakesUp(read, Options(syn, rest), Options(syn, orig[1..]))
    requires MakesUp(others, Others(syn, rest), Others(syn, orig[1..]))
    ensures Layout(syn, orig, b, f, ind, ind)
  {
    EmptyRight(b[1..f], b[ind..ind]);
  }

  lemma {:induction false} EmptyRight(x: seq<string>, y: seq<string>)
    requires y == []
    ensures x + y == x
  {
  }

  lemma {:induction false} TailOf(a: seq<string>, i: nat, k: nat)
    requires i + k <= |a|
    ensures a[i..][k..] == a[i + k..] && a[i..][..k] == a[i..i + k]
    ensures k > 0 ==> a[i..] != [] && a[i..][0] == a[i]
  {
  }

  lemma {:induction false} LayoutSkip(syn: Reader, orig: seq<string>, a: seq<string>, first: nat, ind: nat)
    requires Layout(syn, orig, a, first, ind, ind) && ind < |a| && !IsOption(a[ind])
    ensures Layout(syn, orig, a, first, ind + 1, ind + 1)
    ensures Reports(syn, orig[ind + 1..]) == Reports(syn, orig[ind..])
    ensures Overruns(syn, orig[ind + 1..]) == Overruns(syn, orig[ind..])
  {
    TailOf(a, ind, 1);
    TailOf(orig, ind, 1);
    ExtendOne(a, first, ind);
    AppendOne(a[first..ind], a[ind], Others(syn, orig[ind + 1..]));
    assert a[ind + 1..ind + 1] == a[ind..ind];
  }

  lemma {:induction false} ExtendOne(a: seq<string>, i: nat, j: nat)
    requires i <= j < |a|
    ensures a[i..j + 1] == a[i..j] + [a[j]]
  {
  }

  lemma {:induction false} AppendOne(x: seq<string>, e: string, y: seq<string>)
    ensures x + ([e] + y) == x + [e] + y
  {
  }

  /** An option element and its argument are read. */
  lemma {:induction false} LayoutTake(syn: Reader, orig: seq<string>, a: seq<string>, first: nat, last: nat, ind: nat, r: seq<string>, k: nat, n: nat)
    requires Layout(syn, orig, a, first, last, ind) && ind < |a| && IsOption(a[ind]) && a[ind] != "--"
    requires r == orig[ind..] && r != [] && IsOption(r[0]) && k == Width(syn, r) && n == ind + k <= |a|
    ensures Layout(syn, orig, a, first, last, n)
  {
    assert r[0] == a[ind] by {
      TailOf(a, ind, 1);
    }
    var rest := r[k..];
    assert rest == orig[n..] == a[n..] && r[..k] == a[ind..n] by {
      TailOf(a, ind, k);
      TailOf(orig, ind, k);
    }
    OptionRead(syn, r, k);
    assert a[1..first] + a[last..n] + Options(syn, rest) == Options(syn, orig[1..]) by {
      SlicesJoin(a, last, ind, n);
      AppendThree(a[1..first], a[last..ind], r[..k], Options(syn, rest));
    }
  }

  lemma {:induction false} SlicesJoin(a: seq<string>, i: nat, j: nat, k: nat)
    requires i <= j <= k <= |a|
    ensures a[i..j] + a[j..k] == a[i..k]
  {
  }

  /** Reading the first option of a leaves its rest. */
  lemma {:induction false} OptionRead(syn: Reader, a: seq<string>, k: nat)
    requires a != [] && IsOption(a[0]) && a[0] != "--" && k == Width(syn, a) && k <= |a|
    ensures Options(syn, a) == a[..k] + Options(syn, a[k..]) && Others(syn, a) == Others(syn, a[k..])
    ensures Overruns(syn, a) == Overruns(syn, a[k..]) && Rest(a, k) == a[k..]
  {
  }

  lemma {:induction false} AppendThree(x: seq<string>, y: seq<string>, z: seq<string>, w: seq<string>)
    ensures x + y + (z + w) == x + (y + z) + w
  {
  }

  /** When -1 is returned: all options with their arguments, then all other arguments,
      both in original order, with optind between them. */
  ghost predicate Finished(syn: Reader, orig: seq<string>, a: seq<string>, ind: nat)
  {
    && |orig| > 0 && a == [orig[0]] + Options(syn, orig[1..]) + Others(syn, orig[1..])
    && ind == 1 + |Options(syn, orig[1..])|
  }

  lemma {:induction false} LayoutFinished(syn: Reader, orig: seq<string>, a: seq<string>, first: nat)
    requires Layout(syn, orig, a, first, |a|, |a|)
    ensures Finished(syn, orig, a, first)
  {
    assert orig[|a|..] == [];
    assert a == [a[0]] + a[1..first] + a[first..];
  }

  lemma {:induction false} LayoutTerminated(syn: Reader, orig: seq<string>, a: seq<string>, first: nat, ind: nat)
    requires Layout(syn, orig, a, first, ind, ind) && ind < |a| && a[ind] == "--"
    ensures Finished(syn, orig, Rotated(a, first, ind, ind + 1), first + 1)
  {
    TailOf(a, ind, 1);
    TailOf(orig, ind, 1);
    RotatedParts(a, first, ind, ind + 1);
    TerminatedParts(a, first, ind);
    assert a[1..first] + a[ind..ind] == a[1..first];
  }

  lemma {:induction false} TerminatedParts(a: seq<string>, first: nat, ind: nat)
    requires 1 <= first <= ind < |a|
    ensures a[..first] + a[ind..ind + 1] + a[first..ind] + a[ind + 1..] ==
            [a[0]] + (a[1..first] + [a[ind]]) + (a[first..ind] + a[ind + 1..])
  {
    assert a[..first] == [a[0]] + a[1..first] && a[ind..ind + 1] == [a[ind]];
  }

  // ------------------------------------------------ one advance, as a function

  /** The scanner's variables. */
  datatype Scan = Scan(argv: seq<string>, first: nat, last: nat, ind: nat, nextchar: string)

  function SkipTo(a: seq<string>, i: nat): (j: nat)
    requires i <= |a|
    ensures i <= j <= |a| && (j < |a| ==> IsOption(a[j]))
    decreases |a| - i
  {
    if i < |a| && !IsOption(a[i]) then SkipTo(a, i + 1) else i
  }

  /** The scan once non-options are gathered and skipped, in PERMUTE mode. */
  ghost function Prepared(s: Scan): (r: Scan)
    requires s.first <= s.last <= s.ind <= |s.argv|
    ensures r.first <= r.last == r.ind <= |r.argv| && (r.ind < |r.argv| ==> IsOption(r.argv[r.ind]))
  {
    var b := Rotated(s.argv, s.first, s.last, s.ind);
    var j := SkipTo(b, s.ind);
    Scan(b, s.first + (s.ind - s.last), j, j, s.nextchar)
  }

  /** `--` moves before the skipped non-options, and the rest joins them. */
  ghost function Terminated(s: Scan): (r: Scan)
    requires s.first <= s.last <= s.ind < |s.argv|
    ensures r.first <= r.last == r.ind == |r.argv| == |s.argv| && r.nextchar == s.nextchar
  {
    Scan(Rotated(s.argv, s.first, s.last, s.ind + 1), s.first + (s.ind + 1 - s.last), |s.argv|, |s.argv|, s.nextchar)
  }

  lemma {:induction false} TerminatedIs(s: Scan, b: seq<string>, f: nat, n: nat)
    requires s.first <= s.last <= s.ind < |s.argv| && n == s.ind + 1
    requires b == Rotated(s.argv, s.first, s.last, n) && f == s.first + (n - s.last)
    ensures Terminated(s) == Scan(b, f, |b|, |b|, s.nextchar)
  {
  }

  lemma {:induction false} TerminatedPermutes(s: Scan)
    requires s.first <= s.last <= s.ind < |s.argv|
    ensures multiset(Terminated(s).argv) == multiset(s.argv)
  {
    RotatedPermutes(s.argv, s.first, s.last, s.ind + 1);
  }

  lemma {:induction false} TerminatedInPlace(s: Scan)
    requires s.first == s.last <= s.ind < |s.argv|
    ensures Terminated(s).argv == s.argv
  {
    NothingRotated(s.argv, s.first, s.last, s.ind + 1);
  }

  /** What follows: stop at `--` or at the end, or start an option element. */
  ghost function Stopped(syn: Reader, s: Scan): (r: (Scan, Option<int>))
    requires s.first <= s.last == s.ind <= |s.argv| && (s.ind < |s.argv| ==> IsOption(s.argv[s.ind]))
    ensures r.1 in {None, Some(-1)}
    ensures r.1.None? ==> r.0.ind < |r.0.argv| && IsOption(r.0.argv[r.0.ind]) && r.0.nextchar != ""
  {
    var j := s.ind;
    if j == |s.argv| then (s.(ind := s.first), Some(-1))
    else if s.argv[j] == "--" then var t := Terminated(s); (t.(ind := t.first), Some(-1))
    else (s.(nextchar := syn.start(s.argv[j])), None)
  }

  /** Decoding one option of the current element. */
  ghost function Taken(syn: Reader, t: Scan): (Scan, Report)
    requires t.ind < |t.argv| && IsOption(t.argv[t.ind]) && t.nextchar != ""
  {
    var r := syn.decode(t.argv[t.ind..], t.nextchar);
    (t.(ind := t.ind + r.take, nextchar := r.next), Report(r.ret, r.arg))
  }

  /** One call in PERMUTE mode. */
  ghost function Called(syn: Reader, s: Scan): (Scan, Report)
    requires s.first <= s.last <= s.ind <= |s.argv| && (s.nextchar != "" ==> s.ind < |s.argv| && IsOption(s.argv[s.ind]))
  {
    if s.nextchar != "" then Taken(syn, s)
    else
      var (t, stop) := Stopped(syn, Prepared(s));
      if stop.Some? then (t, Report(stop.value, None)) else Taken(syn, t)
  }

  lemma {:induction false} TakenIs(syn: Reader, t: Scan, d: Decoded)
    requires t.ind < |t.argv| && IsOption(t.argv[t.ind]) && t.nextchar != ""
    requires d == syn.decode(t.argv[t.ind..], t.nextchar)
    ensures Taken(syn, t) == (t.(ind := t.ind + d.take, nextchar := d.next), Report(d.ret, d.arg))
  {
  }

  /** What a call returns at once in the modes that do not permute, scanning a at element i: the end,
      or in `RETURN_IN_ORDER` a non-option as the argument of an option with code 1. */
  predicate StopsAt(order: Ordering, a: seq<string>, i: nat, ret: int, arg: Option<string>, ind: nat)
  {
    if i >= |a| then ret == -1 && ind == i
    else if a[i] == "--" then ret == -1 && ind == i + 1
    else if order.RequireOrder? then ret == -1 && ind == i
    else ret == 1 && ind == i + 1 && arg == Some(a[i])
  }

  /** The option string behind the sign that chooses the mode; only the first call takes it off. */
  function Unprefixed(os: string): string { if CharAt(os, 0) in {'-', '+'} then os[1..] else os }

  predicate AtOption(a: seq<string>, i: nat) { i < |a| && IsOption(a[i]) && a[i] != "--" }

  /** One call in these modes, from what is left of element i. */
  predicate CalledStraight(cfg: Config, os: string, order: Ordering, a: seq<string>, i: nat, nextchar: string,
                           r: Report, ind: nat, next: string)
  {
    if nextchar == "" && !AtOption(a, i) then StopsAt(order, a, i, r.ret, r.arg, ind) && next == ""
    else
      i < |a| && IsOption(a[i]) && (nextchar == "" ==> AtOption(a, i)) &&
      var d := Decode(cfg, os, a[i..], if nextchar == "" then Start(cfg, a[i]) else nextchar);
      r == Report(d.ret, d.arg) && ind == i + d.take && next == d.next
  }

  // ------------------------------------------------------------ runs of calls

  predicate PermuteMode(cfg: Config, posix: bool) { OrderingOf(cfg, posix).Permute? }

  /** What the caller owes a `W;` in the option string: the table of long options. */
  predicate HasTable(cfg: Config)
  {
    CharAt(cfg.optstring, IndexOf(cfg.optstring, 'W') + 1) == ';' ==> cfg.long.Some?
  }

  ghost predicate Scanning(syn: Reader, orig: seq<string>, s: Scan, done: seq<Report>)
  {
    && Layout(syn, orig, s.argv, s.first, s.last, s.ind)
    && Pending(syn, orig[s.ind..], s.nextchar, done, Reports(syn, orig[1..]))
    && Overruns(syn, orig[s.ind..]) == Overruns(syn, orig[1..])
  }

  lemma {:induction false} StartScanning(syn: Reader, orig: seq<string>)
    requires |orig| > 0
    ensures Scanning(syn, orig, Scan(orig, 1, 1, 1, ""), [])
  {
  }

  lemma {:induction false} PreparedScanning(syn: Reader, orig: seq<string>, s: Scan, done: seq<Report>)
    requires Scanning(syn, orig, s, done) && s.nextchar == ""
    ensures Scanning(syn, orig, Prepared(s), done) && Prepared(s).ind >= s.ind
  {
    LayoutPrepared(syn, orig, s, Prepared(s));
  }

  lemma {:induction false} LayoutPrepared(syn: Reader, orig: seq<string>, s: Scan, p: Scan)
    requires Layout(syn, orig, s.argv, s.first, s.last, s.ind) && p == Prepared(s)
    ensures Layout(syn, orig, p.argv, p.first, p.last, p.ind) && p.ind >= s.ind
    ensures Reports(syn, orig[p.ind..]) == Reports(syn, orig[s.ind..])
    ensures Overruns(syn, orig[p.ind..]) == Overruns(syn, orig[s.ind..])
  {
    PreparedIs(s, p);
    LayoutExchanged(syn, orig, s.argv, s.first, s.last, s.ind, p.argv, p.first);
    LayoutSkipped(syn, orig, p.argv, p.first, s.ind, p.ind);
  }

  lemma {:induction false} PreparedIs(s: Scan, p: Scan)
    requires s.first <= s.last <= s.ind <= |s.argv| && p == Prepared(s)
    ensures p.argv == Rotated(s.argv, s.first, s.last, s.ind) && p.first == s.first + (s.ind - s.last)
    ensures p.last == p.ind == SkipTo(p.argv, s.ind)
  {
  }

  lemma {:induction false} LayoutSkipped(syn: Reader, orig: seq<string>, a: seq<string>, first: nat, i: nat, j: nat)
    requires Layout(syn, orig, a, first, i, i) && j == SkipTo(a, i)
    ensures Layout(syn, orig, a, first, j, j) && Reports(syn, orig[j..]) == Reports(syn, orig[i..])
    ensures Overruns(syn, orig[j..]) == Overruns(syn, orig[i..])
    decreases |a| - i
  {
    if i < |a| && !IsOption(a[i]) {
      LayoutSkip(syn, orig, a, first, i);
      LayoutSkipped(syn, orig, a, first, i + 1, j);
    }
  }

  /** The scan has ended as it should. */
  ghost predicate Ended(syn: Reader, orig: seq<string>, a: seq<string>, ind: nat, done: seq<Report>)
  {
    Finished(syn, orig, a, ind) && done == Reports(syn, orig[1..]) && !Overruns(syn, orig[1..])
  }

  lemma {:induction false} ReportsEnd(syn: Reader, orig: seq<string>, a: seq<string>, ind: nat)
    requires ind <= |a| == |orig| && a[ind..] == orig[ind..] && (ind < |a| ==> a[ind] == "--")
    ensures Reports(syn, orig[ind..]) == [] && !Overruns(syn, orig[ind..])
  {
    if ind < |a| {
      assert orig[ind..][0] == a[ind..][0];
    }
  }

  lemma {:induction false} StopAtEnd(syn: Reader, orig: seq<string>, s: Scan, done: seq<Report>)
    requires Scanning(syn, orig, s, done) && s.nextchar == "" && s.last == s.ind == |s.argv|
    ensures Ended(syn, orig, s.argv, s.first, done)
  {
    LayoutFinished(syn, orig, s.argv, s.first);
    ReportsEnd(syn, orig, s.argv, s.ind);
  }

  lemma {:induction false} StopAtTerminator(syn: Reader, orig: seq<string>, s: Scan, done: seq<Report>)
    requires Scanning(syn, orig, s, done) && s.nextchar == "" && s.last == s.ind < |s.argv| && s.argv[s.ind] == "--"
    ensures Ended(syn, orig, Terminated(s).argv, Terminated(s).first, done)
  {
    LayoutTerminated(syn, orig, s.argv, s.first, s.ind);
    ReportsEnd(syn, orig, s.argv, s.ind);
  }

  lemma {:induction false} StartElement(syn: Reader, orig: seq<string>, s: Scan, done: seq<Report>)
    requires Scanning(syn, orig, s, done) && s.nextchar == "" && s.ind < |s.argv|
    requires IsOption(s.argv[s.ind]) && s.argv[s.ind] != "--"
    ensures Scanning(syn, orig, s.(nextchar := syn.start(s.argv[s.ind])), done)
  {
    TailOf(s.argv, s.ind, 1);
    var a := orig[s.ind..];
    ReportsStart(syn, a, done);
  }

  lemma {:induction false} ReportsStart(syn: Reader, a: seq<string>, done: seq<Report>)
    requires a != [] && IsOption(a[0]) && a[0] != "--"
    ensures done + Reports(syn, a) == done + ReportsFrom(syn, a, syn.start(a[0])) + Reports(syn, Rest(a, Width(syn, a)))
  {
  }

  /** Advancing stops with the finished layout, or starts the next option element. */
  lemma {:induction false} StoppedScanning(syn: Reader, orig: seq<string>, s: Scan, done: seq<Report>)
    requires Scanning(syn, orig, s, done) && s.nextchar == "" && s.last == s.ind
    requires s.ind < |s.argv| ==> IsOption(s.argv[s.ind])
    ensures var (t, stop) := Stopped(syn, s);
            if stop.Some? then Ended(syn, orig, t.argv, t.ind, done)
            else Scanning(syn, orig, t, done) && t.ind == s.ind
  {
    if s.ind == |s.argv| {
      StopAtEnd(syn, orig, s, done);
    } else if s.argv[s.ind] == "--" {
      StopAtTerminator(syn, orig, s, done);
    } else {
      StartElement(syn, orig, s, done);
    }
  }

  lemma {:induction false} WidthDecoded(syn: Reader, a: seq<string>, nc: string)
    requires a != [] && IsOption(a[0]) && nc != ""
    ensures var r := syn.decode(a, nc);
            if r.take > 0 then WidthFrom(syn, a, nc) == r.take && ReportsFrom(syn, a, nc) == [Report(r.ret, r.arg)]
            else WidthFrom(syn, a, nc) == WidthFrom(syn, a, r.next) &&
                 ReportsFrom(syn, a, nc) == [Report(r.ret, r.arg)] + ReportsFrom(syn, a, r.next)
  {
  }

  lemma {:induction false} PendingDecoded(syn: Reader, a: seq<string>, nc: string, done: seq<Report>, all: seq<Report>)
    requires Pending(syn, a, nc, done, all) && nc != ""
    ensures var r := syn.decode(a, nc);
            Pending(syn, Rest(a, r.take), r.next, done + [Report(r.ret, r.arg)], all)
  {
    WidthDecoded(syn, a, nc);
    var r := syn.decode(a, nc);
    if r.take == 0 {
      assert Rest(a, r.take) == a;
      AppendFirst(done, Report(r.ret, r.arg), ReportsFrom(syn, a, r.next));
    }
  }

  lemma {:induction false} AppendFirst(done: seq<Report>, r: Report, rest: seq<Report>)
    ensures done + ([r] + rest) == done + [r] + rest
  {
  }

  /** How far an option takes the scan, the element being left whole or taken. */
  lemma {:induction false} TakeDecoded(syn: Reader, a: seq<string>, nc: string, done: seq<Report>, all: seq<Report>)
    requires Pending(syn, a, nc, done, all) && nc != ""
    ensures syn.decode(a, nc).take in {0, Width(syn, a)}
  {
    WidthDecoded(syn, a, nc);
  }

  /** The scan has read past the end: all is reported. */
  ghost predicate Overran(syn: Reader, orig: seq<string>, t: Scan, done: seq<Report>)
  {
    |orig| > 0 && t.ind == |t.argv| + 1 && t.nextchar == "" && done == Reports(syn, orig[1..]) && Overruns(syn, orig[1..])
  }

  ghost predicate GoesOn(syn: Reader, orig: seq<string>, t: Scan, done: seq<Report>)
  {
    if t.ind <= |t.argv| then Scanning(syn, orig, t, done) else Overran(syn, orig, t, done)
  }

  /** Decoding one option keeps the layout and reports what the original vector says. */
  lemma {:induction false} TakenScanning(syn: Reader, orig: seq<string>, s: Scan, done: seq<Report>, t: Scan, next: seq<Report>)
    requires Scanning(syn, orig, s, done) && s.nextchar != "" && s.ind < |s.argv| && IsOption(s.argv[s.ind])
    requires t == Taken(syn, s).0 && next == done + [Taken(syn, s).1]
    ensures GoesOn(syn, orig, t, next)
  {
    var a := orig[s.ind..];
    assert s.argv[s.ind..] == a && a[0] == s.argv[s.ind];
    var d := syn.decode(a, s.nextchar);
    TakeDecoded(syn, a, s.nextchar, done, Reports(syn, orig[1..]));
    PendingDecoded(syn, a, s.nextchar, done, Reports(syn, orig[1..]));
    TakenIs(syn, s, d);
    Decided(syn, orig, s, a, d, done, next, t);
  }

  lemma {:induction false} Decided(syn: Reader, orig: seq<string>, s: Scan, a: seq<string>, d: Decoded, done: seq<Report>, next: seq<Report>,
                t: Scan)
    requires t == s.(ind := s.ind + d.take, nextchar := d.next)
    requires Scanning(syn, orig, s, done) && a == orig[s.ind..] && s.ind < |s.argv| && a[0] == s.argv[s.ind]
    requires IsOption(a[0]) && a[0] != "--" && d.take in {0, Width(syn, a)} && d.take <= |a| + 1 && (d.take > 0 ==> d.next == "")
    requires Pending(syn, Rest(a, d.take), d.next, next, Reports(syn, orig[1..]))
    ensures GoesOn(syn, orig, t, next)
  {
    if d.take == 0 {
      assert Rest(a, 0) == a;
      ScanningPart(syn, orig, s, a, done, next, t);
    } else if d.take <= |a| {
      TakenWhole(syn, orig, s, a, d.take, done, next, t);
    } else {
      TakenPast(syn, orig, s, d, next, t);
    }
  }

  /** An element partly read. */
  lemma {:induction false} ScanningPart(syn: Reader, orig: seq<string>, s: Scan, a: seq<string>, done: seq<Report>, next: seq<Report>, t: Scan)
    requires Scanning(syn, orig, s, done) && a == orig[s.ind..] && t == s.(nextchar := t.nextchar)
    requires Pending(syn, a, t.nextchar, next, Reports(syn, orig[1..]))
    ensures Scanning(syn, orig, t, next)
  {
  }

  /** An element wholly read. */
  lemma {:induction false} TakenWhole(syn: Reader, orig: seq<string>, s: Scan, a: seq<string>, k: nat, done: seq<Report>, next: seq<Report>,
                   t: Scan)
    requires Scanning(syn, orig, s, done) && a == orig[s.ind..] && s.ind < |s.argv| && IsOption(s.argv[s.ind])
    requires s.argv[s.ind] != "--" && 0 < k <= |a| && k == Width(syn, a)
    requires next + Reports(syn, Rest(a, k)) == Reports(syn, orig[1..])
    requires t == s.(ind := s.ind + k, nextchar := "")
    ensures Scanning(syn, orig, t, next)
  {
    var rest := orig[t.ind..];
    TakenRest(syn, orig, s, a, k, t.ind, rest);
    LayoutTake(syn, orig, t.argv, t.first, t.last, s.ind, a, k, t.ind);
    ScanningFrom(syn, orig, t, rest, next);
  }

  lemma {:induction false} TakenRest(syn: Reader, orig: seq<string>, s: Scan, a: seq<string>, k: nat, n: nat, rest: seq<string>)
    requires s.ind < |s.argv| == |orig| && SameFrom(s.argv, orig, s.ind) && a == orig[s.ind..]
    requires IsOption(s.argv[s.ind]) && s.argv[s.ind] != "--"
    requires 0 < k <= |a| && k == Width(syn, a) && n == s.ind + k && rest == orig[n..]
    ensures rest == Rest(a, k) && a[0] == s.argv[s.ind] && Overruns(syn, rest) == Overruns(syn, a)
  {
    TailOf(orig, s.ind, k);
    TailOf(s.argv, s.ind, 1);
    ReadLeaves(syn, a, k, rest);
  }

  lemma {:induction false} TakenPast(syn: Reader, orig: seq<string>, s: Scan, d: Decoded, next: seq<Report>, t: Scan)
    requires t == s.(ind := s.ind + d.take, nextchar := d.next)
    requires Layout(syn, orig, s.argv, s.first, s.last, s.ind) && Overruns(syn, orig[s.ind..]) == Overruns(syn, orig[1..])
    requires s.ind < |s.argv| && IsOption(s.argv[s.ind]) && s.argv[s.ind] != "--" && s.ind + d.take == |orig| + 1
    requires d.take == Width(syn, orig[s.ind..]) && d.next == ""
    requires Pending(syn, Rest(orig[s.ind..], d.take), d.next, next, Reports(syn, orig[1..]))
    ensures Overran(syn, orig, t, next)
  {
    assert orig[s.ind..][0] == s.argv[s.ind..][0];
  }

  lemma {:induction false} ReadLeaves(syn: Reader, r: seq<string>, k: nat, rest: seq<string>)
    requires r != [] && IsOption(r[0]) && r[0] != "--" && k == Width(syn, r) && k <= |r| && rest == r[k..]
    ensures Overruns(syn, rest) == Overruns(syn, r)
  {
  }

  lemma {:induction false} ScanningFrom(syn: Reader, orig: seq<string>, t: Scan, rest: seq<string>, done: seq<Report>)
    requires Layout(syn, orig, t.argv, t.first, t.last, t.ind) && rest == orig[t.ind..] && t.nextchar == ""
    requires done + Reports(syn, rest) == Reports(syn, orig[1..]) && Overruns(syn, rest) == Overruns(syn, orig[1..])
    ensures Scanning(syn, orig, t, done)
  {
  }

  /** The call goes on from s to t. */
  ghost predicate Progress(s: Scan, t: Scan)
  {
    s.ind < t.ind || (s.ind == t.ind && t.nextchar != "" && (s.nextchar != "" ==> |t.nextchar| < |s.nextchar|))
  }

  /** One call of a run: it ends the scan with the vector fully permuted, or reports the
      next option and goes on, or reads past the end. */
  ghost predicate CallOutcome(syn: Reader, orig: seq<string>, s: Scan, t: Scan, r: Report, done: seq<Report>)
  {
    || (r.ret == -1 && Ended(syn, orig, t.argv, t.ind, done))
    || (t.ind <= |t.argv| && Scanning(syn, orig, t, done + [r]) && Progress(s, t))
    || Overran(syn, orig, t, done + [r])
  }

  lemma {:induction false} TakenCorrect(syn: Reader, orig: seq<string>, s: Scan, t: Scan, done: seq<Report>)
    requires Scanning(syn, orig, t, done) && t.nextchar != "" && t.ind < |t.argv| && IsOption(t.argv[t.ind])
    requires s.ind <= t.ind && (s.nextchar != "" ==> s == t)
    ensures var (u, r) := Taken(syn, t); CallOutcome(syn, orig, s, u, r, done)
  {
    TakenScanning(syn, orig, t, done, Taken(syn, t).0, done + [Taken(syn, t).1]);
  }

  lemma {:induction false} CallCorrect(syn: Reader, orig: seq<string>, s: Scan, done: seq<Report>)
    requires Scanning(syn, orig, s, done)
    ensures s.first <= s.last <= s.ind <= |s.argv| && (s.nextchar != "" ==> s.ind < |s.argv| && IsOption(s.argv[s.ind]))
    ensures var (t, r) := Called(syn, s); CallOutcome(syn, orig, s, t, r, done)
  {
    PendingOption(syn, orig, s, done);
    if s.nextchar != "" {
      TakenCorrect(syn, orig, s, s, done);
    } else {
      PreparedScanning(syn, orig, s, done);
      StoppedScanning(syn, orig, Prepared(s), done);
      var (t, stop) := Stopped(syn, Prepared(s));
      if stop.None? {
        TakenCorrect(syn, orig, s, t, done);
      }
    }
  }

  lemma {:induction false} PendingOption(syn: Reader, orig: seq<string>, s: Scan, done: seq<Report>)
    requires Scanning(syn, orig, s, done)
    ensures s.nextchar != "" ==> s.ind < |s.argv| && IsOption(s.argv[s.ind])
  {
    if s.nextchar != "" {
      assert orig[s.ind..][0] == s.argv[s.ind..][0];
    }
  }

  class Getopt {
    const argv: array<string>
    var optind: nat
    var firstNonopt: nat
    var lastNonopt: nat
    /** What is left of the current element; empty also for a null `nextchar`. */
    var nextchar: string
    var optarg: Option<string>
    var initialized: bool
    var ordering: Ordering

    ghost function State(): Scan
      reads this, argv
    {
      Scan(argv[..], firstNonopt, lastNonopt, optind, nextchar)
    }

    /** `exchange`: the skipped non-options and the options after them change places. */
    method Exchange()
      requires firstNonopt <= lastNonopt <= optind <= argv.Length
      modifies this`firstNonopt, this`lastNonopt, argv
      ensures argv[..] == Rotated(old(argv[..]), old(firstNonopt), old(lastNonopt), optind)
      ensures firstNonopt == old(firstNonopt) + (optind - old(lastNonopt)) && lastNonopt == optind
    {
      var bottom: nat, middle: nat, top: nat := firstNonopt, lastNonopt, optind;
      firstNonopt := firstNonopt + (optind - lastNonopt);
      lastNonopt := optind;
      Rotate(argv, bottom, middle, top);
    }

    // ------------------------------------------------------------ one call

    /** The caller may have moved optind back. */
    predicate Valid()
      reads this, argv
    {
      && firstNonopt <= lastNonopt <= argv.Length && optind <= argv.Length
      && (nextchar != "" ==> optind < argv.Length && IsOption(argv[optind]))
    }

    /** `_getopt_initialize`. */
    method Initialize(cfg: Config, posix: bool) returns (os: string)
      modifies this`firstNonopt, this`lastNonopt, this`optind, this`nextchar, this`ordering
      ensures firstNonopt == lastNonopt == optind == 1 && nextchar == ""
      ensures ordering == OrderingOf(cfg, posix)
      ensures os == Unprefixed(cfg.optstring)
    {
      firstNonopt, lastNonopt, optind := 1, 1, 1;
      nextchar := "";
      os := cfg.optstring;
      if CharAt(os, 0) == '-' {
        ordering := ReturnInOrder;
        os := os[1..];
      } else if CharAt(os, 0) == '+' {
        ordering := RequireOrder;
        os := os[1..];
      } else {
        ordering := if posix then RequireOrder else Permute;
      }
    }

    /** The options read since the last skipped non-options move before them. */
    method GatherOptions()
      requires firstNonopt <= lastNonopt <= optind <= argv.Length
      modifies this`firstNonopt, this`lastNonopt, argv
      ensures argv[..] == Rotated(old(argv[..]), old(firstNonopt), old(lastNonopt), optind)
      ensures firstNonopt == old(firstNonopt) + (optind - old(lastNonopt)) && multiset(argv[..]) == multiset(old(argv[..]))
    {
      ghost var a := argv[..];
      RotatedPermutes(a, firstNonopt, lastNonopt, optind);
      if firstNonopt != lastNonopt && lastNonopt != optind {
        Exchange();
      } else {
        NothingRotated(a, firstNonopt, lastNonopt, optind);
        if lastNonopt != optind {
          firstNonopt := optind;
        }
      }
    }

    /** Skips more non-options. */
    method SkipNonoptions()
      requires firstNonopt <= optind <= argv.Length
      modifies this`lastNonopt, this`optind
      ensures lastNonopt == optind <= argv.Length && old(optind) <= optind
      ensures optind < argv.Length ==> IsOption(argv[optind])
      ensures optind == SkipTo(argv[..], old(optind))
    {
      while optind < argv.Length && !IsOption(argv[optind])
        invariant old(optind) <= optind <= argv.Length
        invariant SkipTo(argv[..], optind) == SkipTo(argv[..], old(optind))
        decreases argv.Length - optind
      {
        optind := optind + 1;
      }
      lastNonopt := optind;
    }

    /** Moves past `--`, which joins the options before the skipped non-options. */
    method PassTerminator()
      requires firstNonopt <= lastNonopt <= optind < argv.Length
      modifies this`firstNonopt, this`lastNonopt, this`optind, argv
      ensures optind == old(optind) + 1 && firstNonopt == old(firstNonopt) + (optind - old(lastNonopt))
      ensures argv[..] == Rotated(old(argv[..]), old(firstNonopt), old(lastNonopt), optind)
    {
      optind := optind + 1;
      if firstNonopt != lastNonopt && lastNonopt != optind {
        Exchange();
      } else {
        NothingRotated(argv[..], firstNonopt, lastNonopt, optind);
        if firstNonopt == lastNonopt {
          firstNonopt := optind;
        }
      }
    }

    /** The special element `--` ends the scan. */
    method Terminate()
      requires firstNonopt <= lastNonopt <= optind < argv.Length
      modifies this`firstNonopt, this`lastNonopt, this`optind, argv
      ensures State() == Terminated(old(State()))
    {
      ghost var s := State();
      PassTerminator();
      TerminatedIs(s, argv[..], firstNonopt, optind);
      lastNonopt := argv.Length;
      optind := argv.Length;
    }

    method Prepare()
      requires firstNonopt <= lastNonopt <= argv.Length && optind <= argv.Length
      modifies this`firstNonopt, this`lastNonopt, this`optind, argv
      ensures firstNonopt <= lastNonopt <= optind <= argv.Length && multiset(argv[..]) == multiset(old(argv[..]))
      ensures ordering.Permute? && old(lastNonopt <= optind) ==> State() == Prepared(old(State()))
      ensures !ordering.Permute? ==> argv[..] == old(argv[..]) && optind == old(optind)
      ensures !ordering.Permute? && old(firstNonopt == lastNonopt) ==> firstNonopt == lastNonopt
    {
      if lastNonopt > optind {
        lastNonopt := optind;
      }
      if firstNonopt > optind {
        firstNonopt := optind;
      }
      if ordering.Permute? {
        GatherOptions();
        SkipNonoptions();
      }
    }

    /** Returns at `--`, at the end and at a non-option, or starts an option element. */
    method StopOrStart(cfg: Config) returns (ret: Option<int>)
      requires firstNonopt <= lastNonopt <= optind <= argv.Length
      modifies this`firstNonopt, this`lastNonopt, this`optind, this`nextchar, this`optarg, argv
      ensures firstNonopt <= lastNonopt <= argv.Length && optind <= argv.Length
      ensures ret.None? ==> optind < argv.Length && IsOption(argv[optind]) && argv[optind] != "--" && nextchar != ""
      ensures ret.Some? ==> nextchar == old(nextchar)
      ensures ret.None? || ret.value == -1 ==> optarg == old(optarg)
      ensures multiset(argv[..]) == multiset(old(argv[..]))
      ensures old(lastNonopt == optind && (optind < argv.Length ==> IsOption(argv[optind]))) ==>
                (State(), ret) == Stopped(ReaderOf(cfg), old(State()))
      ensures old(firstNonopt == lastNonopt) ==> argv[..] == old(argv[..])
      ensures old(firstNonopt == lastNonopt) ==>
                if ret.Some? then !AtOption(argv[..], old(optind)) && StopsAt(ordering, argv[..], old(optind), ret.value, optarg, optind)
                else AtOption(argv[..], old(optind)) && optind == old(optind) && nextchar == Start(cfg, argv[optind])
    {
      if optind != argv.Length && argv[optind] == "--" {
        if firstNonopt == lastNonopt {
          TerminatedInPlace(State());
        }
        TerminatedPermutes(State());
        Terminate();
      }
      if optind == argv.Length {
        if firstNonopt != lastNonopt {
          optind := firstNonopt;
        }
        return Some(-1);
      }
      if !IsOption(argv[optind]) {
        if ordering.RequireOrder? {
          return Some(-1);
        }
        optarg := Some(argv[optind]);
        optind := optind + 1;
        return Some(1);
      }
      nextchar := Start(cfg, argv[optind]);
      return None;
    }

    /** Advances to the next element; the result is what the call returns at once. */
    method Advance(cfg: Config) returns (ret: Option<int>)
      requires firstNonopt <= lastNonopt <= argv.Length && optind <= argv.Length
      modifies this`firstNonopt, this`lastNonopt, this`optind, this`nextchar, this`optarg, argv
      ensures firstNonopt <= lastNonopt <= argv.Length && optind <= argv.Length
      ensures ret.None? ==> optind < argv.Length && IsOption(argv[optind]) && argv[optind] != "--" && nextchar != ""
      ensures ret.Some? ==> nextchar == old(nextchar)
      ensures ret.None? || ret.value == -1 ==> optarg == old(optarg)
      ensures multiset(argv[..]) == multiset(old(argv[..]))
      ensures ordering.Permute? && old(lastNonopt <= optind) ==> (State(), ret) == Stopped(ReaderOf(cfg), Prepared(old(State())))
      ensures !ordering.Permute? && old(firstNonopt == lastNonopt) ==>
                argv[..] == old(argv[..]) &&
                if ret.Some? then !AtOption(argv[..], old(optind)) && StopsAt(ordering, argv[..], old(optind), ret.value, optarg, optind)
                else AtOption(argv[..], old(optind)) && optind == old(optind) && nextchar == Start(cfg, argv[optind])
    {
      Prepare();
      ret := StopOrStart(cfg);
    }

    /** The scan of the long option table. */
    method FindLong(l: seq<LongOpt>, name: string) returns (m: Match)
      ensures m == Lookup(l, name)
    {
      var found, ambig := |l|, false;
      for i := 0 to |l|
        invariant FirstFrom(l, name, true, 0) == FirstFrom(l, name, true, i)
        invariant found <= |l| && (found < |l| ==> found < i && found == FirstFrom(l, name, false, 0))
        invariant found == |l| ==> FirstFrom(l, name, false, 0) == FirstFrom(l, name, false, i) && !ambig
        invariant found < |l| && !ambig ==> FirstFrom(l, name, false, found + 1) == FirstFrom(l, name, false, i)
        invariant found < |l| && ambig ==> FirstFrom(l, name, false, found + 1) < |l|
      {
        if Abbreviates(name, l[i]) {
          if |name| == |l[i].name| {
            return Found(i);
          } else if found == |l| {
            found := i;
          } else {
            ambig := true;
          }
        }
      }
      m := if ambig then Ambiguous else if found < |l| then Found(found) else NoMatch;
    }

    method DecodeShortHere(l: seq<LongOpt>, os: string) returns (ret: int)
      requires nextchar != "" && optind < argv.Length && optarg.None?
      modifies this`optind, this`nextchar, this`optarg
      ensures old(optind) <= optind
      ensures Decoded(ret, optarg, nextchar, optind - old(optind)) == DecodeShort(l, os, argv[old(optind)..], old(nextchar))
    {
      var c := nextchar[0];
      var temp := IndexOf(os, c);
      nextchar := nextchar[1..];
      if nextchar == "" {
        optind := optind + 1;
      }
      if temp == |os| || c == ':' {
        return '?' as int;
      }
      if c == 'W' && CharAt(os, temp + 1) == ';' {
        ret := DecodeWHere(l, os, old(optind));
        return;
      }
      ret := c as int;
      if CharAt(os, temp + 1) == ':' {
        if nextchar != "" {
          optarg := Some(nextchar);
          optind := optind + 1;
        } else if CharAt(os, temp + 2) != ':' {
          if optind == argv.Length {
            ret := MissingArgument(os);
          } else {
            optarg := Some(argv[optind]);
            optind := optind + 1;
          }
        }
        nextchar := "";
      }
    }

    /** `-W name` as `--name`. */
    method DecodeWHere(l: seq<LongOpt>, os: string, ghost start: nat) returns (ret: int)
      requires start < argv.Length && optind == (if nextchar == "" then start + 1 else start) && optarg.None?
      modifies this`optind, this`nextchar, this`optarg
      ensures start <= optind
      ensures Decoded(ret, optarg, nextchar, optind - start) == DecodeW(l, os, argv[start..], old(nextchar))
    {
      var name := nextchar;
      if nextchar != "" {
        optind := optind + 1;
      } else if optind == argv.Length {
        return MissingArgument(os);
      } else {
        name := argv[optind];
        optind := optind + 1;
      }
      optarg := Some(name);
      nextchar := "";
      var m := FindLong(l, NameOf(name));
      match m
      case Ambiguous =>
        optind := optind + 1;
        ret := '?' as int;
      case NoMatch =>
        ret := 'W' as int;
      case Found(i) =>
        ret := DecodeNamedHere(os, l[i], name, start);
    }

    method DecodeNamedHere(os: string, o: LongOpt, name: string, ghost start: nat) returns (ret: int)
      requires start < optind <= argv.Length && optind <= start + 2 && optarg == Some(name)
      modifies this`optind, this`optarg
      ensures start <= optind
      ensures Decoded(ret, optarg, "", optind - start) == DecodeNamed(os, o, argv[start..], name, old(optind) - start)
    {
      var nameend := IndexOf(name, '=');
      if nameend < |name| {
        if o.hasArg == 0 {
          return '?' as int;
        }
        optarg := Some(name[nameend + 1..]);
      } else if o.hasArg == 1 {
        if optind == argv.Length {
          return MissingArgument(os);
        }
        optarg := Some(argv[optind]);
        optind := optind + 1;
      }
      ret := if o.flag then 0 else o.val;
    }

    method DecodeFoundHere(os: string, o: LongOpt) returns (ret: int)
      requires optind < argv.Length && optarg.None?
      modifies this`optind, this`nextchar, this`optarg
      ensures old(optind) <= optind
      ensures Decoded(ret, optarg, nextchar, optind - old(optind)) == DecodeFound(os, o, argv[old(optind)..], old(nextchar))
    {
      var nameend := IndexOf(nextchar, '=');
      optind := optind + 1;
      if nameend < |nextchar| {
        if o.hasArg == 0 {
          nextchar := "";
          return '?' as int;
        }
        optarg := Some(nextchar[nameend + 1..]);
      } else if o.hasArg == 1 {
        if optind == argv.Length {
          nextchar := "";
          return MissingArgument(os);
        }
        optarg := Some(argv[optind]);
        optind := optind + 1;
      }
      nextchar := "";
      ret := if o.flag then 0 else o.val;
    }

    /** Decodes one option of the current element. */
    method DecodeHere(cfg: Config, os: string) returns (ret: int)
      requires nextchar != "" && optind < argv.Length && IsOption(argv[optind]) && optarg.None?
      modifies this`optind, this`nextchar, this`optarg
      ensures old(optind) <= optind
      ensures Decoded(ret, optarg, nextchar, optind - old(optind)) ==
              Decode(cfg, os, argv[old(optind)..], old(nextchar))
    {
      var e := argv[optind];
      if TriesLong(cfg, os, e) {
        var m := FindLong(cfg.long.value, NameOf(nextchar));
        if m.Found? {
          ret := DecodeFoundHere(os, cfg.long.value[m.index]);
          return;
        }
        if m.Ambiguous? || !cfg.longOnly || e[1] == '-' || IndexOf(os, nextchar[0]) == |os| {
          nextchar := "";
          optind := optind + 1;
          return '?' as int;
        }
      }
      ret := DecodeShortHere(LongOpts(cfg), os);
    }

    /** The same, on the scanner's state. */
    method TakeHere(cfg: Config, os: string) returns (ret: int)
      requires nextchar != "" && optind < argv.Length && IsOption(argv[optind]) && optarg.None?
      modifies this`optind, this`nextchar, this`optarg
      ensures optind <= argv.Length + 1 && (nextchar != "" ==> optind == old(optind))
      ensures os == cfg.optstring ==> (State(), Report(ret, optarg)) == Taken(ReaderOf(cfg), old(State()))
      ensures old(optind) <= optind
      ensures Decoded(ret, optarg, nextchar, optind - old(optind)) == Decode(cfg, os, argv[old(optind)..], old(nextchar))
    {
      ghost var t, d := State(), Decode(cfg, os, argv[optind..], nextchar);
      ret := DecodeHere(cfg, os);
      if os == cfg.optstring {
        TakenIs(ReaderOf(cfg), t, d);
      }
    }

    /** The call once the scanner is initialized. */
    method Continue(cfg: Config, os: string) returns (ret: int)
      requires Valid() && optarg.None? && HasTable(cfg)
      modifies this`firstNonopt, this`lastNonopt, this`optind, this`nextchar, this`optarg, argv
      ensures optind <= argv.Length + 1 && (optind <= argv.Length ==> Valid()) && multiset(argv[..]) == multiset(old(argv[..]))
      ensures ordering.Permute? && os == cfg.optstring && old(lastNonopt <= optind) ==>
                (State(), Report(ret, optarg)) == Called(ReaderOf(cfg), old(State()))
      ensures !ordering.Permute? && old(firstNonopt == lastNonopt) ==>
                argv[..] == old(argv[..]) &&
                CalledStraight(cfg, os, ordering, argv[..], old(optind), old(nextchar), Report(ret, optarg), optind, nextchar)
    {
      if nextchar == "" {
        var stop := Advance(cfg);
        if stop.Some? {
          return stop.value;
        }
      }
      ret := TakeHere(cfg, os);
    }

    /** `_getopt_internal`. */
    method Next(cfg: Config, posix: bool) returns (ret: int)
      requires argv.Length > 0 && HasTable(cfg) && (initialized && optind != 0 ==> Valid())
      modifies this, argv
      ensures optind <= argv.Length + 1 && (optind <= argv.Length ==> Valid())
      ensures initialized && multiset(argv[..]) == multiset(old(argv[..]))
      ensures ordering == if old(initialized && optind != 0) then old(ordering) else OrderingOf(cfg, posix)
      ensures var first := old(!initialized || optind == 0);
              ordering.Permute? && CharAt(cfg.optstring, 0) !in {'-', '+'} && (first || old(lastNonopt <= optind)) ==>
                (State(), Report(ret, optarg)) ==
                Called(ReaderOf(cfg), if first then Scan(old(argv[..]), 1, 1, 1, "") else old(State()))
      ensures var first := old(!initialized || optind == 0);
              !ordering.Permute? && (first || old(firstNonopt == lastNonopt)) ==>
                argv[..] == old(argv[..]) &&
                CalledStraight(cfg, if first then Unprefixed(cfg.optstring) else cfg.optstring, ordering, argv[..],
                               if first then 1 else old(optind), if first then "" else old(nextchar),
                               Report(ret, optarg), optind, nextchar)
    {
      optarg := None;
      var os := cfg.optstring;
      if !initialized || optind == 0 {
        os := Initialize(cfg, posix);
        initialized := true;
      }
      ret := Continue(cfg, os);
    }

    /** A call within a run. */
    method CallAgain(cfg: Config, posix: bool, ghost orig: seq<string>, ghost done: seq<Report>) returns (ret: int)
      requires PermuteMode(cfg, posix) && HasTable(cfg) && initialized && Running(orig) && optind <= argv.Length
      requires Scanning(ReaderOf(cfg), orig, State(), done)
      modifies this, argv
      ensures initialized && Running(orig)
      ensures CallOutcome(ReaderOf(cfg), orig, old(State()), State(), Report(ret, optarg), done)
    {
      CallCorrect(ReaderOf(cfg), orig, State(), done);
      ret := Next(cfg, posix);
    }

    /** Between the calls of a run in PERMUTE mode. */
    ghost predicate Running(orig: seq<string>)
      reads this, argv
    {
      && optind <= argv.Length + 1 && (optind <= argv.Length ==> Valid()) && argv.Length > 0
      && ordering.Permute? && multiset(argv[..]) == multiset(orig)
    }

    /** A caller's loop: call until -1, or until the scan has passed the end of `argv`, where
        a further call would read beyond it.  The run reports what the original vector says,
        up to the first long option whose value is -1, which the caller takes for the end. */
    method Run(cfg: Config, posix: bool) returns (reports: seq<Report>)
      requires argv.Length > 0 && !initialized && PermuteMode(cfg, posix) && HasTable(cfg)
      modifies this, argv
      ensures multiset(argv[..]) == multiset(old(argv[..]))
      ensures RunOutcome(ReaderOf(cfg), old(argv[..]), argv[..], optind, reports)
    {
      ghost var orig := argv[..];
      reports := [];
      ghost var s := Scan(orig, 1, 1, 1, "");
      StartScanning(ReaderOf(cfg), orig);
      CallCorrect(ReaderOf(cfg), orig, s, reports);
      var ret := Next(cfg, posix);
      while ret != -1 && optind <= argv.Length
        invariant InRun(cfg, orig, s, ret, reports)
        decreases ret != -1, argv.Length + 1 - optind, nextchar == "", |nextchar|
      {
        ghost var now, noted := State(), reports;
        reports := reports + [Report(ret, optarg)];
        assert reports[..|reports| - 1] == noted;
        ret := NextReport(cfg, posix, orig, s, ret, reports);
        s := now;
      }
      RunEnds(ReaderOf(cfg), orig, s, State(), Report(ret, optarg), reports);
      if ret != -1 {
        reports := reports + [Report(ret, optarg)];
      }
    }

    ghost predicate InRun(cfg: Config, orig: seq<string>, s: Scan, ret: int, reports: seq<Report>)
      reads this, argv
    {
      && |orig| > 0 && initialized && Running(orig) && NoEnd(reports)
      && CallOutcome(ReaderOf(cfg), orig, s, State(), Report(ret, optarg), reports)
    }

    /** The next call, once the report of the last is noted. */
    method NextReport(cfg: Config, posix: bool, ghost orig: seq<string>, ghost s: Scan, ghost last: int, ghost reports: seq<Report>)
      returns (ret: int)
      requires PermuteMode(cfg, posix) && HasTable(cfg) && optind <= argv.Length && last != -1 && reports != []
      requires InRun(cfg, orig, s, last, reports[..|reports| - 1])
      requires reports[|reports| - 1] == Report(last, optarg)
      modifies this, argv
      ensures InRun(cfg, orig, old(State()), ret, reports)
      ensures ret == -1 || optind > argv.Length || Progress(old(State()), State())
    {
      ghost var n := |reports| - 1;
      assert reports == reports[..n] + [Report(last, optarg)];
      NoEndGrows(reports[..n], Report(last, optarg));
      ret := CallAgain(cfg, posix, orig, reports);
    }
  }

  lemma {:induction false} NoEndGrows(reports: seq<Report>, r: Report)
    requires NoEnd(reports) && r.ret != -1
    ensures NoEnd(reports + [r])
  {
  }

  /** a and ind are what a run leaves of orig. */
  ghost predicate RunOutcome(syn: Reader, orig: seq<string>, a: seq<string>, ind: nat, reports: seq<Report>)
    requires |orig| > 0
  {
    var all := Reports(syn, orig[1..]);
    && NoEnd(reports)
    && if !NoEnd(all) then reports < all && all[|reports|].ret == -1
       else reports == all && if Overruns(syn, orig[1..]) then ind == |a| + 1 else Finished(syn, orig, a, ind)
  }

  /** What has been reported so far begins the reports of the original vector. */
  lemma {:induction false} ScanningPrefix(syn: Reader, orig: seq<string>, s: Scan, done: seq<Report>)
    requires Scanning(syn, orig, s, done)
    ensures done <= Reports(syn, orig[1..])
  {
  }

  lemma {:induction false} RunEnds(syn: Reader, orig: seq<string>, s: Scan, t: Scan, r: Report, done: seq<Report>)
    requires CallOutcome(syn, orig, s, t, r, done) && NoEnd(done) && (r.ret == -1 || t.ind == |t.argv| + 1) && |orig| > 0
    requires t.ind <= |t.argv| + 1
    ensures RunOutcome(syn, orig, t.argv, t.ind, if r.ret == -1 then done else done + [r])
  {
    var all := Reports(syn, orig[1..]);
    if r.ret == -1 && Ended(syn, orig, t.argv, t.ind, done) {
    } else if Overran(syn, orig, t, done + [r]) {
      assert all[|done|] == r;
    } else {
      ScanningPrefix(syn, orig, t, done + [r]);
      assert all[|done|] == (done + [r])[|done|] == r;
    }
  }
}
