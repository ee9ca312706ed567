/** The table of functions and the in-place event loop. */
module Profiling {
  import opened Words
  import opened CallTrees

  const MAX_STACK: nat := 262144
  const MAX_FUNCS: nat := 8192

  datatype Frame = Frame(addr: Word, cycles: Word, raddr: Word, name: string)

  datatype Func = Func(addr: Word, name: string, cum: int, calls: nat)

  // ------------------------------------------------------- the function table

  function Find(tab: seq<Func>, a: Word, j: nat): (r: nat)
    requires j <= |tab|
    ensures j <= r <= |tab| && (r < |tab| ==> tab[r].addr == a)
    ensures forall k :: j <= k < r ==> tab[k].addr != a
    decreases |tab| - j
  {
    if j == |tab| || tab[j].addr == a then j else Find(tab, a, j + 1)
  }

  function Recorded(tab: seq<Func>, a: Word, name: string, time: int): seq<Func>
  {
    var j := Find(tab, a, 0);
    if j < |tab| then tab[j := tab[j].(cum := tab[j].cum + time, calls := tab[j].calls + 1)]
    else tab + [Func(a, name, time, 1)]
  }

  /** The table after the given calls have ended, in that order. */
  function TableOf(cumulative: bool, ts: seq<Tree>): seq<Func>
  {
    if ts == [] then []
    else var t := ts[|ts| - 1]; Recorded(TableOf(cumulative, ts[..|ts| - 1]), t.addr, t.name, Charge(cumulative, t))
  }

  /** The charges of the calls to a, and their number. */
  function ChargesTo(cumulative: bool, ts: seq<Tree>, a: Word): int
  {
    if ts == [] then 0
    else ChargesTo(cumulative, ts[..|ts| - 1], a) +
         (if ts[|ts| - 1].addr == a then Charge(cumulative, ts[|ts| - 1]) else 0)
  }

  function CallsTo(ts: seq<Tree>, a: Word): nat
  {
    if ts == [] then 0 else CallsTo(ts[..|ts| - 1], a) + (if ts[|ts| - 1].addr == a then 1 else 0)
  }

  function TotalCalls(tab: seq<Func>): nat
  {
    if tab == [] then 0 else TotalCalls(tab[..|tab| - 1]) + tab[|tab| - 1].calls
  }

  function TotalCycles(tab: seq<Func>): int
  {
    if tab == [] then 0 else TotalCycles(tab[..|tab| - 1]) + tab[|tab| - 1].cum
  }

  ghost predicate Distinct(tab: seq<Func>)
  {
    forall j, k :: 0 <= j < k < |tab| ==> tab[j].addr != tab[k].addr
  }

  lemma {:induction false} TotalsAt(tab: seq<Func>, j: nat, f: Func)
    requires j < |tab|
    ensures TotalCalls(tab[j := f]) == TotalCalls(tab) + f.calls - tab[j].calls
    ensures TotalCycles(tab[j := f]) == TotalCycles(tab) + f.cum - tab[j].cum
    decreases |tab|
  {
    var n := |tab| - 1;
    if j < n {
      TotalsAt(tab[..n], j, f);
      assert tab[j := f][..n] == tab[..n][j := f];
    } else {
      assert tab[j := f][..n] == tab[..n];
    }
  }

  lemma {:induction false} TotalsAppend(tab: seq<Func>, f: Func)
    ensures TotalCalls(tab + [f]) == TotalCalls(tab) + f.calls && TotalCycles(tab + [f]) == TotalCycles(tab) + f.cum
  {
    assert (tab + [f])[..|tab|] == tab;
  }

  /** An entry holds the sum of the charges and the number of the finished calls. */
  ghost predicate EntryOk(cumulative: bool, ts: seq<Tree>, f: Func)
  {
    f.cum == ChargesTo(cumulative, ts, f.addr) && f.calls == CallsTo(ts, f.addr) > 0
  }

  ghost predicate Meaningful(cumulative: bool, ts: seq<Tree>, tab: seq<Func>)
  {
    && Distinct(tab)
    && (forall k :: 0 <= k < |tab| ==> EntryOk(cumulative, ts, tab[k]))
    && (forall i :: 0 <= i < |ts| ==> Find(tab, ts[i].addr, 0) < |tab|)
  }

  lemma {:induction false} NeverCalled(cumulative: bool, ts: seq<Tree>, a: Word)
    requires forall i :: 0 <= i < |ts| ==> ts[i].addr != a
    ensures ChargesTo(cumulative, ts, a) == 0 && CallsTo(ts, a) == 0
  {
    if ts != [] {
      NeverCalled(cumulative, ts[..|ts| - 1], a);
    }
  }

  lemma {:induction false} OneMore(cumulative: bool, us: seq<Tree>, t: Tree, a: Word)
    ensures ChargesTo(cumulative, us + [t], a) == ChargesTo(cumulative, us, a) + (if t.addr == a then Charge(cumulative, t) else 0)
    ensures CallsTo(us + [t], a) == CallsTo(us, a) + (if t.addr == a then 1 else 0)
  {
    assert (us + [t])[..|us|] == us;
  }

  lemma {:induction false} RecordedEntry(cumulative: bool, us: seq<Tree>, t: Tree, tab: seq<Func>, k: nat)
    requires Meaningful(cumulative, us, tab)
    requires k < |Recorded(tab, t.addr, t.name, Charge(cumulative, t))|
    ensures EntryOk(cumulative, us + [t], Recorded(tab, t.addr, t.name, Charge(cumulative, t))[k])
  {
    var j := Find(tab, t.addr, 0);
    if k < |tab| {
      OneMore(cumulative, us, t, tab[k].addr);
      assert EntryOk(cumulative, us, tab[k]);
    } else {
      OneMore(cumulative, us, t, t.addr);
      NeverCalled(cumulative, us, t.addr);
    }
  }

  lemma {:induction false} RecordedFinds(tab: seq<Func>, a: Word, name: string, time: int, b: Word)
    requires b == a || Find(tab, b, 0) < |tab|
    ensures Find(Recorded(tab, a, name, time), b, 0) < |Recorded(tab, a, name, time)|
  {
    var r, k := Recorded(tab, a, name, time), Find(tab, b, 0);
    assert r[k].addr == b;
  }

  lemma {:induction false} RecordedMeaningful(cumulative: bool, us: seq<Tree>, t: Tree, tab: seq<Func>)
    requires Meaningful(cumulative, us, tab)
    ensures Meaningful(cumulative, us + [t], Recorded(tab, t.addr, t.name, Charge(cumulative, t)))
  {
    var r := Recorded(tab, t.addr, t.name, Charge(cumulative, t));
    forall k | 0 <= k < |r|
      ensures EntryOk(cumulative, us + [t], r[k])
    {
      RecordedEntry(cumulative, us, t, tab, k);
    }
    forall i | 0 <= i < |us + [t]|
      ensures Find(r, (us + [t])[i].addr, 0) < |r|
    {
      RecordedFinds(tab, t.addr, t.name, Charge(cumulative, t), (us + [t])[i].addr);
    }
  }

  /** Each function has one entry, and every finished call is in one: nothing is
      counted twice or lost. */
  lemma {:induction false} TableMeaning(cumulative: bool, ts: seq<Tree>)
    ensures Meaningful(cumulative, ts, TableOf(cumulative, ts))
  {
    if ts != [] {
      var n := |ts| - 1;
      TableMeaning(cumulative, ts[..n]);
      RecordedMeaningful(cumulative, ts[..n], ts[n], TableOf(cumulative, ts[..n]));
      assert ts == ts[..n] + [ts[n]];
    }
  }

  lemma {:induction false} RecordedTotals(tab: seq<Func>, a: Word, name: string, time: int)
    ensures TotalCalls(Recorded(tab, a, name, time)) == TotalCalls(tab) + 1
    ensures TotalCycles(Recorded(tab, a, name, time)) == TotalCycles(tab) + time
  {
    var j := Find(tab, a, 0);
    if j < |tab| {
      TotalsAt(tab, j, tab[j].(cum := tab[j].cum + time, calls := tab[j].calls + 1));
    } else {
      TotalsAppend(tab, Func(a, name, time, 1));
    }
  }

  /** Call counts sum to the calls finished, and cycles to their charges. */
  lemma {:induction false} TableTotals(cumulative: bool, ts: seq<Tree>)
    ensures TotalCalls(TableOf(cumulative, ts)) == |ts|
    ensures TotalCycles(TableOf(cumulative, ts)) == Charges(cumulative, ts)
  {
    if ts != [] {
      var us, t := ts[..|ts| - 1], ts[|ts| - 1];
      TableTotals(cumulative, us);
      RecordedTotals(TableOf(cumulative, us), t.addr, t.name, Charge(cumulative, t));
    }
  }

  function Addresses(ts: seq<Tree>): set<Word> { set t | t in ts :: t.addr }

  /** The table takes an entry for each function that has returned, and no more. */
  lemma {:induction false} TableSize(cumulative: bool, ts: seq<Tree>)
    ensures |TableOf(cumulative, ts)| == |Addresses(ts)|
  {
    if ts != [] {
      var us, t := ts[..|ts| - 1], ts[|ts| - 1];
      TableSize(cumulative, us);
      assert ts == us + [t];
      assert Addresses(ts) == Addresses(us) + {t.addr};
      HasEntry(cumulative, us, t.addr);
    }
  }

  lemma {:induction false} HasEntry(cumulative: bool, ts: seq<Tree>, a: Word)
    ensures var tab := TableOf(cumulative, ts); Find(tab, a, 0) < |tab| <==> a in Addresses(ts)
  {
    var tab := TableOf(cumulative, ts);
    TableMeaning(cumulative, ts);
    var j := Find(tab, a, 0);
    if j < |tab| && a !in Addresses(ts) {
      assert EntryOk(cumulative, ts, tab[j]);
      NeverCalled(cumulative, ts, a);
    }
  }

  /** The table of more calls is no smaller. */
  lemma {:induction false} TableGrows(cumulative: bool, p: seq<Tree>, q: seq<Tree>)
    requires p <= q
    ensures |TableOf(cumulative, p)| <= |TableOf(cumulative, q)|
    decreases |q|
  {
    if |p| < |q| {
      TableGrows(cumulative, p, q[..|q| - 1]);
    } else {
      assert p == q;
    }
  }

  // ------------------------------------------------------------ the event loop

  /** The program's frame for open call j. */
  function FrameOf(cumulative: bool, open: seq<Node>, j: nat): Frame
    requires j < |open|
  {
    var c := if cumulative then open[j].push else Shifted(open, j);
    Frame(open[j].addr, if 0 <= c < WORD then c else 0, open[j].raddr, open[j].name)
  }

  ghost predicate Frames(cumulative: bool, open: seq<Node>, stack: seq<Frame>)
  {
    |open| <= |stack| && forall j: nat :: j < |open| ==> stack[j] == FrameOf(cumulative, open, j)
  }

  /** The functions of the calls finished have room in the table. */
  predicate TableFits(cumulative: bool, popped: seq<Tree>) { |TableOf(cumulative, popped)| <= MAX_FUNCS }

  /** Every call finds room on the stack. */
  predicate DepthFits(s: Calls, es: seq<Event>)
    decreases |es|
  {
    es == [] || ((es[0].Enter? ==> |s.open| < MAX_STACK) && DepthFits(Processed(s, es[0]), es[1..]))
  }

  /** The calls after the events; a reopened file also ends every open call. */
  function Acquired(s: Calls, es: seq<Event>, reopened: bool, end: nat): Calls
  {
    if reopened then CloseTo(Run(s, es), end, 0) else Run(s, es)
  }

  /** Finished calls stay finished. */
  lemma {:induction false} CloseToGrows(s: Calls, c: nat, i: nat)
    requires i <= |s.open|
    ensures s.popped <= CloseTo(s, c, i).popped
    decreases |s.open| - i
  {
    if |s.open| > i {
      CloseToGrows(CloseTop(s, c), c, i);
    }
  }

  lemma {:induction false} ProcessedGrows(s: Calls, e: Event)
    ensures s.popped <= Processed(s, e).popped
  {
    if e.Leave? {
      var i := Returning(s.open, e.raddr, |s.open|);
      if i > 0 {
        CloseToGrows(s, e.cycles, i - 1);
      }
    }
  }

  lemma {:induction false} RunGrows(s: Calls, es: seq<Event>)
    ensures s.popped <= Run(s, es).popped
    decreases |es|
  {
    if es != [] {
      ProcessedGrows(s, es[0]);
      RunGrows(Processed(s, es[0]), es[1..]);
    }
  }

  /** What fits in the end has fitted all along. */
  lemma {:induction false} FitsBefore(cumulative: bool, s: Calls, es: seq<Event>, reopened: bool, end: nat)
    requires TableFits(cumulative, Acquired(s, es, reopened, end).popped)
    ensures TableFits(cumulative, Run(s, es).popped)
    ensures es != [] ==> TableFits(cumulative, Processed(s, es[0]).popped)
  {
    if reopened {
      CloseToGrows(Run(s, es), end, 0);
      TableGrows(cumulative, Run(s, es).popped, Acquired(s, es, reopened, end).popped);
    }
    if es != [] {
      RunGrows(Processed(s, es[0]), es[1..]);
      TableGrows(cumulative, Processed(s, es[0]).popped, Run(s, es).popped);
    }
  }

  /** The time charged for the topmost frame. */
  lemma {:induction false} TopTime(cumulative: bool, s: Calls, stack: seq<Frame>, c: Word)
    requires Nested(s) && s.now <= c && |s.open| > 0 && Frames(cumulative, s.open, stack)
    ensures var n := |s.open| - 1;
            && stack[n].addr == s.open[n].addr && stack[n].name == s.open[n].name && stack[n].cycles <= c
            && c - stack[n].cycles == Charge(cumulative, Closed(s.open[n], c))
  {
    var n := |s.open| - 1;
    ShiftedBounded(s, n);
    TopShifted(s, c);
    assert stack[n] == FrameOf(cumulative, s.open, n);
  }

  /** Lower calls keep their stamps, addresses and names when the topmost ends. */
  lemma {:induction false} NodeKept(s: Calls, c: nat, j: nat)
    requires j < |s.open| - 1
    ensures var n, m := s.open[j], CloseTop(s, c).open[j];
            m.addr == n.addr && m.push == n.push && m.raddr == n.raddr && m.name == n.name
  {
  }

  /** Their shifted stamps move on by its exclusive time, without wrapping. */
  lemma {:induction false} StampMoved(s: Calls, c: nat, time: int, j: nat)
    requires Nested(s) && s.now <= c < WORD && j < |s.open| - 1
    requires time == Exclusive(Closed(s.open[|s.open| - 1], c))
    ensures var m := Shifted(CloseTop(s, c).open, j);
            && m == (Shifted(s.open, j) + time) % WORD && 0 <= m < WORD
            && 0 <= Shifted(s.open, j) < WORD
  {
    CloseNested(s, c);
    ShiftedBounded(s, j);
    ShiftedBounded(CloseTop(s, c), j);
    CloseShifts(s, c, j);
  }

  lemma {:induction false} FramePopped(cumulative: bool, s: Calls, c: nat, time: nat, j: nat)
    requires Nested(s) && s.now <= c < WORD && j < |s.open| - 1
    requires time == Charge(cumulative, Closed(s.open[|s.open| - 1], c))
    ensures var f := FrameOf(cumulative, s.open, j);
            FrameOf(cumulative, CloseTop(s, c).open, j) ==
            if cumulative then f else f.(cycles := (f.cycles + time) % WORD)
  {
    NodeKept(s, c, j);
    if !cumulative {
      StampMoved(s, c, time, j);
    }
  }

  lemma {:induction false} FramesPopped(cumulative: bool, s: Calls, stack: seq<Frame>, stack': seq<Frame>, c: Word, time: nat)
    requires Nested(s) && s.now <= c && |s.open| > 0 && Frames(cumulative, s.open, stack) && |stack'| == |stack|
    requires time == Charge(cumulative, Closed(s.open[|s.open| - 1], c))
    requires forall j: nat :: j < |s.open| - 1 ==>
               stack'[j] == if cumulative then stack[j] else stack[j].(cycles := (stack[j].cycles + time) % WORD)
    ensures Frames(cumulative, CloseTop(s, c).open, stack')
  {
    var p := CloseTop(s, c).open;
    FramesMoved(cumulative, s, p, c, time);
    forall j: nat | j < |p|
      ensures stack'[j] == FrameOf(cumulative, p, j)
    {
      assert stack[j] == FrameOf(cumulative, s.open, j);
    }
  }

  lemma {:induction false} FramesMoved(cumulative: bool, s: Calls, p: seq<Node>, c: Word, time: nat)
    requires Nested(s) && s.now <= c && |s.open| > 0 && p == CloseTop(s, c).open
    requires time == Charge(cumulative, Closed(s.open[|s.open| - 1], c))
    ensures forall j: nat :: j < |p| ==>
              var f := FrameOf(cumulative, s.open, j);
              FrameOf(cumulative, p, j) == if cumulative then f else f.(cycles := (f.cycles + time) % WORD)
  {
    forall j: nat | j < |p|
      ensures var f := FrameOf(cumulative, s.open, j);
              FrameOf(cumulative, p, j) == if cumulative then f else f.(cycles := (f.cycles + time) % WORD)
    {
      FramePopped(cumulative, s, c, time, j);
    }
  }

  /** Entering the popped frame gives the table of the calls popped since. */
  lemma {:induction false} PoppedTable(cumulative: bool, s: Calls, c: nat, p: Calls, tab: seq<Func>, a: Word, name: string, time: int)
    requires |s.open| > 0 && tab == TableOf(cumulative, s.popped) && p == CloseTop(s, c)
    requires var n := s.open[|s.open| - 1]; a == n.addr && name == n.name && time == Charge(cumulative, Closed(n, c))
    ensures Recorded(tab, a, name, time) == TableOf(cumulative, p.popped)
  {
    assert p.popped[..|s.popped|] == s.popped;
  }

  /** What else the end of the topmost call keeps. */
  lemma {:induction false} CloseFits(s: Calls, c: nat, p: Calls)
    requires Nested(s) && |s.open| > 0 && s.now <= c < WORD && p == CloseTop(s, c)
    ensures Nested(p) && p.now < WORD && |p.popped| == |s.popped| + 1 && |p.open| == |s.open| - 1
  {
    CloseNested(s, c);
  }

  lemma {:induction false} FramesPushed(cumulative: bool, s: Calls, stack: seq<Frame>, stack': seq<Frame>, n: Node)
    requires Nested(s) && Frames(cumulative, s.open, stack) && |s.open| < |stack| && n.callees == [] && n.push < WORD
    requires stack' == stack[|s.open| := Frame(n.addr, n.push, n.raddr, n.name)]
    ensures Frames(cumulative, s.open + [n], stack')
  {
    var r := s.open + [n];
    forall j: nat | j < |r|
      ensures stack'[j] == FrameOf(cumulative, r, j)
    {
      assert LivesFrom(r, |r|) == 0;
      LivesFromDrop(r, j);
      assert r[..|s.open|] == s.open;
      if j == |s.open| {
        assert LivesFrom(s.open, |s.open|) == 0;
      }
    }
  }

  lemma {:induction false} OrderedFirst(s: Calls, es: seq<Event>)
    requires es != [] && Ordered(s.now, es)
    ensures Ordered(s.now, [es[0]]) && Ordered(Processed(s, es[0]).now, es[1..])
  {
    if es[0].Leave? {
      var i := Returning(s.open, es[0].raddr, |s.open|);
      if i > 0 {
        NowAfter(s, es[0].cycles, i - 1);
      }
    }
  }

  // ------------------------------------------------------ the other counters

  /** How many lines begin with a plus, good ones or not. */
  function Pluses(es: seq<Event>): nat
  {
    if es == [] then 0
    else Pluses(es[..|es| - 1]) + (if es[|es| - 1].Enter? || es[|es| - 1].BadEnter? then 1 else 0)
  }

  /** The stamp of the last good line, if there is one. */
  function LastStamp(es: seq<Event>, before: Word): Word
  {
    if es == [] then before
    else
      match es[|es| - 1]
      case Enter(c, _, _, _) => c
      case Leave(c, _) => c
      case _ => LastStamp(es[..|es| - 1], before)
  }

  /** The greatest number of calls open at once, or before. */
  function Deepest(s: Calls, es: seq<Event>, before: nat): nat
  {
    if es == [] then before
    else
      var d, n := Deepest(s, es[..|es| - 1], before), |Run(s, es).open|;
      if es[|es| - 1].Enter? && n > d then n else d
  }

  lemma {:induction false} RunLast(s: Calls, es: seq<Event>)
    requires es != []
    ensures Run(s, es) == Processed(Run(s, es[..|es| - 1]), es[|es| - 1])
    decreases |es|
  {
    if |es| > 1 {
      RunLast(Processed(s, es[0]), es[1..]);
      assert es[1..][..|es| - 2] == es[..|es| - 1][1..];
    } else {
      assert es[1..] == [];
    }
  }

  class Profiler {
    const stack: array<Frame>
    const funcs: array<Func>
    var nstack: nat
    var nfuncs: nat
    var maxstack: nat
    var ntotcalls: nat
    var nfunccalls: nat
    var profCycles: Word
    const cumulative: bool
    ghost var calls: Calls

    ghost predicate Valid()
      reads this, stack, funcs
    {
      && stack.Length == MAX_STACK && funcs.Length == MAX_FUNCS && nstack == |calls.open| <= MAX_STACK
      && Frames(cumulative, calls.open, stack[..])
      && nfuncs <= MAX_FUNCS && funcs[..nfuncs] == TableOf(cumulative, calls.popped)
      && nfunccalls == |calls.popped|
      && Nested(calls) && calls.now < WORD
    }

    /** The search in the function table, and the entry. */
    method Record(a: Word, name: string, time: int)
      requires nfuncs <= funcs.Length == MAX_FUNCS && |Recorded(funcs[..nfuncs], a, name, time)| <= MAX_FUNCS
      modifies this`nfuncs, this`nfunccalls, funcs
      ensures nfuncs <= MAX_FUNCS && funcs[..nfuncs] == Recorded(old(funcs[..nfuncs]), a, name, time)
      ensures nfunccalls == old(nfunccalls) + 1
    {
      ghost var tab := funcs[..nfuncs];
      var j := 0;
      while j < nfuncs && funcs[j].addr != a
        invariant j <= nfuncs && Find(tab, a, j) == Find(tab, a, 0)
      {
        assert funcs[j] == tab[j];
        j := j + 1;
      }
      if j < nfuncs {
        assert funcs[j] == tab[j];
        funcs[j] := funcs[j].(cum := funcs[j].cum + time, calls := funcs[j].calls + 1);
        nfunccalls := nfunccalls + 1;
      } else {
        funcs[nfuncs] := Func(a, name, time, 1);
        nfunccalls := nfunccalls + 1;
        nfuncs := nfuncs + 1;
      }
    }

    /** Moves the start stamps of the frames below n on. */
    method Shift(n: nat, time: nat)
      requires n <= stack.Length
      modifies stack
      ensures forall j: nat :: j < n ==> stack[j] == old(stack[j]).(cycles := (old(stack[j]).cycles + time) % WORD)
      ensures forall j: nat :: n <= j < stack.Length ==> stack[j] == old(stack[j])
    {
      for j := 0 to n
        invariant forall k: nat :: k < j ==> stack[k] == old(stack[k]).(cycles := (old(stack[k]).cycles + time) % WORD)
        invariant forall k: nat :: j <= k < stack.Length ==> stack[k] == old(stack[k])
      {
        stack[j] := stack[j].(cycles := (stack[j].cycles + time) % WORD);
      }
    }

    /** Takes the topmost frame off and moves the stamps of the others on. */
    method Unstack(c: Word) returns (time: Word)
      requires stack.Length == MAX_STACK && nstack == |calls.open| <= MAX_STACK && nstack > 0
      requires Frames(cumulative, calls.open, stack[..]) && Nested(calls) && calls.now <= c
      modifies this`nstack, stack
      ensures nstack == old(nstack) - 1 && Frames(cumulative, CloseTop(calls, c).open, stack[..])
      ensures time == Charge(cumulative, Closed(calls.open[nstack], c))
      ensures stack[nstack].addr == calls.open[nstack].addr && stack[nstack].name == calls.open[nstack].name
    {
      ghost var before := stack[..];
      TopTime(cumulative, calls, before, c);
      nstack := nstack - 1;
      time := (c - stack[nstack].cycles) % WORD;
      if !cumulative {
        Shift(nstack, time);
      }
      FramesPopped(cumulative, calls, before, stack[..], c, time);
    }

    /** One turn of the unwinding loops. */
    method Pop(c: Word)
      requires Valid() && nstack > 0 && calls.now <= c && TableFits(cumulative, CloseTop(calls, c).popped)
      modifies this`nstack, this`nfuncs, this`nfunccalls, this`calls, stack, funcs
      ensures Valid() && calls == CloseTop(old(calls), c)
    {
      ghost var s, p := calls, CloseTop(calls, c);
      var time := Unstack(c);
      var f := stack[nstack];
      ghost var frames := stack[..];
      PoppedTable(cumulative, s, c, p, funcs[..nfuncs], f.addr, f.name, time);
      Record(f.addr, f.name, time);
      assert stack[..] == frames;
      CloseFits(s, c, p);
      calls := p;
    }

    method Enter(cycles: Word, raddr: Word, addr: Word, name: string)
      requires Valid() && calls.now <= cycles && nstack < MAX_STACK
      modifies this, stack
      ensures Valid() && calls == Processed(old(calls), Event.Enter(cycles, raddr, addr, name))
      ensures ntotcalls == old(ntotcalls) + 1 && profCycles == cycles
      ensures maxstack == if |calls.open| > old(maxstack) then |calls.open| else old(maxstack)
    {
      ghost var s, before := calls, stack[..];
      stack[nstack] := Frame(addr, cycles, raddr, name);
      profCycles := cycles;
      nstack := nstack + 1;
      if nstack > maxstack {
        maxstack := nstack;
      }
      ntotcalls := ntotcalls + 1;
      calls := Processed(s, Event.Enter(cycles, raddr, addr, name));
      FramesPushed(cumulative, s, before, stack[..], Node(addr, raddr, name, cycles, []));
    }

    /** The topmost frame that returns to raddr, or -1. */
    method FindReturn(raddr: Word) returns (i: int)
      requires nstack == |calls.open| <= stack.Length && Frames(cumulative, calls.open, stack[..])
      ensures i + 1 == Returning(calls.open, raddr, |calls.open|)
    {
      i := nstack - 1;
      while i >= 0 && stack[i].raddr != raddr
        invariant -1 <= i < nstack && Returning(calls.open, raddr, i + 1) == Returning(calls.open, raddr, |calls.open|)
      {
        assert stack[..][i] == FrameOf(cumulative, calls.open, i);
        i := i - 1;
      }
      if i >= 0 {
        assert stack[..][i] == FrameOf(cumulative, calls.open, i);
      }
    }

    method Leave(cycles: Word, raddr: Word)
      requires Valid() && calls.now <= cycles
      requires TableFits(cumulative, Processed(calls, Event.Leave(cycles, raddr)).popped)
      modifies this`nstack, this`nfuncs, this`nfunccalls, this`calls, this`profCycles, stack, funcs
      ensures Valid() && calls == Processed(old(calls), Event.Leave(cycles, raddr)) && profCycles == cycles
    {
      profCycles := cycles;
      var i := FindReturn(raddr);
      if i >= 0 {
        Unwind(cycles, i);
      } else {
        Advance(cycles);
      }
    }

    /** Time goes on, and nothing else. */
    ghost method Advance(c: Word)
      requires Valid() && calls.now <= c
      modifies this`calls
      ensures Valid() && calls == old(calls).(now := c)
    {
      calls := calls.(now := c);
    }

    method Unwind(c: Word, i: nat)
      requires Valid() && i <= nstack && calls.now <= c && TableFits(cumulative, CloseTo(calls, c, i).popped)
      modifies this`nstack, this`nfuncs, this`nfunccalls, this`calls, stack, funcs
      ensures Valid() && calls == CloseTo(old(calls), c, i)
    {
      while nstack > i
        invariant Valid() && i <= nstack && calls.now <= c
        invariant CloseTo(calls, c, i) == CloseTo(old(calls), c, i)
      {
        CloseToGrows(CloseTop(calls, c), c, i);
        TableGrows(cumulative, CloseTop(calls, c).popped, CloseTo(calls, c, i).popped);
        Pop(c);
      }
      Advance(c);
    }

    constructor (cumulative: bool)
      ensures Valid() && calls == Calls([], [], [], 0) && this.cumulative == cumulative
      ensures fresh(stack) && fresh(funcs)
    {
      var noFrame, noFunc := Frame(0, 0, 0, ""), Func(0, "", 0, 0);
      stack := new Frame[MAX_STACK](_ => noFrame);
      funcs := new Func[MAX_FUNCS](_ => noFunc);
      nstack, nfuncs, maxstack, ntotcalls, nfunccalls, profCycles := 0, 0, 0, 0, 0, 0;
      this.cumulative := cumulative;
      calls := Calls([], [], [], 0);
    }

    method Handle(e: Event)
      requires Valid() && (e.Enter? ==> nstack < MAX_STACK) && Ordered(calls.now, [e])
      requires TableFits(cumulative, Processed(calls, e).popped)
      modifies this, stack, funcs
      ensures Valid() && calls == Processed(old(calls), e)
      ensures ntotcalls == old(ntotcalls) + (if e.Enter? || e.BadEnter? then 1 else 0)
      ensures profCycles == if e.Enter? || e.Leave? then e.cycles else old(profCycles)
      ensures maxstack == if e.Enter? && |calls.open| > old(maxstack) then |calls.open| else old(maxstack)
    {
      match e
      case Enter(c, r, a, n) => Enter(c, r, a, n);
      case Leave(c, r) => Leave(c, r);
      case BadEnter => ntotcalls := ntotcalls + 1;
      case BadLeave =>
    }

    ghost predicate Noted(s: Calls, es: seq<Event>, total: nat, deep: nat, stamp: Word)
      reads this
    {
      ntotcalls == total + Pluses(es) && maxstack == Deepest(s, es, deep) && profCycles == LastStamp(es, stamp)
    }

    /** Line e, after those of es. */
    method HandleLine(ghost s: Calls, ghost es: seq<Event>, e: Event, ghost total: nat, ghost deep: nat, ghost stamp: Word)
      requires Valid() && (e.Enter? ==> nstack < MAX_STACK) && Ordered(calls.now, [e])
      requires TableFits(cumulative, Processed(calls, e).popped)
      requires calls == Run(s, es) && Noted(s, es, total, deep, stamp)
      modifies this, stack, funcs
      ensures Valid() && calls == Processed(old(calls), e) == Run(s, es + [e]) && Noted(s, es + [e], total, deep, stamp)
    {
      Handle(e);
      assert (es + [e])[..|es|] == es;
      RunLast(s, es + [e]);
    }

    /** The loop over the lines of the file. */
    method ReadLines(events: seq<Event>, ghost reopened: bool, ghost end: Word)
      requires Valid() && Ordered(calls.now, events) && DepthFits(calls, events)
      requires TableFits(cumulative, Acquired(calls, events, reopened, end).popped)
      modifies this, stack, funcs
      ensures Valid() && calls == Run(old(calls), events)
      ensures Noted(old(calls), events, old(ntotcalls), old(maxstack), old(profCycles))
    {
      ghost var s := calls;
      assert events[..0] == [];
      for i := 0 to |events|
        invariant Valid() && DepthFits(calls, events[i..]) && Ordered(calls.now, events[i..])
        invariant calls == Run(s, events[..i]) && Run(calls, events[i..]) == Run(s, events)
        invariant Noted(s, events[..i], old(ntotcalls), old(maxstack), old(profCycles))
      {
        assert events[i..][0] == events[i] && events[i..][1..] == events[i + 1..];
        OrderedFirst(calls, events[i..]);
        FitsBefore(cumulative, calls, events[i..], reopened, end);
        HandleLine(s, events[..i], events[i], old(ntotcalls), old(maxstack), old(profCycles));
        assert events[..i + 1] == events[..i] + [events[i]];
      }
      assert events[..|events|] == events;
    }

    /** The end of the calls still open in a reopened file. */
    method CloseAll(end: Word)
      requires Valid() && calls.now <= end && TableFits(cumulative, CloseTo(calls, end, 0).popped)
      modifies this`nstack, this`nfuncs, this`nfunccalls, this`calls, this`profCycles, stack, funcs
      ensures Valid() && calls == CloseTo(old(calls), end, 0) && profCycles == end
    {
      profCycles := end;
      Unwind(end, 0);
    }

    /** `prof_acquire`; a reopened file also closes every open call at `end`.  The stack must
        have room for the deepest nesting, the table for the functions that return. */
    method Acquire(events: seq<Event>, reopened: bool, end: Word)
      requires Valid() && Ordered(calls.now, events) && DepthFits(calls, events)
      requires TableFits(cumulative, Acquired(calls, events, reopened, end).popped)
      requires reopened ==> Run(calls, events).now <= end
      modifies this, stack, funcs
      ensures Valid()
      ensures calls == Acquired(old(calls), events, reopened, end)
      ensures ntotcalls == old(ntotcalls) + Pluses(events) && maxstack == Deepest(old(calls), events, old(maxstack))
      ensures profCycles == if reopened then end else LastStamp(events, old(profCycles))
      ensures TotalCalls(funcs[..nfuncs]) == nfunccalls == |calls.popped|
      ensures !cumulative && old(Conserved(calls)) && nstack == 0 ==>
                TotalCycles(funcs[..nfuncs]) == Lives(calls.roots)
    {
      ghost var s, conserved := calls, Conserved(calls);
      ReadLines(events, reopened, end);
      if conserved {
        RunKeeps(s, events);
      }
      if reopened {
        if conserved {
          CloseToKeeps(calls, end, 0);
        }
        CloseAll(end);
      }
      TableTotals(cumulative, calls.popped);
    }
  }
}
