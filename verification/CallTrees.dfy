/** The profiler (profiler.c): a stream of call and return events turned into times
    per function.  The program shifts the start stamps of open frames; the call trees
    here say what the result means. */
module CallTrees {
  import opened Words

  /** A finished call: when it began and ended, and the calls it made. */
  datatype Tree = Tree(addr: Word, name: string, push: nat, end: nat, callees: seq<Tree>)

  function Life(t: Tree): int { t.end - t.push }

  function Lives(ts: seq<Tree>): int
  {
    if ts == [] then 0 else Lives(ts[..|ts| - 1]) + Life(ts[|ts| - 1])
  }

  /** The time spent in the call itself. */
  function Exclusive(t: Tree): int { Life(t) - Lives(t.callees) }

  /** An open call. */
  datatype Node = Node(addr: Word, raddr: Word, name: string, push: nat, callees: seq<Tree>)

  /** The open calls, bottom first; the finished calls made by no open or finished
      call; and all finished calls in the order of their end. */
  datatype Calls = Calls(open: seq<Node>, roots: seq<Tree>, popped: seq<Tree>, now: nat)

  datatype Event =
    | Enter(cycles: Word, raddr: Word, addr: Word, name: string)
    | Leave(cycles: Word, raddr: Word)
    | BadEnter
    | BadLeave

  function Closed(n: Node, c: nat): Tree { Tree(n.addr, n.name, n.push, c, n.callees) }

  /** The topmost call ends at c. */
  function CloseTop(s: Calls, c: nat): (r: Calls)
    requires |s.open| > 0
    ensures |r.open| == |s.open| - 1 && r.now == c
  {
    var n := |s.open| - 1;
    var t := Closed(s.open[n], c);
    if n == 0 then Calls([], s.roots + [t], s.popped + [t], c)
    else
      var caller := s.open[n - 1];
      Calls(s.open[..n - 1] + [caller.(callees := caller.callees + [t])], s.roots, s.popped + [t], c)
  }

  /** The calls above and including number i end at c. */
  function CloseTo(s: Calls, c: nat, i: nat): (r: Calls)
    requires i <= |s.open|
    ensures |r.open| == i
    decreases |s.open| - i
  {
    if |s.open| == i then s.(now := c) else CloseTo(CloseTop(s, c), c, i)
  }

  /** One more than the number of the topmost of the n lowest calls that returns to r. */
  function Returning(open: seq<Node>, r: Word, n: nat): (i: nat)
    requires n <= |open|
    ensures i <= n && (i > 0 ==> open[i - 1].raddr == r)
    ensures forall k :: i <= k < n ==> open[k].raddr != r
  {
    if n == 0 || open[n - 1].raddr == r then n else Returning(open, r, n - 1)
  }

  /** A return closes the topmost call that returns there and whatever is above it; a
      return that no call matches is ignored. */
  function Processed(s: Calls, e: Event): Calls
  {
    match e
    case Enter(c, r, a, n) => s.(open := s.open + [Node(a, r, n, c, [])], now := c)
    case Leave(c, r) =>
      var i := Returning(s.open, r, |s.open|);
      if i > 0 then CloseTo(s, c, i - 1) else s.(now := c)
    case _ => s
  }

  function Run(s: Calls, es: seq<Event>): Calls
    decreases |es|
  {
    if es == [] then s else Run(Processed(s, es[0]), es[1..])
  }

  /** Stamps never go back. */
  predicate Ordered(now: nat, es: seq<Event>)
    decreases |es|
  {
    es == [] ||
    match es[0]
    case Enter(c, _, _, _) => now <= c && Ordered(c, es[1..])
    case Leave(c, _) => now <= c && Ordered(c, es[1..])
    case _ => Ordered(now, es[1..])
  }

  // -------------------------------------------------------------- nesting

  ghost predicate ProperTree(t: Tree)
  {
    0 <= Lives(t.callees) <= Life(t)
  }

  /** The callees of each open call ended before the next open call began. */
  ghost predicate Nested(s: Calls)
  {
    && (forall j :: 0 <= j < |s.open| ==> 0 <= Lives(s.open[j].callees))
    && (forall j :: 0 <= j < |s.open| - 1 ==> s.open[j].push + Lives(s.open[j].callees) <= s.open[j + 1].push)
    && (|s.open| > 0 ==> s.open[|s.open| - 1].push + Lives(s.open[|s.open| - 1].callees) <= s.now)
  }

  lemma {:induction false} LivesAppend(ts: seq<Tree>, t: Tree)
    ensures Lives(ts + [t]) == Lives(ts) + Life(t)
  {
    assert (ts + [t])[..|ts|] == ts;
  }

  lemma {:induction false} CloseNested(s: Calls, c: nat)
    requires Nested(s) && s.now <= c && |s.open| > 0
    ensures Nested(CloseTop(s, c)) && ProperTree(Closed(s.open[|s.open| - 1], c))
    ensures Life(Closed(s.open[|s.open| - 1], c)) >= 0
  {
    var n := |s.open| - 1;
    if n > 0 {
      var t := Closed(s.open[n], c);
      LivesAppend(s.open[n - 1].callees, t);
      CallerNested(s, s.open[n - 1].(callees := s.open[n - 1].callees + [t]), CloseTop(s, c));
    }
  }

  /** The caller m has taken the place of the two topmost calls. */
  lemma {:induction false} CallerNested(s: Calls, m: Node, r: Calls)
    requires Nested(s) && |s.open| > 1 && r.open == s.open[..|s.open| - 2] + [m] && m.push == s.open[|s.open| - 2].push
    requires 0 <= Lives(m.callees) <= r.now - m.push
    ensures Nested(r)
  {
    var n := |s.open| - 1;
    assert forall j :: 0 <= j < n - 1 ==> r.open[j] == s.open[j];
  }

  // --------------------------------------------------------- shifted stamps

  /** What the program keeps as the start stamp of open call j: its real start moved on
      by everything that finished calls made from j upwards have taken. */
  function Shifted(open: seq<Node>, j: nat): int
    requires j < |open|
    decreases |open| - j
  {
    open[j].push + LivesFrom(open, j)
  }

  function LivesFrom(open: seq<Node>, j: nat): int
    requires j <= |open|
    decreases |open| - j
  {
    if j == |open| then 0 else Lives(open[j].callees) + LivesFrom(open, j + 1)
  }

  lemma {:induction false} LivesFromDrop(open: seq<Node>, j: nat)
    requires j < |open|
    ensures LivesFrom(open, j) == LivesFrom(open[..|open| - 1], j) + Lives(open[|open| - 1].callees)
    decreases |open| - j
  {
    var p := open[..|open| - 1];
    if j < |open| - 1 {
      LivesFromDrop(open, j + 1);
      assert p[j] == open[j];
    }
  }

  lemma {:induction false} LivesFromTop(open: seq<Node>, n: Node, j: nat)
    requires j < |open|
    ensures LivesFrom(open[..|open| - 1] + [n], j) ==
            LivesFrom(open, j) + Lives(n.callees) - Lives(open[|open| - 1].callees)
    decreases |open| - j
  {
    var p := open[..|open| - 1] + [n];
    if j < |open| - 1 {
      LivesFromTop(open, n, j + 1);
      assert p[j] == open[j];
    } else {
      assert LivesFrom(p, j + 1) == 0 && LivesFrom(open, j + 1) == 0;
    }
  }

  /** Adding the exclusive time of the closed call to every lower stamp is exactly what
      keeps the stamps shifted: the fast form refines the call tree. */
  lemma {:induction false} CloseShifts(s: Calls, c: nat, j: nat)
    requires |s.open| > 0 && j < |s.open| - 1
    ensures var n := |s.open| - 1;
            Shifted(CloseTop(s, c).open, j) == Shifted(s.open, j) + Exclusive(Closed(s.open[n], c))
  {
    var n := |s.open| - 1;
    var t := Closed(s.open[n], c);
    var low, caller := s.open[..n], s.open[n - 1].(callees := s.open[n - 1].callees + [t]);
    var p := low[..n - 1] + [caller];
    assert p == CloseTop(s, c).open && p[j].push == s.open[j].push;
    LivesFromDrop(s.open, j);
    LivesFromTop(low, caller, j);
    LivesAppend(s.open[n - 1].callees, t);
    assert LivesFrom(p, j) == LivesFrom(low, j) + Life(t);
    assert Shifted(p, j) == p[j].push + LivesFrom(p, j);
  }

  /** The topmost shifted stamp leaves the exclusive time. */
  lemma {:induction false} TopShifted(s: Calls, c: nat)
    requires |s.open| > 0
    ensures c - Shifted(s.open, |s.open| - 1) == Exclusive(Closed(s.open[|s.open| - 1], c))
  {
    assert LivesFrom(s.open, |s.open|) == 0;
  }

  /** Shifted stamps grow up the stack and stay behind the clock, so they never wrap. */
  lemma {:induction false} ShiftedBounded(s: Calls, j: nat)
    requires Nested(s) && j < |s.open|
    ensures 0 <= s.open[j].push <= Shifted(s.open, j) <= s.now
    ensures j + 1 < |s.open| ==> Shifted(s.open, j) <= Shifted(s.open, j + 1)
    decreases |s.open| - j
  {
    if j + 1 < |s.open| {
      ShiftedBounded(s, j + 1);
    } else {
      assert LivesFrom(s.open, j + 1) == 0;
    }
  }

  // ---------------------------------------------------------------- conservation

  function Charge(cumulative: bool, t: Tree): int { if cumulative then Life(t) else Exclusive(t) }

  function Charges(cumulative: bool, ts: seq<Tree>): int
  {
    if ts == [] then 0 else Charges(cumulative, ts[..|ts| - 1]) + Charge(cumulative, ts[|ts| - 1])
  }

  lemma {:induction false} ChargesAppend(cumulative: bool, ts: seq<Tree>, t: Tree)
    ensures Charges(cumulative, ts + [t]) == Charges(cumulative, ts) + Charge(cumulative, t)
  {
    assert (ts + [t])[..|ts|] == ts;
  }

  /** What has been charged is the lifetime of the finished outermost calls and of the
      finished callees of the open ones. */
  ghost predicate Conserved(s: Calls)
  {
    Charges(false, s.popped) == Lives(s.roots) + LivesFrom(s.open, 0)
  }

  lemma {:induction false} CloseConserves(s: Calls, c: nat)
    requires |s.open| > 0 && Conserved(s)
    ensures Conserved(CloseTop(s, c))
  {
    var n := |s.open| - 1;
    var t := Closed(s.open[n], c);
    ChargesAppend(false, s.popped, t);
    LivesFromDrop(s.open, 0);
    if n == 0 {
      LivesAppend(s.roots, t);
      assert LivesFrom(s.open[..n], 0) == 0;
    } else {
      var caller := s.open[n - 1].(callees := s.open[n - 1].callees + [t]);
      LivesFromTop(s.open[..n], caller, 0);
      assert CloseTop(s, c).open == s.open[..n][..n - 1] + [caller];
      LivesAppend(s.open[n - 1].callees, t);
    }
  }

  lemma {:induction false} CloseToKeeps(s: Calls, c: nat, i: nat)
    requires i <= |s.open| && Nested(s) && Conserved(s) && s.now <= c
    ensures Nested(CloseTo(s, c, i)) && Conserved(CloseTo(s, c, i))
    decreases |s.open| - i
  {
    if |s.open| > i {
      var r := CloseTop(s, c);
      CloseNested(s, c);
      CloseConserves(s, c);
      CloseToKeeps(r, c, i);
      assert CloseTo(s, c, i) == CloseTo(r, c, i);
    }
  }

  lemma {:induction false} EnterNested(s: Calls, n: Node, r: seq<Node>)
    requires Nested(s) && s.now <= n.push && n.callees == [] && r == s.open + [n]
    ensures Nested(s.(open := r, now := n.push))
  {
  }

  lemma {:induction false} EnterKeeps(s: Calls, n: Node)
    requires Nested(s) && Conserved(s) && s.now <= n.push && n.callees == []
    ensures var r := s.(open := s.open + [n], now := n.push); Nested(r) && Conserved(r)
  {
    var r := s.open + [n];
    EnterNested(s, n, r);
    LivesFromDrop(r, 0);
    assert r[..|s.open|] == s.open;
  }

  /** Over every event stream with nondecreasing stamps, whatever returns it contains,
      charges are conserved. */
  lemma {:induction false} RunKeeps(s: Calls, es: seq<Event>)
    requires Nested(s) && Conserved(s) && Ordered(s.now, es)
    ensures Nested(Run(s, es)) && Conserved(Run(s, es))
    decreases |es|
  {
    if es != [] {
      match es[0] {
        case Enter(c, r, a, n) => EnterKeeps(s, Node(a, r, n, c, []));
        case Leave(c, r) =>
          var i := Returning(s.open, r, |s.open|);
          if i > 0 {
            CloseToKeeps(s, c, i - 1);
            NowAfter(s, c, i - 1);
          }
        case _ =>
      }
      RunKeeps(Processed(s, es[0]), es[1..]);
    }
  }

  lemma {:induction false} NowAfter(s: Calls, c: nat, i: nat)
    requires i <= |s.open|
    ensures CloseTo(s, c, i).now == c
    decreases |s.open| - i
  {
    if |s.open| > i {
      NowAfter(CloseTop(s, c), c, i);
    }
  }

  /** Once the stack is empty, the charges sum to the lifetimes of the bottom frames. */
  lemma {:induction false} ChargesSumToLifetime(es: seq<Event>)
    requires Ordered(0, es) && Run(Calls([], [], [], 0), es).open == []
    ensures var s := Run(Calls([], [], [], 0), es); Charges(false, s.popped) == Lives(s.roots)
  {
    RunKeeps(Calls([], [], [], 0), es);
  }
}
