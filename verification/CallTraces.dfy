/** What the events of a program say about its calls: the calls of a well-nested program, written
    out as events, are read back as the same call tree, and a return closes the right calls. */
module CallTraces {
  import opened Words
  import opened CallTrees

  /** A call as the program makes it, with the address it returns to. */
  datatype Call = Call(addr: Word, name: string, raddr: Word, push: Word, end: Word, callees: seq<Call>)

  /** The events it leaves in the file. */
  function Trace(c: Call): (es: seq<Event>)
    decreases c, 0
  {
    [Enter(c.push, c.raddr, c.addr, c.name)] + (TraceAll(c.callees) + [Leave(c.end, c.raddr)])
  }

  function TraceAll(cs: seq<Call>): seq<Event>
    decreases cs, 1
  {
    if cs == [] then [] else Trace(cs[0]) + TraceAll(cs[1..])
  }

  function TreeOf(c: Call): Tree
    decreases c, 0
  {
    Tree(c.addr, c.name, c.push, c.end, TreesOf(c.callees))
  }

  function TreesOf(cs: seq<Call>): seq<Tree>
    decreases cs, 1
  {
    if cs == [] then [] else [TreeOf(cs[0])] + TreesOf(cs[1..])
  }

  /** The calls in the order of their end. */
  function Ended(c: Call): seq<Tree>
    decreases c, 0
  {
    EndedAll(c.callees) + [TreeOf(c)]
  }

  function EndedAll(cs: seq<Call>): seq<Tree>
    decreases cs, 1
  {
    if cs == [] then [] else Ended(cs[0]) + EndedAll(cs[1..])
  }

  /** s after calls made by the topmost open one, or by none. */
  function Made(s: Calls, ts: seq<Tree>, ended: seq<Tree>, now: nat): Calls
  {
    if s.open == [] then Calls([], s.roots + ts, s.popped + ended, now)
    else
      var n := |s.open| - 1;
      Calls(s.open[n := s.open[n].(callees := s.open[n].callees + ts)], s.roots, s.popped + ended, now)
  }

  lemma {:induction false} RunJoined(s: Calls, xs: seq<Event>, ys: seq<Event>)
    ensures Run(s, xs + ys) == Run(Run(s, xs), ys)
    decreases |xs|
  {
    if xs == [] {
      assert xs + ys == ys;
    } else {
      assert (xs + ys)[0] == xs[0] && (xs + ys)[1..] == xs[1..] + ys;
      RunJoined(Processed(s, xs[0]), xs[1..], ys);
    }
  }

  lemma {:induction false} RunOne(s: Calls, e: Event)
    ensures Run(s, [e]) == Processed(s, e)
  {
    assert [e][1..] == [];
  }

  /** When the last of the calls ended. */
  function LastEnd(cs: seq<Call>, now: nat): nat { if cs == [] then now else cs[|cs| - 1].end }

  /** The events of a call are read as that call and nothing else. */
  lemma {:induction false} TraceRead(s: Calls, c: Call)
    ensures Run(s, Trace(c)) == Made(s, [TreeOf(c)], Ended(c), c.end)
    decreases c, 0
  {
    var s1 := Processed(s, Enter(c.push, c.raddr, c.addr, c.name));
    var s2 := Run(s1, TraceAll(c.callees));
    RunJoined(s, [Enter(c.push, c.raddr, c.addr, c.name)], TraceAll(c.callees) + [Leave(c.end, c.raddr)]);
    RunOne(s, Enter(c.push, c.raddr, c.addr, c.name));
    RunJoined(s1, TraceAll(c.callees), [Leave(c.end, c.raddr)]);
    RunOne(s2, Leave(c.end, c.raddr));
    TracesRead(s1, c.callees);
    LeaveTop(s, s1, s2, c);
  }

  lemma {:induction false} LeaveTop(s: Calls, s1: Calls, s2: Calls, c: Call)
    requires s1 == Processed(s, Enter(c.push, c.raddr, c.addr, c.name))
    requires s2 == Made(s1, TreesOf(c.callees), EndedAll(c.callees), LastEnd(c.callees, s1.now))
    ensures Processed(s2, Leave(c.end, c.raddr)) == Made(s, [TreeOf(c)], Ended(c), c.end)
  {
    var n := |s.open|;
    var node := s2.open[n];
    assert node == Node(c.addr, c.raddr, c.name, c.push, [] + TreesOf(c.callees)) && s2.open[..n] == s.open;
    assert Closed(node, c.end) == TreeOf(c);
    assert Returning(s2.open, c.raddr, n + 1) == n + 1;
    assert CloseTo(s2, c.end, n) == CloseTop(s2, c.end).(now := c.end);
    assert s2.popped + [TreeOf(c)] == s.popped + Ended(c);
  }

  lemma {:induction false} TracesRead(s: Calls, cs: seq<Call>)
    ensures Run(s, TraceAll(cs)) == Made(s, TreesOf(cs), EndedAll(cs), LastEnd(cs, s.now))
    decreases cs, 1
  {
    if cs == [] {
      MadeNone(s);
    } else {
      var c, rest := cs[0], cs[1..];
      TraceRead(s, c);
      var t := Run(s, Trace(c));
      RunJoined(s, Trace(c), TraceAll(rest));
      TracesRead(t, rest);
      MadeTwice(s, [TreeOf(c)], Ended(c), c.end, TreesOf(rest), EndedAll(rest), LastEnd(rest, c.end));
    }
  }

  lemma {:induction false} MadeNone(s: Calls)
    ensures Made(s, [], [], s.now) == s
  {
    if s.open != [] {
      var n := |s.open| - 1;
      assert s.open[n].callees + [] == s.open[n].callees;
    }
  }

  lemma {:induction false} MadeTwice(s: Calls, ts: seq<Tree>, es: seq<Tree>, now: nat, us: seq<Tree>, fs: seq<Tree>, then': nat)
    ensures Made(Made(s, ts, es, now), us, fs, then') == Made(s, ts + us, es + fs, then')
  {
    assert (s.popped + es) + fs == s.popped + (es + fs) && (s.roots + ts) + us == s.roots + (ts + us);
    if s.open != [] {
      var n := |s.open| - 1;
      assert (s.open[n].callees + ts) + us == s.open[n].callees + (ts + us);
    }
  }

  /** The trees of a whole program are those of its calls, and each call is finished once, in the
      order of their ends. */
  lemma {:induction false} ProgramRead(cs: seq<Call>)
    ensures var s := Run(Calls([], [], [], 0), TraceAll(cs));
            s.open == [] && s.roots == TreesOf(cs) && s.popped == EndedAll(cs)
  {
    var s0 := Calls([], [], [], 0);
    TracesRead(s0, cs);
    assert s0.roots + TreesOf(cs) == TreesOf(cs) && s0.popped + EndedAll(cs) == EndedAll(cs);
  }

  // ------------------------------------------------------------- any return

  /** t is open call n, ended at time c after having made the calls in more. */
  predicate Ends(t: Tree, n: Node, c: nat, more: seq<Tree>)
  {
    t.addr == n.addr && t.name == n.name && t.push == n.push && t.end == c && t.callees == n.callees + more
  }

  /** Calls j and on have ended at c, topmost first, each as the last callee of the one below. */
  ghost predicate EndedFrom(s: Calls, u: Calls, j: nat, c: nat)
    requires j < |s.open|
  {
    var n, m := |s.open|, |s.popped|;
    && u.now == c && |u.open| == j && |u.popped| == m + n - j && u.popped[..m] == s.popped
    && (forall k: nat :: j <= k < n ==>
          Ends(u.popped[m + n - 1 - k], s.open[k], c, if k == n - 1 then [] else [u.popped[m + n - 2 - k]]))
    && (forall k: nat :: k + 1 < j ==> u.open[k] == s.open[k])
    && (if j == 0 then u.roots == s.roots + [u.popped[m + n - 1]]
        else u.roots == s.roots && u.open[j - 1] == s.open[j - 1].(callees := s.open[j - 1].callees + [u.popped[m + n - 1 - j]]))
  }

  lemma {:induction false} CloseToEnds(s: Calls, c: nat, j: nat)
    requires j < |s.open|
    ensures EndedFrom(s, CloseTo(s, c, j), j, c)
    decreases |s.open| - j
  {
    var n := |s.open| - 1;
    var p := CloseTop(s, c);
    if j == n {
      assert CloseTo(s, c, j) == p.(now := c);
    } else {
      CloseToEnds(p, c, j);
      EndsMore(s, p, CloseTo(p, c, j), j, c);
    }
  }

  lemma {:induction false} EndsMore(s: Calls, p: Calls, u: Calls, j: nat, c: nat)
    requires j < |s.open| - 1 && p == CloseTop(s, c) && EndedFrom(p, u, j, c)
    ensures EndedFrom(s, u, j, c)
  {
    var n, m := |s.open|, |s.popped|;
    PrefixKept(s.popped, p.popped, u.popped);
    forall k: nat | j <= k < n
      ensures Ends(u.popped[m + n - 1 - k], s.open[k], c, if k == n - 1 then [] else [u.popped[m + n - 2 - k]])
    {
      EndsAt(s, p, u, j, c, k, m + n - 1 - k);
    }
  }

  lemma {:induction false} EndsAt(s: Calls, p: Calls, u: Calls, j: nat, c: nat, k: nat, x: nat)
    requires j < |s.open| - 1 && p == CloseTop(s, c) && EndedFrom(p, u, j, c)
    requires j <= k < |s.open| && x == |s.popped| + |s.open| - 1 - k && u.popped[|s.popped|] == p.popped[|s.popped|]
    ensures Ends(u.popped[x], s.open[k], c, if k == |s.open| - 1 then [] else [u.popped[x - 1]])
  {
    if k < |s.open| - 1 {
      var up := if k == |s.open| - 2 then [] else [u.popped[x - 1]];
      assert Ends(u.popped[x], p.open[k], c, up);
      EndsBelow(s, p, c, k, u.popped[x], u.popped[|s.popped|], up);
    } else {
      EndsTop(s, c, u.popped[x]);
    }
  }

  lemma {:induction false} PrefixKept(a: seq<Tree>, b: seq<Tree>, c: seq<Tree>)
    requires |b| == |a| + 1 <= |c| && b[..|a|] == a && c[..|b|] == b
    ensures c[..|a|] == a && c[|a|] == b[|a|]
  {
    assert c[..|a|] == c[..|b|][..|a|] && c[|a|] == c[..|b|][|a|];
  }

  lemma {:induction false} EndsTop(s: Calls, c: nat, t: Tree)
    requires s.open != [] && t == CloseTop(s, c).popped[|s.popped|]
    ensures Ends(t, s.open[|s.open| - 1], c, [])
  {
    var n := s.open[|s.open| - 1];
    assert n.callees + [] == n.callees;
  }

  /** t is open call k, and top the end of the topmost one. */
  lemma {:induction false} EndsBelow(s: Calls, p: Calls, c: nat, k: nat, t: Tree, top: Tree, up: seq<Tree>)
    requires k < |s.open| - 1 && p == CloseTop(s, c) && top == p.popped[|s.popped|] && Ends(t, p.open[k], c, up)
    requires k == |s.open| - 2 ==> up == []
    ensures Ends(t, s.open[k], c, if k == |s.open| - 2 then [top] else up)
  {
    if k == |s.open| - 2 {
      assert p.open[k].callees + [] == s.open[k].callees + [top];
    }
  }

  /** A return ends the topmost call that returns there and all above it; one that no open call
      matches changes nothing but the time. */
  lemma {:induction false} LeaveMeans(s: Calls, c: Word, r: Word, u: Calls)
    requires u == Processed(s, Leave(c, r))
    ensures (forall k: nat :: k < |s.open| ==> s.open[k].raddr != r) ==> u == s.(now := c)
    ensures forall j: nat :: j < |s.open| && s.open[j].raddr == r && (forall k: nat :: j < k < |s.open| ==> s.open[k].raddr != r) ==>
              EndedFrom(s, u, j, c)
  {
    forall j: nat | j < |s.open| && s.open[j].raddr == r && (forall k: nat :: j < k < |s.open| ==> s.open[k].raddr != r)
      ensures EndedFrom(s, u, j, c)
    {
      assert Returning(s.open, r, |s.open|) == j + 1;
      CloseToEnds(s, c, j);
    }
  }
}
