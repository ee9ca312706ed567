/** Conditional-move simplification over the reference graph (cuc/insn.c): a cmov whose
    two sides lead to the same primary input becomes a plain move. */
module CmovElimination {
  import opened Words
  import opened CucInsn
  import opened RefGraph

  predicate IsMove(i: Insn) { i.index.Add? && Volatile !in i.typ && i.op2 == Const(0) }

  predicate IsCmov(i: Insn) { i.index.Cmov? && Volatile !in i.typ }

  /** Moves and conditional moves have sources. */
  ghost predicate Sourced(bb: Blocks<Insn>)
  {
    forall r: nat :: ValidRef(bb, r) ==> HasSources(At(bb, r))
  }

  predicate HasSources(i: Insn)
  {
    (IsMove(i) ==> !i.op1.NoOp?) && (IsCmov(i) ==> !i.op1.NoOp? && !i.op2.NoOp?)
  }

  /** The value of an operand, on its own. */
  ghost function Source(bb: Blocks<Insn>, rank: nat -> nat, e: Inputs, o: Operand): Word
    requires Closed(bb) && Acyclic(bb, rank) && RefOk(bb, o)
  {
    match o
    case Const(c) => c
    case Ref(q) => Value(bb, rank, e, q)
    case _ => e.input(o)
  }

  /** The replacement for a conditional move with the single primary input o. */
  function AsMove(i: Insn, o: Operand): Insn
  {
    i.(index := Add, op1 := o, op2 := Const(0), op3 := NoOp)
  }

  // ------------------------------------------------------ what a search can see

  predicate In(zone: set<nat>, o: Operand) { o.Ref? ==> o.ref in zone }

  predicate Inside(zone: set<nat>, i: Insn) { In(zone, i.op0) && In(zone, i.op1) && In(zone, i.op2) && In(zone, i.op3) }

  /** No reference leads out of the zone. */
  ghost predicate Enclosed(bb: Blocks<Insn>, zone: set<nat>)
  {
    forall r :: r in zone ==> ValidRef(bb, r) && Inside(zone, At(bb, r))
  }

  lemma {:induction false} AsMoveEnclosed(bb: Blocks<Insn>, zone: set<nat>, r: nat, o: Operand)
    requires Enclosed(bb, zone) && r in zone && In(zone, o)
    ensures Enclosed(SetAt(bb, r, AsMove(At(bb, r), o)), zone)
  {
    forall x | x in zone
      ensures ValidRef(SetAt(bb, r, AsMove(At(bb, r), o)), x) && Inside(zone, At(SetAt(bb, r, AsMove(At(bb, r), o)), x))
    {
      assert Inside(zone, At(bb, x)) && Inside(zone, At(bb, r));
      SetAtIs(bb, r, AsMove(At(bb, r), o), x);
    }
  }

  lemma {:induction false} AsMoveRanked(bb: Blocks<Insn>, rank: nat -> nat, r: nat, o: Operand)
    requires Closed(bb) && Acyclic(bb, rank) && Sourced(bb) && ValidRef(bb, r)
    requires RefOk(bb, o) && Below(rank, o, r) && !o.NoOp?
    ensures var s := SetAt(bb, r, AsMove(At(bb, r), o)); Closed(s) && Acyclic(s, rank) && Sourced(s)
  {
    var i := AsMove(At(bb, r), o);
    var s := SetAt(bb, r, i);
    assert InsnRefs(bb, At(bb, r)) && Falls(bb, rank, r);
    forall x: nat | ValidRef(s, x)
      ensures InsnRefs(s, At(s, x)) && Falls(s, rank, x) && HasSources(At(s, x))
    {
      SetAtIs(bb, r, i, x);
      assert InsnRefs(bb, At(bb, x)) && Falls(bb, rank, x) && HasSources(At(bb, x));
    }
  }

  /** Replacing a conditional move by a move from an operand of the same value changes
      the value of no instruction. */
  lemma {:induction false} ReplaceKeepsValue(bb: Blocks<Insn>, rank: nat -> nat, e: Inputs, r: nat, o: Operand, x: nat)
    requires Closed(bb) && Acyclic(bb, rank) && Sourced(bb) && ValidRef(bb, r) && ValidRef(bb, x)
    requires RefOk(bb, o) && Below(rank, o, r) && !o.NoOp? && Source(bb, rank, e, o) == Value(bb, rank, e, r)
    requires var s := SetAt(bb, r, AsMove(At(bb, r), o)); Closed(s) && Acyclic(s, rank)
    ensures var s := SetAt(bb, r, AsMove(At(bb, r), o));
            ValidRef(s, x) && Value(s, rank, e, x) == Value(bb, rank, e, x)
    decreases rank(x), 1
  {
    var s := SetAt(bb, r, AsMove(At(bb, r), o));
    SetAtIs(bb, r, AsMove(At(bb, r), o), x);
    assert InsnRefs(bb, At(bb, x)) && Falls(bb, rank, x);
    var i := At(bb, x);
    if x == r {
      OperandKept(bb, rank, e, r, o, x, o);
    } else {
      OperandKept(bb, rank, e, r, o, x, i.op0);
      OperandKept(bb, rank, e, r, o, x, i.op1);
      OperandKept(bb, rank, e, r, o, x, i.op2);
      OperandKept(bb, rank, e, r, o, x, i.op3);
    }
  }

  lemma {:induction false} OperandKept(bb: Blocks<Insn>, rank: nat -> nat, e: Inputs, r: nat, o: Operand, x: nat, p: Operand)
    requires Closed(bb) && Acyclic(bb, rank) && Sourced(bb) && ValidRef(bb, r) && ValidRef(bb, x)
    requires RefOk(bb, o) && Below(rank, o, r) && !o.NoOp? && Source(bb, rank, e, o) == Value(bb, rank, e, r)
    requires var s := SetAt(bb, r, AsMove(At(bb, r), o)); Closed(s) && Acyclic(s, rank)
    requires RefOk(bb, p) && Below(rank, p, x)
    ensures var s := SetAt(bb, r, AsMove(At(bb, r), o));
            RefOk(s, p) && OperandValue(s, rank, e, x, p) == OperandValue(bb, rank, e, x, p)
    decreases rank(x), 0
  {
    if p.Ref? {
      ReplaceKeepsValue(bb, rank, e, r, o, p.ref);
    }
  }

  /** What the search knows when it has not failed: a single primary input, from which
      everything seen so far takes its value. */
  ghost predicate Agrees(bb: Blocks<Insn>, rank: nat -> nat, o: Operand, r: nat)
    requires Closed(bb) && Acyclic(bb, rank) && ValidRef(bb, r)
  {
    && !o.NoOp? && RefOk(bb, o) && (o.Ref? ==> rank(o.ref) <= rank(r))
    && (IsMove(At(bb, r)) || IsCmov(At(bb, r)) ==> Below(rank, o, r))
    && forall e :: Source(bb, rank, e, o) == Value(bb, rank, e, r)
  }

  /** o, lying below r, gives the value of operand p of r. */
  ghost predicate SameSource(bb: Blocks<Insn>, rank: nat -> nat, o: Operand, p: Operand, r: nat)
    requires Closed(bb) && Acyclic(bb, rank) && RefOk(bb, p)
  {
    && !o.NoOp? && RefOk(bb, o) && Below(rank, o, r)
    && forall e :: Source(bb, rank, e, o) == Source(bb, rank, e, p)
  }

  lemma {:induction false} MoveAgrees(bb: Blocks<Insn>, rank: nat -> nat, o: Operand, r: nat)
    requires Closed(bb) && Acyclic(bb, rank) && ValidRef(bb, r) && IsMove(At(bb, r)) && InsnRefs(bb, At(bb, r))
    requires SameSource(bb, rank, o, At(bb, r).op1, r)
    ensures Agrees(bb, rank, o, r)
  {
    assert Falls(bb, rank, r);
    forall e
      ensures Source(bb, rank, e, o) == Value(bb, rank, e, r)
    {
      assert Value(bb, rank, e, r) == (Source(bb, rank, e, At(bb, r).op1) + 0) % WORD;
    }
  }

  lemma {:induction false} CmovAgrees(bb: Blocks<Insn>, rank: nat -> nat, o: Operand, r: nat)
    requires Closed(bb) && Acyclic(bb, rank) && ValidRef(bb, r) && IsCmov(At(bb, r)) && InsnRefs(bb, At(bb, r))
    requires SameSource(bb, rank, o, At(bb, r).op1, r) && SameSource(bb, rank, o, At(bb, r).op2, r)
    ensures Agrees(bb, rank, o, r)
  {
    assert Falls(bb, rank, r);
    forall e
      ensures Source(bb, rank, e, o) == Value(bb, rank, e, r)
    {
      assert Value(bb, rank, e, r) in {Source(bb, rank, e, At(bb, r).op1), Source(bb, rank, e, At(bb, r).op2)};
    }
  }

  /** c has the shape of a and every instruction its value, for every input. */
  ghost predicate SameValues(a: Blocks<Insn>, c: Blocks<Insn>, rank: nat -> nat)
  {
    && |c| == |a| && (forall b :: 0 <= b < |a| ==> |c[b]| == |a[b]|)
    && Closed(a) && Acyclic(a, rank) && Closed(c) && Acyclic(c, rank) && Sourced(c)
    && forall x: nat :: ValidRef(a, x) ==> SameValue(a, c, rank, x)
  }

  ghost predicate SameValue(a: Blocks<Insn>, c: Blocks<Insn>, rank: nat -> nat, x: nat)
    requires Closed(a) && Acyclic(a, rank) && Closed(c) && Acyclic(c, rank) && ValidRef(a, x)
  {
    ValidRef(c, x) && forall e :: Value(c, rank, e, x) == Value(a, rank, e, x)
  }

  lemma {:induction false} SameTwice(a: Blocks<Insn>, b: Blocks<Insn>, c: Blocks<Insn>, rank: nat -> nat)
    requires SameValues(a, b, rank) && SameValues(b, c, rank)
    ensures SameValues(a, c, rank)
  {
    forall x: nat | ValidRef(a, x)
      ensures SameValue(a, c, rank, x)
    {
      assert SameValue(a, b, rank, x) && SameValue(b, c, rank, x);
    }
  }

  lemma {:induction false} ReplaceAll(bb: Blocks<Insn>, rank: nat -> nat, r: nat, o: Operand)
    requires Closed(bb) && Acyclic(bb, rank) && Sourced(bb) && ValidRef(bb, r) && Agrees(bb, rank, o, r) && Below(rank, o, r)
    requires var s := SetAt(bb, r, AsMove(At(bb, r), o)); Closed(s) && Acyclic(s, rank) && Sourced(s)
    ensures SameValues(bb, SetAt(bb, r, AsMove(At(bb, r), o)), rank)
  {
    var s := SetAt(bb, r, AsMove(At(bb, r), o));
    forall x: nat | ValidRef(bb, x)
      ensures SameValue(bb, s, rank, x)
    {
      SetAtIs(bb, r, AsMove(At(bb, r), o), x);
      forall e
        ensures Value(s, rank, e, x) == Value(bb, rank, e, x)
      {
        ReplaceKeepsValue(bb, rank, e, r, o, x);
      }
    }
  }

  // ------------------------------------------------- what a search looks for

  /** The sources of a move or conditional move; the search looks at no other operands. */
  function Sources(i: Insn): set<Operand>
  {
    if IsMove(i) then {i.op1} else if IsCmov(i) then {i.op1, i.op2} else {}
  }

  /** The primary inputs that r leads to through moves and conditional moves, around the
      instructions marked. */
  ghost function Primaries(bb: Blocks<Insn>, marks: set<nat>, r: nat): set<Operand>
    requires Closed(bb) && ValidRef(bb, r)
    decreases Refs(bb) - marks, 1
  {
    if r in marks then {}
    else
      RefInRefs(bb, r);
      var i := At(bb, r);
      assert InsnRefs(bb, i);
      if IsMove(i) then OperandPrimaries(bb, marks + {r}, i.op1)
      else if IsCmov(i) then OperandPrimaries(bb, marks + {r}, i.op1) + OperandPrimaries(bb, marks + {r}, i.op2)
      else {Ref(r)}
  }

  ghost function OperandPrimaries(bb: Blocks<Insn>, marks: set<nat>, o: Operand): set<Operand>
    requires Closed(bb) && RefOk(bb, o)
    decreases Refs(bb) - marks, 2
  {
    if o.Ref? then Primaries(bb, marks, o.ref) else {o}
  }

  /** A walk from source to source around the marks. */
  ghost predicate SourceWalk(bb: Blocks<Insn>, marks: set<nat>, p: seq<nat>)
  {
    && p != [] && (forall k :: 0 <= k < |p| ==> ValidRef(bb, p[k]) && p[k] !in marks)
    && (forall k :: 0 <= k < |p| - 1 ==> Ref(p[k + 1]) in Sources(At(bb, p[k])))
  }

  /** o is a primary input found at x: a source that is no reference, or x itself. */
  predicate IsPrimary(bb: Blocks<Insn>, x: nat, o: Operand)
    requires ValidRef(bb, x)
  {
    if Sources(At(bb, x)) == {} then o == Ref(x) else o in Sources(At(bb, x)) && !o.Ref?
  }

  ghost predicate WalkTo(bb: Blocks<Insn>, marks: set<nat>, p: seq<nat>, r: nat, o: Operand)
  {
    SourceWalk(bb, marks, p) && p[0] == r && IsPrimary(bb, p[|p| - 1], o)
  }

  /** Primaries are exactly what some walk ends at. */
  lemma {:induction false} PrimariesExact(bb: Blocks<Insn>, marks: set<nat>, r: nat, o: Operand)
    requires Closed(bb) && ValidRef(bb, r)
    ensures o in Primaries(bb, marks, r) <==> exists p :: WalkTo(bb, marks, p, r, o)
  {
    if o in Primaries(bb, marks, r) {
      var p := PrimaryWalk(bb, marks, r, o);
    }
    if p :| WalkTo(bb, marks, p, r, o) {
      WalkPrimary(bb, marks, p, r, o);
    }
  }

  lemma {:induction false} PrimaryWalk(bb: Blocks<Insn>, marks: set<nat>, r: nat, o: Operand) returns (p: seq<nat>)
    requires Closed(bb) && ValidRef(bb, r) && o in Primaries(bb, marks, r)
    ensures WalkTo(bb, marks, p, r, o)
    decreases Refs(bb) - marks
  {
    RefInRefs(bb, r);
    var i := At(bb, r);
    assert InsnRefs(bb, i);
    var x := if IsCmov(i) && o !in OperandPrimaries(bb, marks + {r}, i.op1) then i.op2 else i.op1;
    if Sources(i) == {} || !x.Ref? {
      p := [r];
    } else {
      var q := PrimaryWalk(bb, marks + {r}, x.ref, o);
      p := [r] + q;
    }
  }

  /** Where r was last visited. */
  lemma {:induction false} LastVisit(p: seq<nat>, r: nat) returns (k: nat)
    requires p != [] && p[0] == r
    ensures k < |p| && p[k] == r && r !in p[k + 1..]
    decreases |p|
  {
    var n := |p| - 1;
    if p[n] == r {
      k := n;
    } else {
      k := LastVisit(p[..n], r);
      assert p[k + 1..] == p[..n][k + 1..] + [p[n]];
    }
  }

  lemma {:induction false} WalkPrimary(bb: Blocks<Insn>, marks: set<nat>, p: seq<nat>, r: nat, o: Operand)
    requires Closed(bb) && ValidRef(bb, r) && WalkTo(bb, marks, p, r, o)
    ensures o in Primaries(bb, marks, r)
    decreases Refs(bb) - marks
  {
    RefInRefs(bb, r);
    assert InsnRefs(bb, At(bb, r));
    var k := LastVisit(p, r);
    var q := p[k + 1..];
    if q != [] {
      assert Ref(p[k + 1]) in Sources(At(bb, p[k]));
      RestWalks(bb, marks, p, r, k);
      WalkPrimary(bb, marks + {r}, q, q[0], o);
    }
  }

  lemma {:induction false} RestWalks(bb: Blocks<Insn>, marks: set<nat>, p: seq<nat>, r: nat, k: nat)
    requires SourceWalk(bb, marks, p) && k + 1 < |p| && r !in p[k + 1..]
    ensures SourceWalk(bb, marks + {r}, p[k + 1..]) && p[k + 1..][|p| - k - 2] == p[|p| - 1]
  {
    var q := p[k + 1..];
    forall j | 0 <= j < |q|
      ensures ValidRef(bb, q[j]) && q[j] !in marks + {r}
      ensures j < |q| - 1 ==> Ref(q[j + 1]) in Sources(At(bb, q[j]))
    {
      assert q[j] == p[k + 1 + j] && q[j] in q;
    }
  }

  /** Without cycles and marks there is always one. */
  lemma {:induction false} AcyclicHasPrimary(bb: Blocks<Insn>, rank: nat -> nat, marks: set<nat>, r: nat)
    requires Closed(bb) && Acyclic(bb, rank) && ValidRef(bb, r) && forall m :: m in marks ==> rank(r) < rank(m)
    ensures Primaries(bb, marks, r) != {}
    decreases rank(r)
  {
    var i := At(bb, r);
    assert InsnRefs(bb, i) && Falls(bb, rank, r);
    if (IsMove(i) || IsCmov(i)) && i.op1.Ref? {
      AcyclicHasPrimary(bb, rank, marks + {r}, i.op1.ref);
      assert OperandPrimaries(bb, marks + {r}, i.op1) != {};
    }
  }

  /** The single operand known, if any. */
  function Known(first: Operand): set<Operand> { if first.NoOp? then {} else {first} }

  ghost predicate Several(s: set<Operand>) { exists x, y :: x in s && y in s && x != y }

  // ------------------------------------------------- what the whole pass does

  /** The primary inputs again, by recursion on the rank. */
  ghost function Feeds(bb: Blocks<Insn>, rank: nat -> nat, x: nat): set<Operand>
    requires Closed(bb) && Acyclic(bb, rank) && ValidRef(bb, x)
    decreases rank(x), 1
  {
    var i := At(bb, x);
    assert InsnRefs(bb, i) && Falls(bb, rank, x);
    if IsMove(i) then OperandFeeds(bb, rank, x, i.op1)
    else if IsCmov(i) then OperandFeeds(bb, rank, x, i.op1) + OperandFeeds(bb, rank, x, i.op2)
    else {Ref(x)}
  }

  ghost function OperandFeeds(bb: Blocks<Insn>, rank: nat -> nat, x: nat, o: Operand): set<Operand>
    requires Closed(bb) && Acyclic(bb, rank) && RefOk(bb, o) && Below(rank, o, x)
    decreases rank(x), 0
  {
    if o.Ref? then Feeds(bb, rank, o.ref) else {o}
  }

  /** Marks that a search cannot reach do not matter. */
  lemma {:induction false} FeedsArePrimaries(bb: Blocks<Insn>, rank: nat -> nat, zone: set<nat>, marks: set<nat>, x: nat)
    requires Closed(bb) && Acyclic(bb, rank) && Enclosed(bb, zone) && x in zone && ValidRef(bb, x)
    requires forall m :: m in marks && m in zone ==> rank(x) < rank(m)
    ensures Primaries(bb, marks, x) == Feeds(bb, rank, x)
    decreases rank(x)
  {
    var i := At(bb, x);
    assert InsnRefs(bb, i) && Falls(bb, rank, x) && Inside(zone, i);
    if (IsMove(i) || IsCmov(i)) && i.op1.Ref? {
      FeedsArePrimaries(bb, rank, zone, marks + {x}, i.op1.ref);
    }
    if IsCmov(i) && i.op2.Ref? {
      FeedsArePrimaries(bb, rank, zone, marks + {x}, i.op2.ref);
    }
  }

  function Everywhere(bb: Blocks<Insn>): set<nat> { set r | r in Refs(bb) && ValidRef(bb, r) }

  lemma {:induction false} AllEnclosed(bb: Blocks<Insn>)
    requires Closed(bb)
    ensures Enclosed(bb, Everywhere(bb))
  {
    forall r | r in Everywhere(bb)
      ensures Inside(Everywhere(bb), At(bb, r))
    {
      var i := At(bb, r);
      assert InsnRefs(bb, i);
      forall o | o in {i.op0, i.op1, i.op2, i.op3} && o.Ref?
        ensures o.ref in Everywhere(bb)
      {
        RefInRefs(bb, o.ref);
      }
    }
  }

  lemma {:induction false} UnmarkedFeeds(bb: Blocks<Insn>, rank: nat -> nat, x: nat)
    requires Closed(bb) && Acyclic(bb, rank) && ValidRef(bb, x)
    ensures Primaries(bb, {}, x) == Feeds(bb, rank, x)
  {
    AllEnclosed(bb);
    RefInRefs(bb, x);
    FeedsArePrimaries(bb, rank, Everywhere(bb), {}, x);
  }

  /** A primary input that is an instruction leads nowhere else. */
  lemma {:induction false} FeedEnds(bb: Blocks<Insn>, rank: nat -> nat, x: nat, o: Operand)
    requires Closed(bb) && Acyclic(bb, rank) && ValidRef(bb, x) && o in Feeds(bb, rank, x) && o.Ref?
    ensures ValidRef(bb, o.ref) && Feeds(bb, rank, o.ref) == {o}
    decreases rank(x)
  {
    var i := At(bb, x);
    assert InsnRefs(bb, i) && Falls(bb, rank, x);
    if (IsMove(i) || IsCmov(i)) && i.op1.Ref? && o in Feeds(bb, rank, i.op1.ref) {
      FeedEnds(bb, rank, i.op1.ref, o);
    } else if IsCmov(i) && i.op2.Ref? {
      FeedEnds(bb, rank, i.op2.ref, o);
    }
  }

  /** Replacing a conditional move by a move of its only primary input changes no other's inputs. */
  lemma {:induction false} FeedsKept(bb: Blocks<Insn>, rank: nat -> nat, r: nat, o: Operand, s: Blocks<Insn>, x: nat)
    requires Closed(bb) && Acyclic(bb, rank) && ValidRef(bb, r) && IsCmov(At(bb, r)) && Feeds(bb, rank, r) == {o}
    requires s == SetAt(bb, r, AsMove(At(bb, r), o)) && Closed(s) && Acyclic(s, rank) && ValidRef(bb, x)
    ensures ValidRef(s, x) && Feeds(s, rank, x) == Feeds(bb, rank, x)
    decreases rank(x)
  {
    SetAtIs(bb, r, AsMove(At(bb, r), o), x);
    var i := At(s, x);
    assert InsnRefs(s, i) && Falls(s, rank, x) && InsnRefs(bb, At(bb, x)) && Falls(bb, rank, x);
    if x == r {
      if o.Ref? {
        FeedEnds(bb, rank, r, o);
        FeedsKept(bb, rank, r, o, s, o.ref);
      }
    } else {
      if (IsMove(i) || IsCmov(i)) && i.op1.Ref? {
        FeedsKept(bb, rank, r, o, s, i.op1.ref);
      }
      if IsCmov(i) && i.op2.Ref? {
        FeedsKept(bb, rank, r, o, s, i.op2.ref);
      }
    }
  }

  lemma {:induction false} OthersKept(bb: Blocks<Insn>, rank: nat -> nat, r: nat, o: Operand, s: Blocks<Insn>)
    requires Closed(bb) && Acyclic(bb, rank) && ValidRef(bb, r) && IsCmov(At(bb, r)) && Feeds(bb, rank, r) == {o}
    requires s == SetAt(bb, r, AsMove(At(bb, r), o)) && Closed(s) && Acyclic(s, rank)
    ensures SameFeeds(bb, s, rank) && ValidRef(s, r) && At(s, r) == AsMove(At(bb, r), o) && s != bb
    ensures forall x: nat :: ValidRef(bb, x) && x != r ==> ValidRef(s, x) && At(s, x) == At(bb, x)
  {
    SetAtIs(bb, r, AsMove(At(bb, r), o), r);
    forall x: nat | ValidRef(bb, x)
      ensures ValidRef(s, x) && Feeds(s, rank, x) == Feeds(bb, rank, x) && (x != r ==> At(s, x) == At(bb, x))
    {
      FeedsKept(bb, rank, r, o, s, x);
      SetAtIs(bb, r, AsMove(At(bb, r), o), x);
    }
  }

  /** Instruction r of c, once the pass has been there: a live conditional move of a single primary
      input is a move of it, and anything else is as it was. */
  ghost predicate Simplified(a: Blocks<Insn>, c: Blocks<Insn>, r: nat, live: bool)
    requires Closed(a) && ValidRef(a, r)
  {
    ValidRef(c, r) &&
    if live && IsCmov(At(a, r)) && !Several(Primaries(a, {}, r)) then
      exists o :: Primaries(a, {}, r) == {o} && At(c, r) == AsMove(At(a, r), o)
    else At(c, r) == At(a, r)
  }

  ghost predicate SameFeeds(a: Blocks<Insn>, c: Blocks<Insn>, rank: nat -> nat)
  {
    && Closed(a) && Acyclic(a, rank) && Closed(c) && Acyclic(c, rank)
    && forall x: nat :: ValidRef(a, x) ==> ValidRef(c, x) && Feeds(c, rank, x) == Feeds(a, rank, x)
  }

  /** The pass has been at the instructions below limit. */
  ghost predicate SimplifiedTo(a: Blocks<Insn>, c: Blocks<Insn>, dead: seq<bool>, limit: nat)
    requires Closed(a)
  {
    forall r: nat :: ValidRef(a, r) ==>
      Simplified(a, c, r, r < limit && RefBB(r) < |dead| && !dead[RefBB(r)])
  }

  /** One more instruction, r, of a live block; b is the graph before. */
  lemma {:induction false} SimplifiedNext(a: Blocks<Insn>, b: Blocks<Insn>, c: Blocks<Insn>, rank: nat -> nat, dead: seq<bool>, r: nat)
    requires SameFeeds(a, b, rank) && SimplifiedTo(a, b, dead, r) && ValidRef(a, r)
    requires RefBB(r) < |dead| && !dead[RefBB(r)]
    requires ValidRef(b, r) && Simplified(b, c, r, true)
    requires forall x: nat :: ValidRef(a, x) && x != r ==> ValidRef(b, x) && ValidRef(c, x) && At(c, x) == At(b, x)
    ensures SimplifiedTo(a, c, dead, r + 1)
  {
    UnmarkedFeeds(a, rank, r);
    UnmarkedFeeds(b, rank, r);
    assert Simplified(a, b, r, false);
    forall x: nat | ValidRef(a, x) && x != r
      ensures Simplified(a, c, x, x < r + 1 && RefBB(x) < |dead| && !dead[RefBB(x)])
    {
      assert Simplified(a, b, x, x < r && RefBB(x) < |dead| && !dead[RefBB(x)]);
    }
  }

  /** Nothing happens to the instructions of a dead block, or where there are none. */
  lemma {:induction false} SimplifiedSkip(a: Blocks<Insn>, c: Blocks<Insn>, dead: seq<bool>, m: nat, n: nat)
    requires Closed(a) && SimplifiedTo(a, c, dead, m) && m <= n
    requires forall r: nat :: m <= r < n && ValidRef(a, r) ==> RefBB(r) >= |dead| || dead[RefBB(r)]
    ensures SimplifiedTo(a, c, dead, n)
  {
    forall r: nat | ValidRef(a, r)
      ensures Simplified(a, c, r, r < n && RefBB(r) < |dead| && !dead[RefBB(r)])
    {
      assert Simplified(a, c, r, r < m && RefBB(r) < |dead| && !dead[RefBB(r)]);
    }
  }

  // ------------------------------------------------------------- two examples

  /** A conditional move fed only by itself. */
  const SELF_FED: Blocks<Insn> := [[Insn(Cmov, {}, Dest(3), Ref(0), Ref(0), Register(FLAG_REG))]]

  /** It leads to no primary input, so the search finds none. */
  lemma {:induction false} SelfFedFindsNone()
    ensures Closed(SELF_FED) && Sourced(SELF_FED) && IsCmov(SELF_FED[0][0]) && Primaries(SELF_FED, {}, 0) == {}
  {
    forall r: nat | ValidRef(SELF_FED, r)
      ensures r == 0 && InsnRefs(SELF_FED, At(SELF_FED, r)) && HasSources(At(SELF_FED, r))
    {
    }
    assert Primaries(SELF_FED, {} + {0}, 0) == {};
    assert OperandPrimaries(SELF_FED, {} + {0}, Ref(0)) == {} && At(SELF_FED, 0) == SELF_FED[0][0];
  }

  const DEAD_REF: nat := MAX_INSNS

  /** A conditional move in a live block, and an instruction of a dead one it refers to. */
  const STALE: Blocks<Insn> :=
    [[Insn(Cmov, {}, Dest(3), Ref(DEAD_REF), Register(5), Register(FLAG_REG))],
     [Insn(Xor, {}, Dest(4), Register(7), Register(8), NoOp)]]

  function StaleRank(r: nat): nat { if r == 0 then 1 else 0 }

  lemma {:induction false} AtPlace(bb: Blocks<Insn>, b: nat, i: nat, r: nat)
    requires b < |bb| && i < |bb[b]| && i < MAX_INSNS && r == MakeRef(b, i)
    ensures ValidRef(bb, r) && At(bb, r) == bb[b][i]
  {
    RefParts(b, i);
  }

  lemma {:induction false} StaleRefs(bb: Blocks<Insn>, r: nat)
    requires |bb| == 2 && |bb[0]| == 1 && |bb[1]| == 1
    ensures ValidRef(bb, r) <==> r == 0 || r == DEAD_REF
    ensures ValidRef(bb, 0) && At(bb, 0) == bb[0][0] && ValidRef(bb, DEAD_REF) && At(bb, DEAD_REF) == bb[1][0]
  {
    AtPlace(bb, 0, 0, 0);
    AtPlace(bb, 1, 0, DEAD_REF);
    assert r == RefBB(r) * MAX_INSNS + RefI(r);
  }

  lemma {:induction false} StaleGraph(bb: Blocks<Insn>)
    requires bb == STALE || bb == STALE[0 := [AsMove(STALE[0][0], Register(5))]]
    ensures Closed(bb) && Acyclic(bb, StaleRank) && Sourced(bb)
  {
    forall r: nat | ValidRef(bb, r)
      ensures InsnRefs(bb, At(bb, r)) && Falls(bb, StaleRank, r) && HasSources(At(bb, r))
    {
      StaleRefs(bb, r);
    }
  }

  /** With a mark left on the dead instruction the search sees one primary input only; the
      rewriting it allows changes the value of the conditional move. */
  lemma {:induction false} StaleMarkHarms(e: Inputs)
    requires e.input(Register(FLAG_REG)) == 1 && e.input(Register(5)) == 1
    requires e.other(DEAD_REF, e.input(Dest(4)), e.input(Register(7)), e.input(Register(8)), e.input(NoOp)) == 0
    ensures Closed(STALE) && Acyclic(STALE, StaleRank) && Sourced(STALE) && ValidRef(STALE, 0)
    ensures Primaries(STALE, {DEAD_REF}, 0) == {Register(5)}
    ensures var s := SetAt(STALE, 0, AsMove(At(STALE, 0), Register(5)));
            Closed(s) && Acyclic(s, StaleRank) && Sourced(s) && ValidRef(s, 0) &&
            Value(s, StaleRank, e, 0) != Value(STALE, StaleRank, e, 0)
  {
    StaleRefs(STALE, 0);
    StaleGraph(STALE);
    var m := AsMove(STALE[0][0], Register(5));
    var s := SetAt(STALE, 0, m);
    assert STALE[0][0 := m] == [m];
    assert s == STALE[0 := [m]];
    StaleGraph(s);
    StaleRefs(s, 0);
    assert Primaries(STALE, {DEAD_REF, 0}, DEAD_REF) == {};
    assert OperandPrimaries(STALE, {DEAD_REF} + {0}, Ref(DEAD_REF)) == {};
    PlainValue(STALE, StaleRank, e, DEAD_REF);
  }

  lemma {:induction false} PlainValue(bb: Blocks<Insn>, rank: nat -> nat, e: Inputs, r: nat)
    requires Closed(bb) && Acyclic(bb, rank) && ValidRef(bb, r)
    requires var i := At(bb, r);
             && !i.index.Add? && !i.index.Cmov? && !i.op0.Ref? && !i.op1.Ref? && !i.op2.Ref? && !i.op3.Ref?
             && !i.op0.Const? && !i.op1.Const? && !i.op2.Const? && !i.op3.Const?
    ensures var i := At(bb, r);
            Value(bb, rank, e, r) == e.other(r, e.input(i.op0), e.input(i.op1), e.input(i.op2), e.input(i.op3))
  {
    var i := At(bb, r);
    assert InsnRefs(bb, i) && Falls(bb, rank, r);
    assert OperandValue(bb, rank, e, r, i.op0) == e.input(i.op0);
    assert OperandValue(bb, rank, e, r, i.op1) == e.input(i.op1);
    assert OperandValue(bb, rank, e, r, i.op2) == e.input(i.op2);
    assert OperandValue(bb, rank, e, r, i.op3) == e.input(i.op3);
  }

  class Cmovs {
    var bb: Blocks<Insn>
    var dead: seq<bool>
    /** The instructions whose visit mark is set. */
    var tmp: set<nat>
    /** The first primary input; NoOp for none. */
    var first: Operand

    predicate Valid()
      reads this
    {
      |dead| == |bb| && Fits(bb)
    }

    /** Takes in one primary input; the result tells whether it differs from the first. */
    method Meet(o: Operand) returns (differs: bool)
      modifies this`first
      ensures differs == (!old(first).NoOp? && old(first) != o)
      ensures first == if old(first).NoOp? then o else old(first)
    {
      if first.NoOp? {
        first := o;
        differs := false;
      } else {
        differs := first != o;
      }
    }

    /** The search is on a graph without cycles and comes from above r; of the marks in
        the zone it moves in, it has set them all. */
    ghost predicate Descending(rank: nat -> nat, zone: set<nat>, r: nat)
      reads this
    {
      && Closed(bb) && Acyclic(bb, rank) && Sourced(bb) && ValidRef(bb, r) && Enclosed(bb, zone) && r in zone
      && (forall m :: m in tmp && m in zone ==> rank(r) < rank(m)) && RefOk(bb, first) && In(zone, first)
    }

    /** The same once the visit mark of r is set. */
    ghost predicate Reaching(rank: nat -> nat, zone: set<nat>, r: nat)
      reads this
    {
      && Closed(bb) && Acyclic(bb, rank) && Sourced(bb) && ValidRef(bb, r) && Enclosed(bb, zone) && r in zone
      && (forall m :: m in tmp && m in zone ==> rank(r) <= rank(m)) && RefOk(bb, first) && In(zone, first)
    }

    /** The same for a source operand o of r. */
    ghost predicate Entering(rank: nat -> nat, zone: set<nat>, r: nat, o: Operand)
      reads this
    {
      Reaching(rank, zone, r) && In(zone, o) && RefOk(bb, o) && Below(rank, o, r) && !o.NoOp?
    }

    /** The search has met all of the primary inputs, or two different ones. */
    ghost predicate Searched(before: Operand, inputs: set<Operand>, needed: bool)
      reads this
    {
      if needed then Several(Known(before) + inputs) else Known(first) == Known(before) + inputs
    }

    /** `cmov_needed`: a search through moves and conditional moves.  It ends on every
        graph and leaves all marks as they were. */
    method CmovNeeded(r: nat, ghost rank: nat -> nat, ghost zone: set<nat>) returns (needed: bool)
      requires Closed(bb) && ValidRef(bb, r) && tmp <= Refs(bb)
      modifies this`tmp, this`first
      ensures tmp == old(tmp)
      ensures r in old(tmp) ==> !needed && first == old(first)
      ensures Sourced(bb) ==> Searched(old(first), Primaries(bb, tmp, r), needed)
      ensures old(Descending(rank, zone, r)) && !needed ==>
                Agrees(bb, rank, first, r) && In(zone, first) && (!old(first).NoOp? ==> first == old(first))
      decreases Refs(bb) - tmp, 0
    {
      if r in tmp {
        return false;
      }
      RefInRefs(bb, r);
      ghost var marks := tmp;
      tmp := tmp + {r};
      needed := SourcesNeeded(r, marks, rank, zone);
      tmp := tmp - {r};
    }

    /** The sources of r, whose visit mark has been set beside the others. */
    method SourcesNeeded(r: nat, ghost marks: set<nat>, ghost rank: nat -> nat, ghost zone: set<nat>) returns (needed: bool)
      requires Closed(bb) && ValidRef(bb, r) && tmp == marks + {r} <= Refs(bb) && r !in marks
      modifies this`tmp, this`first
      ensures tmp == old(tmp)
      ensures Sourced(bb) ==> Searched(old(first), Primaries(bb, marks, r), needed)
      ensures old(Reaching(rank, zone, r)) && !needed ==>
                Agrees(bb, rank, first, r) && In(zone, first) && (!old(first).NoOp? ==> first == old(first))
      decreases Refs(bb) - tmp, 2
    {
      ghost var ready := Reaching(rank, zone, r);
      var i := At(bb, r);
      assert InsnRefs(bb, i);
      if ready {
        assert Falls(bb, rank, r) && HasSources(i) && Inside(zone, i);
      }
      if IsMove(i) {
        needed := OperandNeeded(r, i.op1, rank, zone);
        if ready && !needed {
          MoveAgrees(bb, rank, first, r);
        }
      } else if !IsCmov(i) {
        needed := Meet(Ref(r));
      } else {
        needed := OperandNeeded(r, i.op1, rank, zone);
        if !needed {
          needed := OperandNeeded(r, i.op2, rank, zone);
          if ready && !needed {
            CmovAgrees(bb, rank, first, r);
          }
        }
      }
    }

    /** One source operand of a move or conditional move r. */
    method OperandNeeded(ghost r: nat, o: Operand, ghost rank: nat -> nat, ghost zone: set<nat>) returns (needed: bool)
      requires Closed(bb) && RefOk(bb, o) && tmp <= Refs(bb)
      modifies this`tmp, this`first
      ensures tmp == old(tmp)
      ensures Sourced(bb) && !o.NoOp? ==> Searched(old(first), OperandPrimaries(bb, tmp, o), needed)
      ensures old(Entering(rank, zone, r, o)) && !needed ==>
                SameSource(bb, rank, first, o, r) && In(zone, first) && (!old(first).NoOp? ==> first == old(first))
      decreases Refs(bb) - tmp, 1
    {
      if o.Ref? {
        needed := CmovNeeded(o.ref, rank, zone);
      } else {
        needed := Meet(o);
      }
    }

    /** `optimize_cmovs` on one instruction; on a graph without cycles the assertion
        holds and the value of every instruction stays. */
    method OptimizeOne(r: nat, ghost rank: nat -> nat, ghost zone: set<nat>) returns (modified: bool)
      requires Valid() && Closed(bb) && Acyclic(bb, rank) && Sourced(bb) && ValidRef(bb, r)
      requires Enclosed(bb, zone) && r in zone && tmp !! zone && tmp <= Refs(bb)
      modifies this`bb, this`tmp, this`first
      ensures Valid() && tmp == old(tmp) && SameValues(old(bb), bb, rank) && Enclosed(bb, zone)
      ensures Simplified(old(bb), bb, r, true) && SameFeeds(old(bb), bb, rank)
      ensures forall x: nat :: ValidRef(old(bb), x) && x != r ==> ValidRef(bb, x) && At(bb, x) == At(old(bb), x)
      ensures modified <==> bb != old(bb)
    {
      modified := false;
      FeedsArePrimaries(bb, rank, zone, tmp, r);
      UnmarkedFeeds(bb, rank, r);
      if IsCmov(At(bb, r)) {
        first := NoOp;
        var needed := CmovNeeded(r, rank, zone);
        if !needed {
          assert !first.NoOp?;
          assert Primaries(bb, {}, r) == {first};
          AsMoveRanked(bb, rank, r, first);
          AsMoveEnclosed(bb, zone, r, first);
          ReplaceAll(bb, rank, r, first);
          OthersKept(bb, rank, r, first, SetAt(bb, r, AsMove(At(bb, r), first)));
          bb := SetAt(bb, r, AsMove(At(bb, r), first));
          modified := true;
        }
      }
    }

    predicate Alive(r: nat)
      reads this
    {
      RefBB(r) < |dead| && !dead[RefBB(r)]
    }

    /** The clearing loops of `optimize_cmovs`: dead blocks keep their marks. */
    method ClearMarks()
      requires Valid() && tmp <= Refs(bb)
      modifies this`tmp
      ensures tmp == set m | m in old(tmp) && !Alive(m)
      ensures tmp == {} <==> forall m :: m in old(tmp) ==> Alive(m)
    {
      for b := 0 to |bb|
        invariant forall m :: m in tmp <==> m in old(tmp) && !(RefBB(m) < b && Alive(m))
      {
        if !dead[b] {
          for i := 0 to |bb[b]|
            invariant forall m :: m in tmp <==>
                        m in old(tmp) && !(RefBB(m) < b && Alive(m)) && !(RefBB(m) == b && RefI(m) < i)
          {
            RefParts(b, i);
            tmp := tmp - {MakeRef(b, i)};
          }
          assert forall m :: m in old(tmp) && RefBB(m) == b ==> RefI(m) < |bb[b]|;
        }
      }
    }

    /** `optimize_cmovs`.  The zone is what the live blocks lead to; a mark left in a dead
        block outside it does no harm. */
    method OptimizeCmovs(ghost rank: nat -> nat, ghost zone: set<nat>) returns (modified: bool)
      requires Valid() && Closed(bb) && Acyclic(bb, rank) && Sourced(bb) && tmp <= Refs(bb)
      requires Enclosed(bb, zone) && forall r :: r in Refs(bb) && Alive(r) ==> r in zone
      requires forall m :: m in tmp && m in zone ==> Alive(m)
      modifies this`bb, this`tmp, this`first
      ensures Valid() && SameValues(old(bb), bb, rank)
      ensures forall r: nat :: ValidRef(old(bb), r) ==> Simplified(old(bb), bb, r, Alive(r))
      ensures tmp == set m | m in old(tmp) && !Alive(m)
      ensures tmp == {} <==> forall m :: m in old(tmp) ==> Alive(m)
      ensures !modified ==> bb == old(bb)
    {
      modified := false;
      ClearMarks();
      ghost var stale := tmp;
      NothingYet(bb, rank, dead);
      for b := 0 to |bb|
        invariant Optimizing(old(bb), rank, zone, stale, b * MAX_INSNS) && (!modified ==> bb == old(bb))
      {
        if !dead[b] {
          ghost var r: nat := b * MAX_INSNS;
          for i := 0 to |bb[b]|
            invariant Optimizing(old(bb), rank, zone, stale, r) && (!modified ==> bb == old(bb))
            invariant r == b * MAX_INSNS + i && b < |old(bb)| && |bb[b]| == |old(bb)[b]|
          {
            RefParts(b, i);
            var m := OptimizeNext(old(bb), b, i, rank, zone, stale);
            modified := modified || m;
            r := r + 1;
          }
        }
        BlockDone(old(bb), bb, dead, b);
      }
      AllDone(old(bb), bb, dead);
    }

    ghost predicate Optimizing(a: Blocks<Insn>, rank: nat -> nat, zone: set<nat>, stale: set<nat>, limit: nat)
      reads this
    {
      && Valid() && tmp == stale && Enclosed(bb, zone) && SameValues(a, bb, rank) && SameFeeds(a, bb, rank)
      && Refs(bb) == Refs(a) && SimplifiedTo(a, bb, dead, limit)
    }

    method OptimizeNext(ghost a: Blocks<Insn>, b: nat, i: nat, ghost rank: nat -> nat, ghost zone: set<nat>, ghost stale: set<nat>)
      returns (modified: bool)
      requires Optimizing(a, rank, zone, stale, b * MAX_INSNS + i) && b < |bb| && i < |bb[b]| && i < MAX_INSNS && !dead[b]
      requires stale !! zone && stale <= Refs(bb) && forall r :: r in Refs(bb) && Alive(r) ==> r in zone
      modifies this`bb, this`tmp, this`first
      ensures Optimizing(a, rank, zone, stale, b * MAX_INSNS + i + 1)
      ensures !modified ==> bb == old(bb)
    {
      var r := MakeRef(b, i);
      RefParts(b, i);
      RefInRefs(bb, r);
      ghost var before := bb;
      modified := OptimizeOne(r, rank, zone);
      SameTwice(a, before, bb, rank);
      FeedsTwice(a, before, bb, rank);
      SameRefs(before, bb);
      SimplifiedNext(a, before, bb, rank, dead, r);
    }
  }

  lemma {:induction false} NothingYet(a: Blocks<Insn>, rank: nat -> nat, dead: seq<bool>)
    requires Closed(a) && Acyclic(a, rank)
    ensures SameFeeds(a, a, rank) && SimplifiedTo(a, a, dead, 0)
  {
  }

  lemma {:induction false} FeedsTwice(a: Blocks<Insn>, b: Blocks<Insn>, c: Blocks<Insn>, rank: nat -> nat)
    requires SameFeeds(a, b, rank) && SameFeeds(b, c, rank)
    ensures SameFeeds(a, c, rank)
  {
  }

  lemma {:induction false} BlockDone(a: Blocks<Insn>, c: Blocks<Insn>, dead: seq<bool>, b: nat)
    requires Closed(a) && Fits(a) && b < |a| && b < |dead|
    requires SimplifiedTo(a, c, dead, if dead[b] then b * MAX_INSNS else b * MAX_INSNS + |a[b]|)
    ensures SimplifiedTo(a, c, dead, (b + 1) * MAX_INSNS)
  {
    var m := if dead[b] then b * MAX_INSNS else b * MAX_INSNS + |a[b]|;
    forall r: nat | m <= r < (b + 1) * MAX_INSNS && ValidRef(a, r)
      ensures RefBB(r) >= |dead| || dead[RefBB(r)]
    {
      RefParts(b, r - b * MAX_INSNS);
    }
    SimplifiedSkip(a, c, dead, m, (b + 1) * MAX_INSNS);
  }

  lemma {:induction false} AllDone(a: Blocks<Insn>, c: Blocks<Insn>, dead: seq<bool>)
    requires Closed(a) && SimplifiedTo(a, c, dead, |a| * MAX_INSNS)
    ensures forall r: nat :: ValidRef(a, r) ==> Simplified(a, c, r, RefBB(r) < |dead| && !dead[RefBB(r)])
  {
    forall r: nat | ValidRef(a, r)
      ensures Simplified(a, c, r, RefBB(r) < |dead| && !dead[RefBB(r)])
    {
      assert r < |a| * MAX_INSNS;
      assert Simplified(a, c, r, r < |a| * MAX_INSNS && RefBB(r) < |dead| && !dead[RefBB(r)]);
    }
  }

  lemma {:induction false} SameRefs(a: Blocks<Insn>, c: Blocks<Insn>)
    requires |c| == |a| && forall b :: 0 <= b < |a| ==> |c[b]| == |a[b]|
    ensures Refs(c) == Refs(a)
  {
  }
}
