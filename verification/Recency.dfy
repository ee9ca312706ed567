/** Saturating counters as a record of recency: what the replacement of both caches keeps.  Slot i
    belongs to set i modulo the number of sets; an empty slot has tag -1. */
module Recency {

  predicate Valid(tag: int) { tag != -1 }

  /** How many of the first k slots are in set q, valid, and were used after time x. */
  function Newer(tags: seq<int>, st: seq<nat>, sets: nat, q: nat, x: nat, k: nat): (c: nat)
    requires sets > 0 && k <= |tags| == |st|
    ensures c <= k
  {
    if k == 0 then 0
    else Newer(tags, st, sets, q, x, k - 1) + (if (k - 1) % sets == q && Valid(tags[k - 1]) && st[k - 1] > x then 1 else 0)
  }

  function CountValid(tags: seq<int>, sets: nat, q: nat, k: nat): (c: nat)
    requires sets > 0 && k <= |tags|
    ensures c <= k
  {
    if k == 0 then 0
    else CountValid(tags, sets, q, k - 1) + (if (k - 1) % sets == q && Valid(tags[k - 1]) then 1 else 0)
  }

  /** How many of the first k slots are in set q. */
  function Members(sets: nat, q: nat, k: nat): nat
    requires sets > 0
  {
    if k == 0 then 0 else Members(sets, q, k - 1) + (if (k - 1) % sets == q then 1 else 0)
  }

  /** top less n, but not below zero. */
  function Below(top: nat, n: nat): nat { if n < top then top - n else 0 }

  /** In each set the slot used last has the top counter, the one used before it the next lower one,
      and so on down to zero; st[i] is the time of the last use of slot i. */
  ghost predicate Recent(top: nat, tags: seq<int>, lrus: seq<nat>, st: seq<nat>, now: nat, sets: nat)
  {
    && sets > 0 && |tags| == |lrus| == |st|
    && (forall i :: 0 <= i < |tags| ==> st[i] <= now && (!Valid(tags[i]) ==> lrus[i] == 0))
    && (forall i, j :: 0 <= i < j < |tags| && Valid(tags[i]) && Valid(tags[j]) ==> st[i] != st[j])
    && (forall i: nat :: i < |tags| && Valid(tags[i]) ==>
          lrus[i] == Below(top, Newer(tags, st, sets, i % sets, st[i], |tags|)))
  }

  /** Slot w is used at time now, after which it is valid. */
  ghost predicate Used(tags: seq<int>, st: seq<nat>, tags': seq<int>, st': seq<nat>, w: nat, now: nat)
  {
    && w < |tags| == |st| == |tags'| == |st'| && Valid(tags'[w]) && st'[w] == now
    && forall i :: 0 <= i < |tags| && i != w ==> tags'[i] == tags[i] && st'[i] == st[i]
  }

  lemma {:induction false} NewerUsed(tags: seq<int>, st: seq<nat>, tags': seq<int>, st': seq<nat>, w: nat, now: nat,
                                     sets: nat, q: nat, x: nat, k: nat)
    requires sets > 0 && Used(tags, st, tags', st', w, now) && x < now && k <= |tags|
    ensures Newer(tags', st', sets, q, x, k) + (if w < k && w % sets == q && Valid(tags[w]) && st[w] > x then 1 else 0) ==
            Newer(tags, st, sets, q, x, k) + (if w < k && w % sets == q then 1 else 0)
  {
    if k > 0 {
      NewerUsed(tags, st, tags', st', w, now, sets, q, x, k - 1);
    }
  }

  lemma {:induction false} NoneNewer(tags: seq<int>, st: seq<nat>, sets: nat, q: nat, x: nat, k: nat)
    requires sets > 0 && k <= |tags| == |st| && forall i :: 0 <= i < k ==> st[i] <= x
    ensures Newer(tags, st, sets, q, x, k) == 0
  {
    if k > 0 {
      NoneNewer(tags, st, sets, q, x, k - 1);
    }
  }

  /** The earlier of two times has more slots used after it. */
  lemma {:induction false} NewerFewer(tags: seq<int>, st: seq<nat>, sets: nat, x: nat, y: nat, i: nat, k: nat)
    requires sets > 0 && k <= |tags| == |st| && i < |tags| && x < y
    ensures var q := i % sets;
            && Newer(tags, st, sets, q, y, k) <= Newer(tags, st, sets, q, x, k)
            && (i < k && Valid(tags[i]) && x < st[i] <= y ==> Newer(tags, st, sets, q, y, k) < Newer(tags, st, sets, q, x, k))
  {
    if k > 0 {
      NewerFewer(tags, st, sets, x, y, i, k - 1);
    }
  }

  /** The counters of slots i and j of a set are in the order of their times. */
  lemma {:induction false} CountersFollow(top: nat, tags: seq<int>, lrus: seq<nat>, st: seq<nat>, now: nat, sets: nat, i: nat, j: nat)
    requires Recent(top, tags, lrus, st, now, sets) && i < |tags| && j < |tags| && i % sets == j % sets
    requires Valid(tags[i]) && Valid(tags[j]) && st[i] > st[j]
    ensures lrus[i] >= lrus[j] && (lrus[i] > 0 ==> lrus[i] > lrus[j])
  {
    NewerFewer(tags, st, sets, st[j], st[i], i, |tags|);
  }

  /** A hit in slot w: higher counters of its set drop by one. */
  ghost predicate Touched(top: nat, lrus: seq<nat>, lrus': seq<nat>, sets: nat, w: nat)
    requires sets > 0
  {
    && w < |lrus| == |lrus'|
    && forall i: nat :: i < |lrus| ==>
         lrus'[i] == if i == w then top
                     else if i % sets == w % sets && lrus[i] > lrus[w] then lrus[i] - 1 else lrus[i]
  }

  lemma {:induction false} HitSlot(top: nat, tags: seq<int>, lrus: seq<nat>, st: seq<nat>, now: nat, sets: nat,
                                   lrus': seq<nat>, st': seq<nat>, w: nat, i: nat)
    requires Recent(top, tags, lrus, st, now, sets) && w < |tags| && Valid(tags[w]) && Used(tags, st, tags, st', w, now + 1)
    requires Touched(top, lrus, lrus', sets, w) && i < |tags| && Valid(tags[i])
    ensures lrus'[i] == Below(top, Newer(tags, st', sets, i % sets, st'[i], |tags|))
  {
    if i == w {
      NoneNewer(tags, st', sets, i % sets, now + 1, |tags|);
    } else {
      NewerUsed(tags, st, tags, st', w, now + 1, sets, i % sets, st[i], |tags|);
      if i % sets == w % sets {
        if st[w] > st[i] {
          CountersFollow(top, tags, lrus, st, now, sets, w, i);
        } else {
          CountersFollow(top, tags, lrus, st, now, sets, i, w);
        }
      }
    }
  }

  lemma {:induction false} HitRecent(top: nat, tags: seq<int>, lrus: seq<nat>, st: seq<nat>, now: nat, sets: nat,
                                     lrus': seq<nat>, st': seq<nat>, w: nat)
    requires Recent(top, tags, lrus, st, now, sets) && w < |tags| && Valid(tags[w]) && Used(tags, st, tags, st', w, now + 1)
    requires Touched(top, lrus, lrus', sets, w)
    ensures Recent(top, tags, lrus', st', now + 1, sets)
  {
    forall i: nat | i < |tags| && Valid(tags[i])
      ensures lrus'[i] == Below(top, Newer(tags, st', sets, i % sets, st'[i], |tags|))
    {
      HitSlot(top, tags, lrus, st, now, sets, lrus', st', w, i);
    }
  }

  /** A miss that fills slot v: the counters of its set drop by one. */
  ghost predicate Aged(top: nat, lrus: seq<nat>, lrus': seq<nat>, sets: nat, v: nat)
    requires sets > 0
  {
    && v < |lrus| == |lrus'|
    && forall i: nat :: i < |lrus| ==>
         lrus'[i] == if i == v then top
                     else if i % sets == v % sets && lrus[i] > 0 then lrus[i] - 1 else lrus[i]
  }

  /** Slot v has the smallest counter of its set. */
  ghost predicate Lowest(lrus: seq<nat>, sets: nat, v: nat)
    requires sets > 0
  {
    v < |lrus| && forall i: nat :: i < |lrus| && i % sets == v % sets ==> lrus[v] <= lrus[i]
  }

  lemma {:induction false} MissSlot(top: nat, tags: seq<int>, lrus: seq<nat>, st: seq<nat>, now: nat, sets: nat,
                                    tags': seq<int>, lrus': seq<nat>, st': seq<nat>, v: nat, i: nat)
    requires Recent(top, tags, lrus, st, now, sets) && Used(tags, st, tags', st', v, now + 1) && Lowest(lrus, sets, v)
    requires Aged(top, lrus, lrus', sets, v) && i < |tags| && Valid(tags'[i])
    ensures lrus'[i] == Below(top, Newer(tags', st', sets, i % sets, st'[i], |tags|))
  {
    if i == v {
      NoneNewer(tags', st', sets, i % sets, now + 1, |tags|);
    } else {
      NewerUsed(tags, st, tags', st', v, now + 1, sets, i % sets, st[i], |tags|);
      if i % sets == v % sets && Valid(tags[v]) && st[v] > st[i] {
        CountersFollow(top, tags, lrus, st, now, sets, v, i);
      }
    }
  }

  lemma {:induction false} MissRecent(top: nat, tags: seq<int>, lrus: seq<nat>, st: seq<nat>, now: nat, sets: nat,
                                      tags': seq<int>, lrus': seq<nat>, st': seq<nat>, v: nat)
    requires Recent(top, tags, lrus, st, now, sets) && Used(tags, st, tags', st', v, now + 1) && Lowest(lrus, sets, v)
    requires Aged(top, lrus, lrus', sets, v)
    ensures Recent(top, tags', lrus', st', now + 1, sets)
  {
    forall i: nat | i < |tags| && Valid(tags'[i])
      ensures lrus'[i] == Below(top, Newer(tags', st', sets, i % sets, st'[i], |tags|))
    {
      MissSlot(top, tags, lrus, st, now, sets, tags', lrus', st', v, i);
    }
  }

  // ----------------------------------------------------------------- the victim

  lemma {:induction false} FewerValid(tags: seq<int>, sets: nat, k: nat, i: nat)
    requires sets > 0 && k <= |tags| && i < |tags|
    ensures CountValid(tags, sets, i % sets, k) <= Members(sets, i % sets, k)
    ensures i < k && !Valid(tags[i]) ==> CountValid(tags, sets, i % sets, k) < Members(sets, i % sets, k)
  {
    if k > 0 {
      FewerValid(tags, sets, k - 1, i);
    }
  }

  lemma {:induction false} NewerAreValid(tags: seq<int>, st: seq<nat>, sets: nat, x: nat, k: nat, i: nat)
    requires sets > 0 && k <= |tags| == |st| && i < |tags|
    ensures var q := i % sets;
            && Newer(tags, st, sets, q, x, k) <= CountValid(tags, sets, q, k)
            && (i < k && Valid(tags[i]) && st[i] <= x ==> Newer(tags, st, sets, q, x, k) < CountValid(tags, sets, q, k))
  {
    if k > 0 {
      NewerAreValid(tags, st, sets, x, k - 1, i);
    }
  }

  /** With a state for every slot of the set, the slot with the smallest counter is empty if any slot
      of the set is, and otherwise the one that has not been used for the longest time. */
  lemma {:induction false} LowestIsOldest(top: nat, tags: seq<int>, lrus: seq<nat>, st: seq<nat>, now: nat, sets: nat, v: nat)
    requires Recent(top, tags, lrus, st, now, sets) && Lowest(lrus, sets, v) && Members(sets, v % sets, |tags|) <= top + 1
    ensures forall i: nat :: i < |tags| && i % sets == v % sets && !Valid(tags[i]) ==> !Valid(tags[v])
    ensures forall i: nat :: i < |tags| && i % sets == v % sets && i != v && Valid(tags[v]) ==> Valid(tags[i]) && st[v] < st[i]
  {
    forall i: nat | i < |tags| && i % sets == v % sets && !Valid(tags[i])
      ensures !Valid(tags[v])
    {
      if Valid(tags[v]) {
        NewerAreValid(tags, st, sets, st[v], |tags|, v);
        FewerValid(tags, sets, |tags|, i);
      }
    }
    forall i: nat | i < |tags| && i % sets == v % sets && i != v && Valid(tags[v])
      ensures Valid(tags[i]) && st[v] < st[i]
    {
      if Valid(tags[i]) && st[i] < st[v] {
        CountersFollow(top, tags, lrus, st, now, sets, v, i);
        NewerAreValid(tags, st, sets, st[i], |tags|, i);
        NewerFewer(tags, st, sets, st[i], st[v], v, |tags|);
        FewerValid(tags, sets, |tags|, i);
      }
    }
  }

  /** Counters never exceed the top. */
  lemma {:induction false} AtMostTop(top: nat, tags: seq<int>, lrus: seq<nat>, st: seq<nat>, now: nat, sets: nat, i: nat)
    requires Recent(top, tags, lrus, st, now, sets) && i < |tags|
    ensures lrus[i] <= top
  {
  }
}
