/** The order in which a refill that starts mid-line and wraps visits the words. */
module LineRefill {

  /** The n-th word refilled when the refill starts at word w. */
  function WrapWord(bs: nat, w: nat, n: nat): (k: nat)
    requires (bs == 16 || bs == 32)
    ensures k < bs / 4
  {
    (w + n) % (bs / 4)
  }

  lemma {:induction false} WrapIndex(bs: nat, a: nat, n: nat)
    requires (bs == 16 || bs == 32) && n < bs / 4
    ensures ((a + 4 * n) % bs) / 4 == WrapWord(bs, a % bs / 4, n)
    ensures (a - a % 4 + 4 * n) % bs == 4 * WrapWord(bs, a % bs / 4, n)
  {
    if bs == 16 {
      Wrap16(a, n);
    } else {
      Wrap32(a, n);
    }
  }

  lemma {:induction false} Remainder16(q: nat, t: nat, r: nat)
    requires t < 4 && r < 4
    ensures (16 * q + (4 * t + r)) % 16 == 4 * t + r && (4 * t + r) / 4 == t
  {
  }

  lemma {:induction false} Remainder32(q: nat, t: nat, r: nat)
    requires t < 8 && r < 4
    ensures (32 * q + (4 * t + r)) % 32 == 4 * t + r && (4 * t + r) / 4 == t
  {
  }

  lemma {:induction false} Wrapped16(u: nat, v: nat, r: nat, n: nat)
    requires v < 4 && r < 4 && n < 4
    ensures var t := (v + n) % 4;
            (16 * u + 4 * v + r + 4 * n) % 16 == 4 * t + r && (16 * u + 4 * v + 4 * n) % 16 == 4 * t
  {
    var t, q := if v + n < 4 then v + n else v + n - 4, if v + n < 4 then u else u + 1;
    assert (v + n) % 4 == t;
    Remainder16(q, t, r);
    Remainder16(q, t, 0);
    assert 16 * u + 4 * v + r + 4 * n == 16 * q + (4 * t + r);
  }

  lemma {:induction false} Wrapped32(u: nat, v: nat, r: nat, n: nat)
    requires v < 8 && r < 4 && n < 8
    ensures var t := (v + n) % 8;
            (32 * u + 4 * v + r + 4 * n) % 32 == 4 * t + r && (32 * u + 4 * v + 4 * n) % 32 == 4 * t
  {
    var t, q := if v + n < 8 then v + n else v + n - 8, if v + n < 8 then u else u + 1;
    assert (v + n) % 8 == t;
    Remainder32(q, t, r);
    Remainder32(q, t, 0);
    assert 32 * u + 4 * v + r + 4 * n == 32 * q + (4 * t + r);
  }

  lemma {:induction false} Parts16(a: nat) returns (u: nat, v: nat, r: nat)
    ensures a == 16 * u + 4 * v + r && v < 4 && r < 4 && a % 4 == r && a % 16 == 4 * v + r && (a % 16) / 4 == v
  {
    var w := a % 16;
    u, v, r := a / 16, w / 4, w % 4;
    Remainder4(4 * u + v, r);
  }

  lemma {:induction false} Parts32(a: nat) returns (u: nat, v: nat, r: nat)
    ensures a == 32 * u + 4 * v + r && v < 8 && r < 4 && a % 4 == r && a % 32 == 4 * v + r && (a % 32) / 4 == v
  {
    var w := a % 32;
    u, v, r := a / 32, w / 4, w % 4;
    Remainder4(8 * u + v, r);
  }

  lemma {:induction false} Remainder4(q: nat, r: nat)
    requires r < 4
    ensures (4 * q + r) % 4 == r
  {
  }

  lemma {:induction false} Wrap16(a: nat, n: nat)
    requires n < 4
    ensures ((a + 4 * n) % 16) / 4 == ((a % 16) / 4 + n) % 4
    ensures (a - a % 4 + 4 * n) % 16 == 4 * (((a % 16) / 4 + n) % 4)
  {
    var u, v, r := Parts16(a);
    Wrapped16(u, v, r, n);
    var t := (v + n) % 4;
    var x, y := (a + 4 * n) % 16, (a - r + 4 * n) % 16;
    assert x == 4 * t + r && y == 4 * t;
  }

  lemma {:induction false} Wrap32(a: nat, n: nat)
    requires n < 8
    ensures ((a + 4 * n) % 32) / 4 == ((a % 32) / 4 + n) % 8
    ensures (a - a % 4 + 4 * n) % 32 == 4 * (((a % 32) / 4 + n) % 8)
  {
    var u, v, r := Parts32(a);
    Wrapped32(u, v, r, n);
    var t := (v + n) % 8;
    var x, y := (a + 4 * n) % 32, (a - r + 4 * n) % 32;
    assert x == 4 * t + r && y == 4 * t;
  }

  lemma {:induction false} WrapInjective(bs: nat, w: nat, n: nat)
    requires (bs == 16 || bs == 32) && n < bs / 4
    ensures forall k :: 0 <= k < n ==> WrapWord(bs, w, k) != WrapWord(bs, w, n)
  {
    forall k | 0 <= k < n
      ensures WrapWord(bs, w, k) != WrapWord(bs, w, n)
    {
      if bs == 16 {
        assert (w + k) % 4 != (w + n) % 4;
      } else {
        assert (w + k) % 8 != (w + n) % 8;
      }
    }
  }

  lemma {:induction false} WrapReaches(bs: nat, w: nat, k: nat, n: nat)
    requires (bs == 16 || bs == 32) && w < bs / 4 && k < bs / 4
    requires n == if k >= w then k - w else k - w + bs / 4
    ensures WrapWord(bs, w, n) == k
  {
  }
}
