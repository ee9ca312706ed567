/** Bitwise operations on natural numbers, bit by bit, and what masking with the
    masks of a power-of-two geometry computes. */
module Bits {

  function Pow2(k: nat): (r: nat)
    ensures r > 0
  {
    if k == 0 then 1 else 2 * Pow2(k - 1)
  }

  function And(x: nat, y: nat): nat
  {
    if x == 0 || y == 0 then 0 else (if x % 2 == 1 && y % 2 == 1 then 1 else 0) + 2 * And(x / 2, y / 2)
  }

  function Or(x: nat, y: nat): nat
    decreases x + y
  {
    if x == 0 then y else if y == 0 then x
    else (if x % 2 == 1 || y % 2 == 1 then 1 else 0) + 2 * Or(x / 2, y / 2)
  }

  lemma {:induction false} HalfModulo(x: nat, k: nat)
    requires k > 0
    ensures x % Pow2(k) == x % 2 + 2 * ((x / 2) % Pow2(k - 1))
  {
    var m := Pow2(k - 1);
    var q, r := (x / 2) / m, (x / 2) % m;
    assert x == x % 2 + 2 * (q * m + r);
    assert x == q * (2 * m) + (x % 2 + 2 * r);
    ModUnique(x, 2 * m, q, x % 2 + 2 * r);
  }

  lemma {:induction false} ModUnique(x: nat, m: nat, q: nat, r: nat)
    requires 0 <= r < m && x == q * m + r
    ensures x / m == q && x % m == r
  {
    var d := x / m - q;
    assert d * m == r - x % m;
    MulGrows(d, m);
  }

  lemma {:induction false} MulGrows(d: int, n: nat)
    ensures d >= 1 ==> d * n >= n
    ensures d <= -1 ==> d * n <= 0 - n
  {
  }

  lemma {:induction false} PowMonotone(k: nat, n: nat)
    requires k <= n
    ensures Pow2(k) <= Pow2(n)
    decreases n
  {
    if k < n {
      PowMonotone(k, n - 1);
    }
  }

  /** Masking with bits k..n-1. */
  lemma {:induction false} AndRange(x: nat, k: nat, n: nat)
    requires k <= n
    ensures Pow2(k) <= Pow2(n)
    ensures And(x, Pow2(n) - Pow2(k)) == x % Pow2(n) - x % Pow2(k)
    decreases n
  {
    PowMonotone(k, n);
    if k == n {
      AndEven(x, 0);
    } else if k > 0 {
      AndRange(x / 2, k - 1, n - 1);
      RangeStep(x, k, n, x / 2 % Pow2(k - 1), x / 2 % Pow2(n - 1));
    } else {
      AndRange(x / 2, 0, n - 1);
      LowStep(x, n, x / 2 % Pow2(n - 1));
    }
  }

  lemma {:induction false} LowStep(x: nat, n: nat, low: nat)
    requires 0 < n && low == x / 2 % Pow2(n - 1) && And(x / 2, Pow2(n - 1) - 1) == low
    ensures And(x, Pow2(n) - 1) == x % Pow2(n)
  {
    HalfModulo(x, n);
    AndOdd(x, Pow2(n - 1) - 1);
  }

  lemma {:induction false} RangeStep(x: nat, k: nat, n: nat, low: nat, high: nat)
    requires 0 < k < n && Pow2(k - 1) <= Pow2(n - 1)
    requires low == x / 2 % Pow2(k - 1) && high == x / 2 % Pow2(n - 1)
    requires And(x / 2, Pow2(n - 1) - Pow2(k - 1)) == high - low
    ensures And(x, Pow2(n) - Pow2(k)) == x % Pow2(n) - x % Pow2(k)
  {
    var y: nat := Pow2(n - 1) - Pow2(k - 1);
    AndEven(x, y);
    assert x % Pow2(n) == x % 2 + 2 * high by {
      HalfModulo(x, n);
    }
    assert x % Pow2(k) == x % 2 + 2 * low by {
      HalfModulo(x, k);
    }
    assert Pow2(n) - Pow2(k) == 2 * y;
  }

  lemma {:induction false} AndEven(x: nat, y: nat)
    ensures And(x, 2 * y) == 2 * And(x / 2, y)
  {
    assert 2 * y / 2 == y && 2 * y % 2 == 0;
  }

  lemma {:induction false} AndOdd(x: nat, y: nat)
    ensures And(x, 2 * y + 1) == x % 2 + 2 * And(x / 2, y)
  {
    assert (2 * y + 1) / 2 == y && (2 * y + 1) % 2 == 1;
  }

  /** ORing a value below 2^k into a multiple of 2^k adds it. */
  lemma {:induction false} OrDisjoint(x: nat, y: nat, k: nat)
    requires x % Pow2(k) == 0 && y < Pow2(k)
    ensures Or(x, y) == x + y
    decreases k
  {
    if x != 0 && y != 0 {
      HalfModulo(x, k);
      OrDisjoint(x / 2, y / 2, k - 1);
    }
  }
}
