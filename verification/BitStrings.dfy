/** Fixed-width unsigned integers as bit strings, least significant bit first, and the
    bit operations of C on them.  */
module BitStrings {
  import B = Bits

  type BitString = seq<bool>

  function Zeros(n: nat): (r: BitString) ensures |r| == n { seq(n, _ => false) }

  function Ones(n: nat): (r: BitString) ensures |r| == n { seq(n, _ => true) }

  /** Bit j of x; bits past its width are zero. */
  predicate Bit(x: BitString, j: int) { 0 <= j < |x| && x[j] }

  /** `x << k` and `x >> k`, cut to n bits. */
  function Shl(x: BitString, k: int, n: nat): (r: BitString)
    ensures |r| == n
    ensures forall j :: 0 <= j < n ==> r[j] == Bit(x, j - k)
  {
    seq(n, j requires 0 <= j < n => Bit(x, j - k))
  }

  function Shr(x: BitString, k: int, n: nat): (r: BitString)
    ensures |r| == n
    ensures forall j :: 0 <= j < n ==> r[j] == Bit(x, j + k)
  {
    seq(n, j requires 0 <= j < n => Bit(x, j + k))
  }

  function Or(x: BitString, y: BitString): (r: BitString)
    requires |x| == |y|
    ensures |r| == |x|
    ensures forall j :: 0 <= j < |x| ==> r[j] == (x[j] || y[j])
  {
    seq(|x|, j requires 0 <= j < |x| => x[j] || y[j])
  }

  function Xor(x: BitString, y: BitString): (r: BitString)
    requires |x| == |y|
    ensures |r| == |x|
    ensures forall j :: 0 <= j < |x| ==> r[j] == (x[j] != y[j])
  {
    seq(|x|, j requires 0 <= j < |x| => x[j] != y[j])
  }

  /** Masking with ones from bit lo up to, not including, bit hi. */
  function Keep(x: BitString, lo: int, hi: int): (r: BitString)
    ensures |r| == |x|
    ensures forall j :: 0 <= j < |x| ==> r[j] == (lo <= j < hi && x[j])
  {
    seq(|x|, j requires 0 <= j < |x| => lo <= j < hi && x[j])
  }

  function Reverse(x: BitString): (r: BitString)
    ensures |r| == |x|
    ensures forall j :: 0 <= j < |x| ==> r[j] == x[|x| - 1 - j]
  {
    seq(|x|, j requires 0 <= j < |x| => x[|x| - 1 - j])
  }

  lemma {:induction false} ReverseTwice(x: BitString)
    ensures Reverse(Reverse(x)) == x
  {
  }

  // ------------------------------------------------------------------- numbers

  function Val(x: BitString): (v: nat)
    ensures v < B.Pow2(|x|)
  {
    if x == [] then 0 else (if x[0] then 1 else 0) + 2 * Val(x[1..])
  }

  function Of(v: nat, n: nat): (r: BitString)
    ensures |r| == n
    decreases n
  {
    if n == 0 then [] else [v % 2 == 1] + Of(v / 2, n - 1)
  }

  /** The n low bits of v are v modulo 2^n. */
  lemma {:induction false} ValOf(v: nat, n: nat)
    ensures Val(Of(v, n)) == v % B.Pow2(n)
    decreases n
  {
    if n > 0 {
      ValOf(v / 2, n - 1);
      B.HalfModulo(v, n);
      assert Of(v, n)[1..] == Of(v / 2, n - 1);
    }
  }

  lemma {:induction false} OfVal(x: BitString)
    ensures Of(Val(x), |x|) == x
  {
    if x != [] {
      OfVal(x[1..]);
    }
  }

  // --------------------------------------------------------------- bit reversal

  /** One step of the magic-mask reversal: adjacent groups of k bits change places. */
  function SwapGroups(x: BitString, k: nat): (r: BitString)
    requires k > 0
    ensures |r| == |x|
  {
    seq(|x|, j requires 0 <= j < |x| => if j / k % 2 == 0 then Bit(x, j + k) else Bit(x, j - k))
  }

  /** Where the bit that the steps up to groups of k put at j comes from, within its
      group of 2k bits. */
  ghost predicate GroupsReversed(x: BitString, y: BitString, k: nat)
    requires k > 0
  {
    |y| == |x| && forall j :: 0 <= j < |x| ==> y[j] == Bit(x, j / k * k + (k - 1 - j % k))
  }

  lemma {:induction false} SwapReverses(x: BitString, y: BitString, k: nat)
    requires k > 0 && |x| % (2 * k) == 0 && GroupsReversed(x, y, k)
    ensures GroupsReversed(x, SwapGroups(y, k), 2 * k)
  {
    var z := SwapGroups(y, k);
    forall j | 0 <= j < |x|
      ensures z[j] == Bit(x, j / (2 * k) * (2 * k) + (2 * k - 1 - j % (2 * k)))
    {
      GroupIndex(k, j);
      WholeGroups(|x|, 2 * k, j);
    }
  }

  /** j is bit r of the lower (b = 0) or upper half of double group h. */
  lemma {:induction false} Place(k: nat, h: nat, b: nat, r: nat)
    requires r < k && b < 2
    ensures var j := 2 * (h * k) + b * k + r;
            && j / k == 2 * h + b && j % k == r && j / (2 * k) == h && j % (2 * k) == b * k + r
            && (2 * h + b) * k == 2 * (h * k) + b * k && h * (2 * k) == 2 * (h * k)
  {
    var j := 2 * (h * k) + b * k + r;
    assert (2 * h + b) * k == 2 * (h * k) + b * k;
    assert h * (2 * k) == 2 * (h * k);
    B.ModUnique(j, k, 2 * h + b, r);
    assert b * k + r < 2 * k;
    B.ModUnique(j, 2 * k, h, b * k + r);
  }

  lemma {:induction false} GroupIndex(k: nat, j: nat)
    requires k > 0
    ensures var i := if j / k % 2 == 0 then j + k else j - k;
            0 <= i < j / (2 * k) * (2 * k) + 2 * k &&
            i / k * k + (k - 1 - i % k) == j / (2 * k) * (2 * k) + (2 * k - 1 - j % (2 * k))
  {
    Halves(k, j);
    PartnerIndex(k, j / k / 2, j / k % 2, j % k);
  }

  lemma {:induction false} PartnerIndex(k: nat, h: nat, b: nat, r: nat)
    requires r < k && b < 2
    ensures var j := 2 * (h * k) + b * k + r;
            var i := if b == 0 then j + k else j - k;
            && i >= 0 && j / (2 * k) * (2 * k) == 2 * (h * k)
            && i / k * k + (k - 1 - i % k) == j / (2 * k) * (2 * k) + (2 * k - 1 - j % (2 * k))
            && i < j / (2 * k) * (2 * k) + 2 * k
  {
    Place(k, h, b, r);
    if b == 0 {
      Place(k, h, 1, r);
    } else {
      Place(k, h, 0, r);
    }
  }

  lemma {:induction false} Halves(k: nat, j: nat)
    requires k > 0
    ensures j == 2 * (j / k / 2 * k) + (j / k % 2) * k + j % k
  {
    var g := j / k;
    assert g == 2 * (g / 2) + g % 2;
    assert g * k == (2 * (g / 2) + g % 2) * k == 2 * (g / 2 * k) + (g % 2) * k;
  }

  /** The group of an index below a multiple of the group size is complete. */
  lemma {:induction false} WholeGroups(n: nat, g: nat, j: nat)
    requires g > 0 && j < n && n % g == 0
    ensures j / g * g + g <= n
  {
    var m, h := n / g, j / g;
    assert n == m * g && j == h * g + j % g;
    assert (h - m) * g == h * g - m * g;
    B.MulGrows(h - m, g);
  }

  /** `reverse_bits`: six mask-and-shift steps, then the low bits. */
  function ReverseBits(x: BitString, n: nat): (r: BitString)
    requires |x| == 64
    ensures |r| == 64
  {
    var s := SwapGroups(SwapGroups(SwapGroups(SwapGroups(SwapGroups(SwapGroups(x, 1), 2), 4), 8), 16), 32);
    Shr(s, 64 - n, 64)
  }

  /** `reverse_byte`. */
  function ReverseByte(x: BitString): (r: BitString)
    requires |x| == 8
    ensures |r| == 8
  {
    SwapGroups(SwapGroups(SwapGroups(x, 1), 2), 4)
  }

  lemma {:induction false} ReverseByteCorrect(x: BitString)
    requires |x| == 8
    ensures ReverseByte(x) == Reverse(x)
  {
    StartReversal(x);
    var s1 := SwapGroups(x, 1);
    SwapReverses(x, x, 1);
    var s2 := SwapGroups(s1, 2);
    SwapReverses(x, s1, 2);
    SwapReverses(x, s2, 4);
    EndReversal(x, SwapGroups(s2, 4));
  }

  lemma {:induction false} StartReversal(x: BitString)
    ensures GroupsReversed(x, x, 1)
  {
  }

  lemma {:induction false} EndReversal(x: BitString, y: BitString)
    requires |x| > 0 && GroupsReversed(x, y, |x|)
    ensures y == Reverse(x)
  {
    forall j | 0 <= j < |x|
      ensures y[j] == x[|x| - 1 - j]
    {
      B.ModUnique(j, |x|, 0, j);
    }
  }

  /** The n low bits come out reversed, and nothing else. */
  lemma {:induction false} ReverseBitsCorrect(x: BitString, n: nat)
    requires |x| == 64 && n <= 64
    ensures ReverseBits(x, n) == Reverse(x[..n]) + Zeros(64 - n)
  {
    StartReversal(x);
    var s1 := SwapGroups(x, 1);
    SwapReverses(x, x, 1);
    var s2 := SwapGroups(s1, 2);
    SwapReverses(x, s1, 2);
    var s3 := SwapGroups(s2, 4);
    SwapReverses(x, s2, 4);
    var s4 := SwapGroups(s3, 8);
    SwapReverses(x, s3, 8);
    var s5 := SwapGroups(s4, 16);
    SwapReverses(x, s4, 16);
    SwapReverses(x, s5, 32);
    var s6 := SwapGroups(s5, 32);
    EndReversal(x, s6);
    ShiftedDown(x, s6, n);
  }

  lemma {:induction false} ShiftedDown(x: BitString, y: BitString, n: nat)
    requires |x| == 64 && n <= 64 && y == Reverse(x)
    ensures Shr(y, 64 - n, 64) == Reverse(x[..n]) + Zeros(64 - n)
  {
    var a, b := Shr(y, 64 - n, 64), Reverse(x[..n]) + Zeros(64 - n);
    forall j | 0 <= j < 64
      ensures a[j] == b[j]
    {
      assert j < n ==> y[j + (64 - n)] == x[n - 1 - j] == x[..n][n - 1 - j];
    }
  }
}
