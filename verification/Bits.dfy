/** The compile-time bit tricks of the ring queues: the cache-line index shuffle
    and the rounding of a requested capacity to a power of two. */
module Bits {

  const TWO32 := 0x1_0000_0000
  const HALF32 := 0x8000_0000

  /** The signed reading of a 32-bit difference. */
  function AsInt32(x: int): int {
    var u := x % TWO32;
    if u < HALF32 then u else u - TWO32
  }

  /** The full and the empty test of the ring queues, on wrapped counters. */
  predicate LooksFull(own: int, seen: int, size: int) { AsInt32(own - seen) >= AsInt32(size) }
  predicate LooksEmpty(seen: int, own: int) { AsInt32(seen - own) <= 0 }

  function Pow2(k: nat): (p: nat)
    ensures p >= 1
  {
    if k == 0 then 1 else 2 * Pow2(k - 1)
  }

  lemma {:induction false} Pow2Add(a: nat, b: nat)
    ensures Pow2(a + b) == Pow2(a) * Pow2(b)
  {
    if a > 0 {
      Pow2Add(a - 1, b);
      assert Pow2(a + b) == 2 * Pow2(a - 1 + b);
      assert 2 * (Pow2(a - 1) * Pow2(b)) == Pow2(a) * Pow2(b);
    }
  }

  /** A power of two no larger than 2^32 divides 2^32. */
  lemma Pow2Divides32(k: nat)
    requires k <= 32
    ensures TWO32 == Pow2(32 - k) * Pow2(k)
  {
    Pow2Add(32 - k, k);
    Pow2Of32();
  }

  lemma Pow2Of32()
    ensures Pow2(32) == TWO32
  {
    assert Pow2(8) == 256;
    Pow2Add(8, 8);
    Pow2Add(16, 16);
  }

  lemma MulBound(e: int, d: int)
    requires d > 0
    ensures e >= 1 ==> e * d >= d
    ensures e <= -1 ==> e * d <= -d
  {
  }

  /** Euclid's uniqueness, in the form the proofs below use. */
  lemma DivModUnique(x: int, d: int, q: int, r: int)
    requires d > 0 && x == q * d + r && 0 <= r < d
    ensures x / d == q && x % d == r
  {
    var e := q - x / d;
    assert e * d == x % d - r;
    MulBound(e, d);
  }

  /** Reducing modulo a multiple first changes nothing. */
  lemma ModOfMod(x: int, m: nat, d: nat)
    requires d > 0
    requires m > 0
    ensures (x % (m * d)) % d == x % d
  {
    var big := m * d;
    assert big > 0;
    var q, r := x / big, x % big;
    assert x == (q * m + r / d) * d + r % d by {
      assert q * big == q * m * d;
    }
    DivModUnique(x, d, q * m + r / d, r % d);
  }

  /** Two numbers closer than d apart have different residues. */
  lemma CloseResiduesDiffer(a: int, b: int, d: int)
    requires d > 0 && a < b < a + d
    ensures a % d != b % d
  {
    var e := b / d - a / d;
    assert e * d == b - a - (b % d - a % d);
    MulBound(e, d);
  }

  /** A machine word as its bits, lowest first. */
  type Word = seq<bool>

  function ToWord(k: nat, x: nat): (w: Word)
    ensures |w| == k
  {
    if k == 0 then [] else [x % 2 == 1] + ToWord(k - 1, x / 2)
  }

  function ToNat(w: Word): nat {
    if w == [] then 0 else (if w[0] then 1 else 0) + 2 * ToNat(w[1..])
  }

  lemma {:induction false} WordRoundTrip(k: nat, x: nat)
    requires x < Pow2(k)
    ensures ToNat(ToWord(k, x)) == x
  {
    if k > 0 {
      WordRoundTrip(k - 1, x / 2);
      assert ToWord(k, x)[1..] == ToWord(k - 1, x / 2);
    }
  }

  lemma {:induction false} NatRoundTrip(w: Word)
    ensures ToNat(w) < Pow2(|w|)
    ensures ToWord(|w|, ToNat(w)) == w
  {
    if w != [] {
      NatRoundTrip(w[1..]);
      assert ToNat(w) / 2 == ToNat(w[1..]);
    }
  }

  /** A number is below 2^m exactly when the bits of its word from m up are clear. */
  lemma {:induction false} BelowMeansClearAbove(w: Word, m: nat)
    requires m <= |w|
    ensures ToNat(w) < Pow2(m) <==> forall i :: m <= i < |w| ==> !w[i]
  {
    if m == 0 {
      if w != [] {
        BelowMeansClearAbove(w[1..], 0);
        assert forall i :: 1 <= i < |w| ==> w[i] == w[1..][i - 1];
      }
    } else {
      BelowMeansClearAbove(w[1..], m - 1);
      assert forall i :: m <= i < |w| ==> w[i] == w[1..][i - 1];
      assert forall i :: m - 1 <= i < |w[1..]| ==> w[1..][i] == w[i + 1];
    }
  }

  function Xor(a: Word, b: Word): Word
    requires |a| == |b|
  {
    seq(|a|, i requires 0 <= i < |a| => a[i] != b[i])
  }

  function ShiftLeft(w: Word, n: nat): Word {
    seq(|w|, i requires 0 <= i < |w| => i >= n && w[i - n])
  }

  function ShiftRight(w: Word, n: nat): Word {
    seq(|w|, i requires 0 <= i < |w| => i + n < |w| && w[i + n])
  }

  function LowBits(w: Word, n: nat): Word {
    seq(|w|, i requires 0 <= i < |w| => i < n && w[i])
  }

  function Or(a: Word, b: Word): Word
    requires |a| == |b|
  {
    seq(|a|, i requires 0 <= i < |a| => a[i] || b[i])
  }

  lemma {:induction false} ToNatConcat(a: Word, b: Word)
    ensures ToNat(a + b) == ToNat(a) + Pow2(|a|) * ToNat(b)
  {
    if a == [] {
      assert a + b == b;
    } else {
      ToNatConcat(a[1..], b);
      assert (a + b)[1..] == a[1..] + b;
      assert Pow2(|a|) * ToNat(b) == 2 * (Pow2(|a| - 1) * ToNat(b));
    }
  }

  lemma {:induction false} ToNatZeros(w: Word)
    requires forall i :: 0 <= i < |w| ==> !w[i]
    ensures ToNat(w) == 0
  {
    if w != [] {
      ToNatZeros(w[1..]);
    }
  }

  /** Shifting left multiplies by a power of two, modulo the word size. */
  lemma ShiftLeftValue(w: Word, s: nat)
    requires s <= |w|
    ensures ToNat(ShiftLeft(w, s)) == (ToNat(w) * Pow2(s)) % Pow2(|w|)
  {
    var n := |w|;
    var kept, lost := w[..n - s], w[n - s..];
    ShiftLeftSplit(w, s);
    assert w == kept + lost;
    ToNatConcat(kept, lost);
    Pow2Add(n - s, s);
    NatRoundTrip(kept);
    ScaledRemainder(ToNat(w), ToNat(kept), ToNat(lost), Pow2(n - s), Pow2(s), Pow2(n));
  }

  lemma ShiftLeftSplit(w: Word, s: nat)
    requires s <= |w|
    ensures ToNat(ShiftLeft(w, s)) == Pow2(s) * ToNat(w[..|w| - s])
  {
    var zeros := seq(s, _ => false);
    assert ShiftLeft(w, s) == zeros + w[..|w| - s];
    ToNatZeros(zeros);
    ToNatConcat(zeros, w[..|w| - s]);
  }

  lemma ScaledRemainder(all: nat, kept: nat, lost: nat, q: nat, p: nat, n: nat)
    requires all == kept + q * lost && n == q * p && kept < q && p > 0
    ensures n > 0 && (all * p) % n == p * kept
  {
    assert n > 0;
    assert p * kept < n by {
      MulBound(q - kept, p);
      assert (q - kept) * p == q * p - p * kept;
    }
    assert all * p == lost * n + p * kept;
    DivModUnique(all * p, n, lost, p * kept);
  }

  /** The or of words that share no bit is their sum. */
  lemma {:induction false} OrOfDisjoint(a: Word, b: Word)
    requires |a| == |b| && forall i :: 0 <= i < |a| ==> !(a[i] && b[i])
    ensures ToNat(Or(a, b)) == ToNat(a) + ToNat(b)
  {
    if a != [] {
      OrOfDisjoint(a[1..], b[1..]);
      assert Or(a, b)[1..] == Or(a[1..], b[1..]);
    }
  }

  /** Swaps the lowest n bits of an index with the next n bits, by the three-xor trick. */
  function RemapWord(n: nat, index: Word): (r: Word)
    ensures |r| == |index|
  {
    var mix := LowBits(Xor(index, ShiftRight(index, n)), n);
    Xor(Xor(index, mix), ShiftLeft(mix, n))
  }

  function RemapIndex(n: nat, index: nat): nat {
    ToNat(RemapWord(n, ToWord(32, index)))
  }

  /** What the three-xor trick computes: the two n-bit groups change places. */
  lemma RemapSwapsGroups(n: nat, w: Word, i: nat)
    requires 2 * n <= |w| && i < |w|
    ensures RemapWord(n, w)[i] == w[if i < n then i + n else if i < 2 * n then i - n else i]
  {
  }

  /** The shuffle is its own inverse and stays inside every power-of-two range
      that holds both bit groups, so it permutes the slots of such a ring. */
  lemma RemapIsInvolution(n: nat, bits: nat, index: nat)
    requires 2 * n <= bits <= 32 && index < Pow2(bits)
    ensures RemapIndex(n, index) < Pow2(bits)
    ensures RemapIndex(n, RemapIndex(n, index)) == index
  {
    var w := ToWord(32, index);
    var r := RemapWord(n, w);
    Pow2Monotone(bits, 32);
    WordRoundTrip(32, index);
    RemapWordInvolution(n, w);
    NatRoundTrip(r);
    BelowMeansClearAbove(w, bits);
    BelowMeansClearAbove(r, bits);
  }

  lemma Pow2Monotone(a: nat, b: nat)
    requires a <= b
    ensures Pow2(a) <= Pow2(b)
  {
    Pow2Add(b - a, a);
    MulBound(Pow2(b - a), Pow2(a));
  }

  lemma RemapWordInvolution(n: nat, w: Word)
    requires 2 * n <= |w|
    ensures RemapWord(n, RemapWord(n, w)) == w
    ensures forall i :: 2 * n <= i < |w| ==> RemapWord(n, w)[i] == w[i]
  {
    var r := RemapWord(n, w);
    forall i | 0 <= i < |w|
      ensures RemapWord(n, r)[i] == w[i]
      ensures i >= 2 * n ==> r[i] == w[i]
    {
      RemapSwapsGroups(n, w, i);
      RemapSwapsGroups(n, r, i);
      RemapSwapsGroups(n, w, if i < n then i + n else if i < 2 * n then i - n else i);
    }
    assert RemapWord(n, r) == w;
  }

  lemma RemapInjective(n: nat, bits: nat, i: nat, j: nat)
    requires 2 * n <= bits <= 32 && i < Pow2(bits) && j < Pow2(bits)
    requires RemapIndex(n, i) == RemapIndex(n, j)
    ensures i == j
  {
    RemapIsInvolution(n, bits, i);
    RemapIsInvolution(n, bits, j);
  }

  // ----- The next power of two

  /** x | x >> u. */
  function OrEqual(x: Word, u: nat): (r: Word)
    ensures |r| == |x|
  {
    Or(x, ShiftRight(x, u))
  }

  /** The or-smearing form, on 32-bit words. */
  function Smeared(w: Word): (r: Word)
    ensures |r| == |w|
  {
    OrEqual(OrEqual(OrEqual(OrEqual(OrEqual(w, 1), 2), 4), 8), 16)
  }

  function RoundUpToPowerOf2(a: nat): nat
    requires 1 <= a <= TWO32
  {
    (ToNat(Smeared(ToWord(32, a - 1))) + 1) % TWO32
  }

  /** One of the n bits from i up is set. */
  predicate Near(w: Word, n: nat, i: nat) { exists j :: i <= j < i + n && j < |w| && w[j] }

  predicate Reaches(w: Word, n: nat, x: Word) { |x| == |w| && forall i :: 0 <= i < |w| ==> x[i] == Near(w, n, i) }

  /** Smearing doubles how far a bit reaches down. */
  lemma OrEqualReaches(w: Word, n: nat, x: Word)
    requires Reaches(w, n, x)
    ensures Reaches(w, 2 * n, OrEqual(x, n))
  {
    var r := OrEqual(x, n);
    forall i | 0 <= i < |w|
      ensures r[i] == Near(w, 2 * n, i)
    {
      assert r[i] == (x[i] || (i + n < |w| && x[i + n]));
      if Near(w, 2 * n, i) {
        var j :| i <= j < i + 2 * n && j < |w| && w[j];
        if j < i + n {
          assert Near(w, n, i);
        } else {
          assert Near(w, n, i + n);
        }
      }
    }
  }

  lemma SmearedReaches(w: Word)
    requires |w| == 32
    ensures Reaches(w, 32, Smeared(w))
  {
    forall i | 0 <= i < |w|
      ensures w[i] == Near(w, 1, i)
    {
      assert Near(w, 1, i) ==> w[i];
    }
    OrEqualReaches(w, 1, w);
    var x2 := OrEqual(w, 1);
    OrEqualReaches(w, 2, x2);
    var x4 := OrEqual(x2, 2);
    OrEqualReaches(w, 4, x4);
    var x8 := OrEqual(x4, 4);
    OrEqualReaches(w, 8, x8);
    OrEqualReaches(w, 16, OrEqual(x8, 8));
  }

  /** The number of bits up to the highest one set. */
  function Width(w: Word): (k: nat)
    ensures k <= |w|
  {
    if w == [] then 0
    else if w[|w| - 1] then |w|
    else Width(w[..|w| - 1])
  }

  lemma {:induction false} WidthIsTop(w: Word)
    ensures Width(w) > 0 ==> w[Width(w) - 1]
    ensures forall i :: Width(w) <= i < |w| ==> !w[i]
  {
    if w != [] && !w[|w| - 1] {
      WidthIsTop(w[..|w| - 1]);
      assert forall i :: 0 <= i < |w| - 1 ==> w[..|w| - 1][i] == w[i];
    }
  }

  /** k ones below zeros. */
  lemma {:induction false} OnesValue(w: Word, k: nat)
    requires k <= |w| && forall i :: 0 <= i < |w| ==> w[i] == (i < k)
    ensures ToNat(w) == Pow2(k) - 1
  {
    if k == 0 {
      ToNatZeros(w);
    } else {
      OnesValue(w[1..], k - 1);
    }
  }

  lemma SmearedValue(w: Word)
    requires |w| == 32
    ensures ToNat(Smeared(w)) == Pow2(Width(w)) - 1
  {
    SmearedReaches(w);
    WidthIsTop(w);
    var k, r := Width(w), Smeared(w);
    forall i | 0 <= i < |w|
      ensures r[i] == (i < k)
    {
      assert i < k ==> w[k - 1];
    }
    OnesValue(r, k);
  }

  /** A word is below 2^j exactly when its width is at most j. */
  lemma WidthBound(w: Word, j: nat)
    requires j <= |w|
    ensures ToNat(w) < Pow2(j) <==> Width(w) <= j
  {
    WidthIsTop(w);
    BelowMeansClearAbove(w, j);
  }

  /** The width is the least exponent whose power is above the word. */
  lemma WidthIsLeast(w: Word, x: nat)
    requires ToNat(w) == x
    ensures x < Pow2(Width(w)) && forall j: nat :: x < Pow2(j) ==> Width(w) <= j
  {
    WidthBound(w, Width(w));
    forall j: nat | x < Pow2(j)
      ensures Width(w) <= j
    {
      if j <= |w| {
        WidthBound(w, j);
      }
    }
  }

  lemma SmearedPlusOne(w: Word)
    requires |w| == 32 && Width(w) <= 31
    ensures (ToNat(Smeared(w)) + 1) % TWO32 == Pow2(Width(w))
  {
    SmearedValue(w);
    Pow2Small(Width(w));
    DivModUnique(Pow2(Width(w)), TWO32, 0, Pow2(Width(w)));
  }

  lemma Pow2Small(k: nat)
    requires k <= 31
    ensures Pow2(k) <= HALF32
  {
    Pow2Of31();
    Pow2Monotone(k, 31);
  }

  lemma BelowHalf(w: Word)
    requires |w| == 32 && ToNat(w) < HALF32
    ensures Width(w) <= 31
  {
    Pow2Of31();
    WidthBound(w, 31);
  }

  /** For 1 <= a <= 2^31 the result is a power of two at or above a, and the least. */
  lemma RoundUpIsLeast(a: nat) returns (k: nat)
    requires 1 <= a <= HALF32
    ensures k <= 31 && RoundUpToPowerOf2(a) == Pow2(k) && a <= Pow2(k)
    ensures forall j: nat :: a <= Pow2(j) ==> k <= j
  {
    var w := ToWord(32, a - 1);
    k := Width(w);
    Pow2Of32();
    WordRoundTrip(32, a - 1);
    WidthIsLeast(w, a - 1);
    BelowHalf(w);
    SmearedPlusOne(w);
  }

  lemma Pow2Of31()
    ensures Pow2(31) == HALF32
  {
    Pow2Of32();
  }
}
