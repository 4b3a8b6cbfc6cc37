/** Zigzag coding of signed integers, on the bits of two's complement words. */
module Zigzag {
  import opened Bits
  import opened Bytes
  import opened Varint

  predicate InRange(n: nat, t: int) {
    n > 0 && -t <= Pow2(n - 1) && t < Pow2(n - 1)
  }

  /** The n-bit two's complement word of t, and the signed reading of a word. */
  function Twos(n: nat, t: int): Word
    requires InRange(n, t)
  {
    ToWord(n, if t >= 0 then t else t + Pow2(n))
  }

  function Signed(w: Word): int
    requires |w| > 0
  {
    if w[|w| - 1] then ToNat(w) - Pow2(|w|) else ToNat(w)
  }

  function Fill(n: nat, bit: bool): Word { seq(n, _ => bit) }

  /** (t << 1) ^ -(t >> n-1): the negated sign bit is a word of copies of it. */
  function Encode(w: Word): Word
    requires |w| > 0
  {
    Xor(ShiftLeft(w, 1), Fill(|w|, w[|w| - 1]))
  }

  /** (u >> 1) ^ -(u & 1). */
  function Decode(u: Word): Word
    requires |u| > 0
  {
    Xor(ShiftRight(u, 1), Fill(|u|, u[0]))
  }

  lemma SignBit(n: nat, t: int)
    requires InRange(n, t)
    ensures var w := Twos(n, t);
            && (w[n - 1] <==> t < 0)
            && ToNat(w) == (if t >= 0 then t else t + Pow2(n))
            && Signed(w) == t
  {
    var u := if t >= 0 then t else t + Pow2(n);
    WordRoundTrip(n, u);
    SignOf(Twos(n, t), t);
  }

  lemma SignOf(w: Word, t: int)
    requires |w| > 0 && InRange(|w|, t) && ToNat(w) == (if t >= 0 then t else t + Pow2(|w|))
    ensures (w[|w| - 1] <==> t < 0) && Signed(w) == t
  {
    TopBit(w);
  }

  lemma TopBit(w: Word)
    requires |w| > 0
    ensures w[|w| - 1] <==> ToNat(w) >= Pow2(|w| - 1)
  {
    BelowMeansClearAbove(w, |w| - 1);
  }

  lemma {:induction false} Complement(w: Word)
    ensures ToNat(Xor(w, Fill(|w|, true))) == Pow2(|w|) - 1 - ToNat(w)
  {
    if w != [] {
      Complement(w[1..]);
      assert Xor(w, Fill(|w|, true))[1..] == Xor(w[1..], Fill(|w| - 1, true));
    }
  }

  /** The bit trick computes the zigzag of the Protocol Buffers Encoding guide,
      section "Signed Integers": 0, -1, 1, -2, 2, ... become 0, 1, 2, 3, 4, ... */
  lemma EncodeMeaning(n: nat, t: int)
    requires InRange(n, t)
    ensures ToNat(Encode(Twos(n, t))) == (if t >= 0 then 2 * t else -2 * t - 1)
  {
    var w := Twos(n, t);
    SignBit(n, t);
    ShiftLeftValue(w, 1);
    DoubledRemainder(t, Pow2(n), ToNat(w));
    Complement(ShiftLeft(w, 1));
    if t >= 0 {
      assert Encode(w) == ShiftLeft(w, 1);
    }
  }

  lemma DoubledRemainder(t: int, p: int, u: int)
    requires -p <= 2 * t < p && u == (if t >= 0 then t else t + p)
    ensures (u * 2) % p == (if t >= 0 then 2 * t else 2 * t + p)
  {
    DivModUnique(u * 2, p, if t >= 0 then 0 else 1, if t >= 0 then 2 * t else 2 * t + p);
  }

  /** Widening a word with zeros. */
  lemma ZeroExtend(w: Word, m: nat)
    requires |w| <= m
    ensures ToWord(m, ToNat(w)) == w + Fill(m - |w|, false)
  {
    var wide := w + Fill(m - |w|, false);
    ToNatConcat(w, Fill(m - |w|, false));
    ToNatZeros(Fill(m - |w|, false));
    NatRoundTrip(wide);
  }

  lemma UndoBits(w: Word, u: Word)
    requires 0 < |w| <= |u| && u == Encode(w) + Fill(|u| - |w|, false)
    ensures Decode(u)[..|w|] == w
  {
    forall i | 0 <= i < |w|
      ensures Decode(u)[i] == w[i]
    {
      assert u[0] == w[|w| - 1];
      assert i < |w| - 1 ==> u[i + 1] == (w[i] != w[|w| - 1]);
    }
  }

  /** An n-bit signed number zigzagged in n bits, sent as a 64-bit varint, decoded
      in 64 bits and narrowed again, as struct_pack does for int32 and int64. */
  lemma NarrowRoundTrip(n: nat, t: int)
    requires InRange(n, t) && n <= 64
    ensures Signed(Decode(ToWord(64, ToNat(Encode(Twos(n, t)))))[..n]) == t
  {
    var w := Twos(n, t);
    var e := Encode(w);
    ZeroExtend(e, 64);
    UndoBits(w, ToWord(64, ToNat(e)));
    SignBit(n, t);
  }

  /** The zigzagged number of an intN_t. */
  function SintCode(n: nat, t: int): nat
    requires InRange(n, t)
  {
    ToNat(Encode(Twos(n, t)))
  }

  /** serialize_varint on sint<intN_t>. */
  function SintBytes(n: nat, t: int): seq<byte>
    requires InRange(n, t)
  {
    Encoded(SintCode(n, t))
  }

  /** deserialize_varint into sint<intN_t>: decode in 64 bits, then narrow. */
  function SintValue(n: nat, v: nat): int
    requires 0 < n <= 64
  {
    Signed(Decode(ToWord(64, v))[..n])
  }

  lemma SintCodeFits(n: nat, t: int)
    requires InRange(n, t) && n <= 64
    ensures SintCode(n, t) < TWO64
  {
    NatRoundTrip(Encode(Twos(n, t)));
    WordBound(n);
  }

  lemma WordBound(bits: nat)
    requires bits <= 64
    ensures Pow2(bits) <= TWO64
  {
    Pow2Monotone(bits, 64);
    Pow2Of32();
    Pow2Add(32, 32);
  }

  /** Every int32 and int64 survives the zigzag varint, whatever follows it. */
  lemma SintRoundTrip(n: nat, t: int, rest: seq<byte>)
    requires InRange(n, t) && n <= 64
    ensures Varint.Decode(SintBytes(n, t) + rest) == Value(SintCode(n, t), |SintBytes(n, t)|)
    ensures SintValue(n, SintCode(n, t)) == t
  {
    NarrowRoundTrip(n, t);
    SintCodeFits(n, t);
    DecodeEncoded(SintCode(n, t), rest);
  }
}
