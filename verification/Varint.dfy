/** Base-128 varints and zigzag: struct_pack's loop codec and struct_pb's
    unrolled and short-buffer decoders, all against one definition. */
module Varint {
  import opened Bits
  import opened Bytes

  const TWO64 := 0x1_0000_0000_0000_0000
  const MAX_VARINT_LENGTH := 10

  function Pow128(k: nat): (p: nat)
    ensures p >= 1
  {
    if k == 0 then 1 else 128 * Pow128(k - 1)
  }

  // ----- The definition

  /** The varint of v: seven bits a byte, lowest group first, the high bit set
      on every byte but the last. */
  function Encoded(v: nat): (bs: seq<byte>)
    ensures |bs| >= 1
  {
    if v < 128 then [v] else [v % 128 + 128] + Encoded(v / 128)
  }

  /** The number the seven-bit groups of bs stand for. */
  function Groups(bs: seq<byte>): nat {
    if bs == [] then 0 else bs[0] % 128 + 128 * Groups(bs[1..])
  }

  datatype Decoded = Value(v: nat, used: nat) | Truncated(used: nat) | TooLong(used: nat)

  /** Decoding: the groups up to the first byte below 128, modulo 2^64, if that
      byte is among the first ten. */
  function Decode(bs: seq<byte>): Decoded { DecodeFrom(bs, 0) }

  function DecodeFrom(bs: seq<byte>, k: nat): Decoded
    requires k <= |bs|
    decreases |bs| - k
  {
    if k == MAX_VARINT_LENGTH then TooLong(k)
    else if k == |bs| then Truncated(k)
    else if bs[k] < 128 then Value(Groups(bs[..k + 1]) % TWO64, k + 1)
    else DecodeFrom(bs, k + 1)
  }

  lemma {:induction false} EncodedSize(v: nat, k: nat)
    requires k >= 1
    ensures |Encoded(v)| <= k <==> v < Pow128(k)
  {
    if v >= 128 {
      if k == 1 {
        assert Pow128(1) == 128;
      } else {
        EncodedSize(v / 128, k - 1);
      }
    }
  }

  lemma TenGroups()
    ensures Pow128(9) * 2 == TWO64 && TWO64 < Pow128(10)
  {
    assert Pow128(3) == 0x20_0000;
    assert Pow128(6) == 0x20_0000 * 0x20_0000;
  }

  /** Every 64-bit number takes at most ten bytes. */
  lemma EncodedFits(v: nat)
    requires v < TWO64
    ensures |Encoded(v)| <= MAX_VARINT_LENGTH
  {
    TenGroups();
    EncodedSize(v, 10);
  }

  lemma {:induction false} EncodedGroups(v: nat)
    ensures Groups(Encoded(v)) == v
  {
    var e := Encoded(v);
    if v < 128 {
      assert e[1..] == [];
    } else {
      EncodedGroups(v / 128);
      assert e[1..] == Encoded(v / 128);
    }
  }

  lemma {:induction false} EncodedShape(v: nat, i: nat)
    requires i < |Encoded(v)|
    ensures Encoded(v)[i] < 128 <==> i == |Encoded(v)| - 1
  {
    if v >= 128 && i > 0 {
      EncodedShape(v / 128, i - 1);
      assert Encoded(v)[i] == Encoded(v / 128)[i - 1];
    }
  }

  lemma {:induction false} DecodeSkips(bs: seq<byte>, k: nat, n: nat)
    requires k <= n < |bs| && n < MAX_VARINT_LENGTH
    requires forall i :: k <= i < n ==> bs[i] >= 128
    ensures DecodeFrom(bs, k) == DecodeFrom(bs, n)
    decreases n - k
  {
    if k < n {
      DecodeSkips(bs, k + 1, n);
    }
  }

  /** Round trip: the varint of any 64-bit number, whatever follows it, decodes
      to the number and consumes exactly the varint. */
  lemma DecodeEncoded(v: nat, rest: seq<byte>)
    requires v < TWO64
    ensures Decode(Encoded(v) + rest) == Value(v, |Encoded(v)|)
  {
    var e := Encoded(v);
    var bs := e + rest;
    EncodedFits(v);
    EncodedGroups(v);
    forall i | 0 <= i < |e|
      ensures bs[i] < 128 <==> i == |e| - 1
    {
      EncodedShape(v, i);
    }
    DecodeSkips(bs, 0, |e| - 1);
    assert bs[..|e|] == e;
  }

  /** A proper prefix of a varint is a truncated varint. */
  lemma DecodePrefix(v: nat, n: nat)
    requires v < TWO64 && n < |Encoded(v)|
    ensures Decode(Encoded(v)[..n]) == Truncated(n)
  {
    EncodedFits(v);
    forall i | 0 <= i < n
      ensures Encoded(v)[i] >= 128
    {
      EncodedShape(v, i);
    }
    DecodeRunsOut(Encoded(v)[..n], 0);
  }

  lemma {:induction false} DecodeRunsOut(bs: seq<byte>, k: nat)
    requires k <= |bs| < MAX_VARINT_LENGTH
    requires forall i :: k <= i < |bs| ==> bs[i] >= 128
    ensures DecodeFrom(bs, k) == Truncated(|bs|)
    decreases |bs| - k
  {
    if k < |bs| {
      DecodeRunsOut(bs, k + 1);
    }
  }

  // ----- Shifting a group into a 64-bit word

  /** v | (x << s) on 64-bit words. */
  function OrShifted(v: nat, x: nat, s: nat): nat {
    ToNat(Or(ToWord(64, v), ShiftLeft(ToWord(64, x), s)))
  }

  /** While v fits below the shift, or-ing a group in is adding it, modulo 2^64. */
  lemma OrShiftedIsSum(v: nat, x: nat, s: nat)
    requires s < 64 && v < Pow2(s) && x < TWO64
    ensures OrShifted(v, x, s) == v + (x * Pow2(s)) % TWO64
  {
    var a, b := ToWord(64, v), ShiftLeft(ToWord(64, x), s);
    Pow2Of32();
    Pow2Add(32, 32);
    Pow2Monotone(s, 64);
    WordRoundTrip(64, v);
    WordRoundTrip(64, x);
    BelowMeansClearAbove(a, s);
    ShiftLeftValue(ToWord(64, x), s);
    OrOfDisjoint(a, b);
  }

  lemma {:induction false} Pow128IsPow2(k: nat)
    ensures Pow128(k) == Pow2(7 * k)
  {
    if k > 0 {
      Pow128IsPow2(k - 1);
      Pow2Add(7, 7 * k - 7);
      assert Pow2(7) == 128;
    }
  }

  lemma {:induction false} GroupsAppend(bs: seq<byte>, b: byte)
    ensures Groups(bs) < Pow128(|bs|)
    ensures Groups(bs + [b]) == Groups(bs) + (b % 128) * Pow128(|bs|)
  {
    if bs == [] {
      assert bs + [b] == [b] && [b][1..] == [];
    } else {
      GroupsAppend(bs[1..], b);
      assert (bs + [b])[1..] == bs[1..] + [b];
      assert (b % 128) * Pow128(|bs|) == 128 * ((b % 128) * Pow128(|bs| - 1));
    }
  }

  /** One decoder step: the k-th group lands where the definition puts it. */
  lemma GroupLands(bs: seq<byte>, b: byte)
    requires |bs| < MAX_VARINT_LENGTH
    ensures OrShifted(Groups(bs), b % 128, 7 * |bs|) == Groups(bs + [b]) % TWO64
    ensures |bs| < MAX_VARINT_LENGTH - 1 ==> Groups(bs + [b]) < TWO64
  {
    GroupsAppend(bs, b);
    Pow128IsPow2(|bs|);
    GroupWeight(|bs|);
    OrShiftedGroup(Groups(bs), b % 128, 7 * |bs|, Pow128(|bs|), Groups(bs + [b]));
  }

  lemma OrShiftedGroup(g: nat, x: nat, s: nat, p: nat, sum: nat)
    requires s < 64 && p == Pow2(s) && g < p && x < 128 && (256 * p <= TWO64 || 2 * p == TWO64) && sum == g + x * p
    ensures OrShifted(g, x, s) == sum % TWO64
    ensures 256 * p <= TWO64 ==> sum < TWO64
  {
    OrShiftedIsSum(g, x, s);
    GroupArithmetic(g, x, p);
  }

  lemma GroupWeight(k: nat)
    requires k < MAX_VARINT_LENGTH
    ensures k < 9 ==> 256 * Pow128(k) <= TWO64
    ensures k == 9 ==> 2 * Pow128(k) == TWO64
  {
    TenGroups();
    if k < 9 {
      Pow128Monotone(k + 1, 9);
    }
  }

  lemma GroupArithmetic(g: nat, x: nat, p: nat)
    requires g < p && x < 128 && (256 * p <= TWO64 || 2 * p == TWO64)
    ensures g + (x * p) % TWO64 == (g + x * p) % TWO64
    ensures 256 * p <= TWO64 ==> g + x * p < TWO64
  {
    if 256 * p <= TWO64 {
      SmallGroup(g, x, p);
    } else {
      TopGroup(g, x, p);
    }
  }

  lemma SmallGroup(g: nat, x: nat, p: nat)
    requires g < p && x < 128 && 2 * (128 * p) <= TWO64
    ensures g + x * p < TWO64 && x * p < TWO64
  {
    assert x * p <= 127 * p;
  }

  /** Only one bit of the tenth group survives the shift by 63. */
  lemma TopGroup(g: nat, x: nat, p: nat)
    requires g < p && x < 128 && 2 * p == TWO64
    ensures (x * p) % TWO64 == (x % 2) * p
    ensures (g + x * p) % TWO64 == g + (x % 2) * p
  {
    assert x * p == (x / 2) * TWO64 + (x % 2) * p;
    DivModUnique(x * p, TWO64, x / 2, (x % 2) * p);
    DivModUnique(g + x * p, TWO64, x / 2, g + (x % 2) * p);
  }

  lemma Pow128Monotone(a: nat, b: nat)
    requires a <= b
    ensures Pow128(a) <= Pow128(b)
  {
    Pow128IsPow2(a);
    Pow128IsPow2(b);
    Pow2Monotone(7 * a, 7 * b);
  }

  // ----- The writers

  /** struct_pack::serialize_varint and its struct_pb twin: shift seven bits out at a time. */
  method SerializeVarint(t: nat) returns (out: seq<byte>)
    ensures out == Encoded(t)
  {
    out := [];
    var v := t;
    while v >= 0x80
      invariant out + Encoded(v) == Encoded(t)
    {
      out := out + [v % 128 + 128];
      v := v / 128;
    }
    out := out + [v];
  }

  /** calculate_varint_size: count the shifts. */
  method CalculateVarintSize(t: nat) returns (ret: nat)
    ensures ret == |Encoded(t)|
  {
    ret := 0;
    var v: nat := t;
    while true
      invariant ret + |Encoded(v)| == |Encoded(t)|
      decreases v
    {
      ret := ret + 1;
      v := v / 128;
      if v == 0 {
        break;
      }
    }
  }

  // ----- The decoders

  /** Reading group k of the varint that starts at `start`, when the k groups
      before it all continue. */
  ghost predicate Reading(data: seq<byte>, start: nat, k: nat, val: nat) {
    && start + k <= |data|
    && (forall i :: start <= i < start + k ==> data[i] >= 128)
    && (k < MAX_VARINT_LENGTH ==> val == Groups(data[start..start + k]))
  }

  lemma GroupRead(data: seq<byte>, start: nat, k: nat, val: nat)
    requires Reading(data, start, k, val) && start + k < |data| && k < MAX_VARINT_LENGTH
    ensures var b := data[start + k];
            var val' := OrShifted(val, b % 128, 7 * k);
            && (b >= 128 ==> Reading(data, start, k + 1, val'))
            && (b < 128 ==> Decode(data[start..]) == Value(val', k + 1))
  {
    SliceGrows(data, start, k);
    GroupLands(data[start..start + k], data[start + k]);
    GroupKept(data, start, k, val, OrShifted(val, data[start + k] % 128, 7 * k));
  }

  lemma GroupReadAt(data: seq<byte>, start: nat, k: nat, val: nat, x: nat, shift: nat)
    requires Reading(data, start, k, val) && start + k < |data| && k < MAX_VARINT_LENGTH
    requires x == data[start + k] % 128 && shift == 7 * k
    ensures var val' := OrShifted(val, x, shift);
            && (data[start + k] >= 128 ==> Reading(data, start, k + 1, val'))
            && (data[start + k] < 128 ==> Decode(data[start..]) == Value(val', k + 1))
  {
    GroupRead(data, start, k, val);
  }

  lemma GroupKept(data: seq<byte>, start: nat, k: nat, val: nat, val': nat)
    requires Reading(data, start, k, val) && start + k < |data| && k < MAX_VARINT_LENGTH
    requires val' == Groups(data[start..start + k + 1]) % TWO64
    requires k < MAX_VARINT_LENGTH - 1 ==> Groups(data[start..start + k + 1]) < TWO64
    ensures data[start + k] >= 128 ==> Reading(data, start, k + 1, val')
    ensures data[start + k] < 128 ==> Decode(data[start..]) == Value(val', k + 1)
  {
    SliceGrows(data, start, k);
    if data[start + k] < 128 {
      DecodeSkips(data[start..], 0, k);
    }
  }

  lemma SliceGrows(data: seq<byte>, start: nat, k: nat)
    requires start + k < |data|
    ensures data[start..start + k + 1] == data[start..start + k] + [data[start + k]]
    ensures data[start..][..k + 1] == data[start..start + k] + [data[start + k]]
  {
  }

  /** Masking the tenth byte with 0x01 instead of 0x7f makes no difference at shift 63. */
  lemma TenthGroupBit(bs: seq<byte>, b: byte)
    requires |bs| == 9
    ensures OrShifted(Groups(bs), b % 2, 63) == OrShifted(Groups(bs), b % 128, 63)
  {
    GroupsAppend(bs, b);
    Pow128IsPow2(9);
    GroupWeight(9);
    OneBitAtTop(Groups(bs), b, 63);
  }

  lemma OneBitAtTop(g: nat, b: byte, s: nat)
    requires s == 63 && g < Pow2(s) && 2 * Pow2(s) == TWO64
    ensures OrShifted(g, b % 2, s) == OrShifted(g, b % 128, s)
  {
    OrShiftedIsSum(g, b % 2, s);
    OrShiftedIsSum(g, b % 128, s);
    SameTopBit(g, b, Pow2(s));
  }

  lemma SameTopBit(g: nat, b: byte, p: nat)
    requires g < p && 2 * p == TWO64
    ensures ((b % 2) * p) % TWO64 == ((b % 128) * p) % TWO64
  {
    TopGroup(g, b % 128, p);
    TopGroup(g, b % 2, p);
    assert (b % 128) % 2 == b % 2;
  }

  /** struct_pack::deserialize_varint_impl: at most ten bytes, each or-ed in at seven times its index. */
  method DeserializeVarint(data: seq<byte>, start: nat) returns (r: Decoded)
    requires start <= |data|
    ensures r == Decode(data[start..])
  {
    var v := 0;
    var i := 0;
    while i < MAX_VARINT_LENGTH
      invariant 0 <= i <= MAX_VARINT_LENGTH
      invariant Reading(data, start, i, v)
    {
      if start + i == |data| {
        DecodeRunsOut(data[start..], 0);
        return Truncated(i);
      }
      var now := data[start + i];
      GroupRead(data, start, i, v);
      v := OrShifted(v, now % 128, 7 * i);
      if now < 128 {
        return Value(v, i + 1);
      }
      i := i + 1;
    }
    DecodeOverlong(data[start..], 0);
    return TooLong(i);
  }

  lemma {:induction false} DecodeOverlong(bs: seq<byte>, k: nat)
    requires k <= MAX_VARINT_LENGTH <= |bs|
    requires forall i :: k <= i < MAX_VARINT_LENGTH ==> bs[i] >= 128
    ensures DecodeFrom(bs, k) == TooLong(MAX_VARINT_LENGTH)
    decreases MAX_VARINT_LENGTH - k
  {
    if k < MAX_VARINT_LENGTH {
      DecodeOverlong(bs, k + 1);
    }
  }

  /** One line of struct_pb's unrolled decoder; the tenth keeps a single bit. */
  method TakeGroup(data: seq<byte>, start: nat, k: nat, val: nat) returns (val': nat, stop: bool)
    requires Reading(data, start, k, val) && start + k < |data| && k < MAX_VARINT_LENGTH
    ensures stop ==> Decode(data[start..]) == Value(val', k + 1)
    ensures !stop ==> Reading(data, start, k + 1, val')
  {
    var b := data[start + k];
    GroupRead(data, start, k, val);
    if k == 9 {
      TenthGroupBit(data[start..start + 9], b);
    }
    val' := OrShifted(val, if k == 9 then b % 2 else b % 128, 7 * k);
    stop := b < 128;
  }

  /** struct_pb::decode_varint: a one-byte fast path, the unrolled decoder when
      ten bytes are there, and a loop near the end of the buffer.  It agrees with
      struct_pack's decoder on every byte string: same success, same value modulo
      2^64, same number of bytes consumed, also on failure. */
  method PbDecodeVarint(data: seq<byte>, start: nat) returns (ok: bool, pos: nat, v: nat)
    requires start <= |data|
    ensures var d := Decode(data[start..]);
            ok == d.Value? && pos == start + d.used && (ok ==> v == d.v)
  {
    v := 0;
    if start < |data| && data[start] < 128 {
      assert data[start..][..1] == [data[start]];
      assert Groups([data[start]]) == data[start] + 128 * Groups([data[start]][1..]);
      return true, start + 1, data[start];
    }
    if |data| - start >= MAX_VARINT_LENGTH {
      ok, pos, v := PbUnrolled(data, start);
    } else {
      ok, pos, v := PbSlow(data, start);
    }
  }

  method PbSlow(data: seq<byte>, start: nat) returns (ok: bool, pos: nat, v: nat)
    requires start <= |data| < start + MAX_VARINT_LENGTH
    ensures var d := Decode(data[start..]);
            ok == d.Value? && pos == start + d.used && (ok ==> v == d.v)
  {
    v, pos := 0, start;
    var shift := 0;
    ghost var k: nat := 0;
    while pos != |data| && data[pos] >= 128
      invariant pos == start + k <= |data| && shift == 7 * k
      invariant Reading(data, start, k, v)
      decreases |data| - pos
    {
      GroupReadAt(data, start, k, v, data[pos] % 128, shift);
      v := OrShifted(v, data[pos] % 128, shift);
      shift, pos, k := shift + 7, pos + 1, k + 1;
    }
    ok := pos != |data|;
    if ok {
      GroupReadAt(data, start, k, v, data[pos], shift);
      v := OrShifted(v, data[pos], shift);
      pos := pos + 1;
    } else {
      DecodeRunsOut(data[start..], 0);
    }
  }

  /** Five lines of the unrolled decoder. */
  method TakeFive(data: seq<byte>, start: nat, k: nat, val: nat) returns (val': nat, used: nat, stop: bool)
    requires Reading(data, start, k, val) && start + k + 5 <= |data| && k + 5 <= MAX_VARINT_LENGTH
    ensures stop ==> Decode(data[start..]) == Value(val', used)
    ensures !stop ==> Reading(data, start, k + 5, val')
  {
    val', stop := TakeGroup(data, start, k, val);
    if stop { return val', k + 1, true; }
    val', stop := TakeGroup(data, start, k + 1, val');
    if stop { return val', k + 2, true; }
    val', stop := TakeGroup(data, start, k + 2, val');
    if stop { return val', k + 3, true; }
    val', stop := TakeGroup(data, start, k + 3, val');
    if stop { return val', k + 4, true; }
    val', stop := TakeGroup(data, start, k + 4, val');
    used := k + 5;
  }

  method PbUnrolled(data: seq<byte>, start: nat) returns (ok: bool, pos: nat, v: nat)
    requires start + MAX_VARINT_LENGTH <= |data|
    ensures var d := Decode(data[start..]);
            ok == d.Value? && pos == start + d.used && (ok ==> v == d.v)
  {
    var val, used, stop := TakeFive(data, start, 0, 0);
    if stop { return true, start + used, val; }
    val, used, stop := TakeFive(data, start, 5, val);
    if stop { return true, start + used, val; }
    DecodeOverlong(data[start..], 0);
    return false, start + 10, val;
  }
}
