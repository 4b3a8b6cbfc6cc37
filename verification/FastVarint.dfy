/** struct_pack's "fast varint" group: a bitset that says which integers of a
    struct are non-zero and how wide they are, then the non-zero ones at one
    shared width. */
module FastVarint {
  import opened Bits
  import opened Bytes

  /** The declared type of one member: 4 or 8 bytes, signed or not. */
  datatype Kind = Kind(size: nat, signed: bool)

  predicate KindOk(k: Kind) { k.size == 4 || k.size == 8 }

  predicate Fits(k: Kind, v: int) {
    if k.signed then -2 * v <= Pow256(k.size) && 2 * v < Pow256(k.size)
    else 0 <= v < Pow256(k.size)
  }

  predicate GroupOk(ks: seq<Kind>, vs: seq<int>) {
    && |ks| == |vs|
    && forall i :: 0 <= i < |ks| ==> KindOk(ks[i]) && Fits(ks[i], vs[i])
  }

  // ----- The shared width

  function Max(a: int, b: int): int { if a < b then b else a }

  function Min(a: int, b: int): int { if a < b then a else b }

  /** The number that decides how many bytes a member needs. */
  function Magnitude(v: int): int { if v > 0 then v else -(v + 1) }

  /** The largest unsigned value and the largest signed magnitude; zeros do not take part. */
  function UnsignedMax(ks: seq<Kind>, vs: seq<int>): int
    requires |ks| == |vs|
  {
    if ks == [] then 0
    else
      var n := |ks| - 1;
      var m := UnsignedMax(ks[..n], vs[..n]);
      if vs[n] != 0 && !ks[n].signed then Max(m, vs[n]) else m
  }

  function SignedMax(ks: seq<Kind>, vs: seq<int>): int
    requires |ks| == |vs|
  {
    if ks == [] then 0
    else
      var n := |ks| - 1;
      var m := SignedMax(ks[..n], vs[..n]);
      if vs[n] != 0 && ks[n].signed then Max(m, Magnitude(vs[n])) else m
  }

  /** 0, 1, 2 or 3 for one, two, four or eight bytes. */
  function WidthCode(unsignedMax: int, signedMax: int): (code: nat)
    ensures code <= 3
  {
    var u := if unsignedMax <= 0xFF then 0 else if unsignedMax <= 0xFFFF then 1
             else if unsignedMax <= 0xFFFF_FFFF then 2 else 3;
    var s := if signedMax <= 0x7F then 0 else if signedMax <= 0x7FFF then 1
             else if signedMax <= 0x7FFF_FFFF then 2 else 3;
    Max(u, s)
  }

  function Code(ks: seq<Kind>, vs: seq<int>): nat
    requires |ks| == |vs|
  {
    WidthCode(UnsignedMax(ks, vs), SignedMax(ks, vs))
  }

  function Width(code: nat): nat {
    if code == 0 then 1 else if code == 1 then 2 else if code == 2 then 4 else 8
  }

  lemma Pow256Values()
    ensures Pow256(1) == 0x100 && Pow256(2) == 0x1_0000 && Pow256(4) == 0x1_0000_0000
    ensures Pow256(8) == 0x1_0000_0000_0000_0000
  {
    assert Pow256(4) == 0x1_0000_0000;
  }

  lemma {:induction false} MaxCovers(ks: seq<Kind>, vs: seq<int>, i: nat)
    requires |ks| == |vs| && i < |ks| && vs[i] != 0
    ensures !ks[i].signed ==> vs[i] <= UnsignedMax(ks, vs)
    ensures ks[i].signed ==> Magnitude(vs[i]) <= SignedMax(ks, vs)
  {
    var n := |ks| - 1;
    if i < n {
      MaxCovers(ks[..n], vs[..n], i);
    }
  }

  /** The value survives being stored in w bytes, or in the member's own size where that is less. */
  predicate HeldAt(k: Kind, v: int, w: nat) { Fits(Kind(Min(w, k.size), k.signed), v) }

  /** The shared width, cut to the member's own size, holds every member. */
  lemma WidthHolds(ks: seq<Kind>, vs: seq<int>, i: nat)
    requires GroupOk(ks, vs) && i < |ks| && vs[i] != 0
    ensures HeldAt(ks[i], vs[i], Width(Code(ks, vs)))
  {
    Pow256Values();
    MaxCovers(ks, vs, i);
  }

  /** Members that all fit a width keep both maxima below its bounds. */
  lemma {:induction false} FitsBoundMax(ks: seq<Kind>, vs: seq<int>, w: nat)
    requires |ks| == |vs|
    requires forall i :: 0 <= i < |ks| && vs[i] != 0 ==> Fits(Kind(w, ks[i].signed), vs[i])
    ensures UnsignedMax(ks, vs) < Pow256(w)
    ensures SignedMax(ks, vs) == 0 || 2 * SignedMax(ks, vs) < Pow256(w)
  {
    if ks != [] {
      var n := |ks| - 1;
      assert vs[n] != 0 ==> Fits(Kind(w, ks[n].signed), vs[n]);
      FitsBoundMax(ks[..n], vs[..n], w);
    }
  }

  /** The shared width is the least of 1, 2, 4 and 8 bytes that holds every
      non-zero member, each cut to its own size: a width is at least the one
      chosen if and only if it holds them all. */
  lemma WidthIsLeast(ks: seq<Kind>, vs: seq<int>, w: nat)
    requires GroupOk(ks, vs) && (w == 1 || w == 2 || w == 4 || w == 8)
    ensures Width(Code(ks, vs)) <= w <==> forall i :: 0 <= i < |ks| && vs[i] != 0 ==> HeldAt(ks[i], vs[i], w)
  {
    Pow256Values();
    if Width(Code(ks, vs)) <= w {
      forall i | 0 <= i < |ks| && vs[i] != 0
        ensures HeldAt(ks[i], vs[i], w)
      {
        WidthHolds(ks, vs, i);
        WiderHolds(ks[i], vs[i], Width(Code(ks, vs)), w);
      }
    } else {
      if forall i :: 0 <= i < |ks| && vs[i] != 0 ==> HeldAt(ks[i], vs[i], w) {
        FitsBoundMax(ks, vs, w);
      }
    }
  }

  lemma WiderHolds(k: Kind, v: int, w: nat, w': nat)
    requires KindOk(k) && HeldAt(k, v, w) && 1 <= w <= w'
    requires (w == 1 || w == 2 || w == 4 || w == 8) && (w' == 1 || w' == 2 || w' == 4 || w' == 8)
    ensures HeldAt(k, v, w')
  {
    Pow256Values();
  }

  lemma {:induction false} MaxBounded(ks: seq<Kind>, vs: seq<int>)
    requires GroupOk(ks, vs) && forall i :: 0 <= i < |ks| ==> ks[i].size == 4
    ensures UnsignedMax(ks, vs) <= 0xFFFF_FFFF && SignedMax(ks, vs) <= 0x7FFF_FFFF
  {
    if ks != [] {
      Pow256Values();
      var n := |ks| - 1;
      assert Fits(ks[n], vs[n]);
      MaxBounded(ks[..n], vs[..n]);
    }
  }

  /** The branch the packer marks unreachable is: eight bytes are chosen only
      when some member has eight. */
  lemma EightBytesNeed64Bits(ks: seq<Kind>, vs: seq<int>)
    requires GroupOk(ks, vs) && Code(ks, vs) == 3
    ensures exists i :: 0 <= i < |ks| && ks[i].size == 8
  {
    if forall i :: 0 <= i < |ks| ==> ks[i].size == 4 {
      MaxBounded(ks, vs);
    }
  }

  // ----- The bitset

  /** The bits of byte j of a bitset: bit i is bit i % 8 of byte i / 8. */
  function Octet(bits: seq<bool>, j: nat): (w: Word)
    ensures |w| == 8
  {
    seq(8, k requires 0 <= k < 8 => 8 * j + k < |bits| && bits[8 * j + k])
  }

  function BitsetByte(bits: seq<bool>, j: nat): byte {
    ByteOfWord(Octet(bits, j));
    ToNat(Octet(bits, j))
  }

  lemma ByteOfWord(w: Word)
    requires |w| == 8
    ensures ToNat(w) < 256
  {
    NatRoundTrip(w);
    assert Pow2(8) == 256;
  }

  function Bitset(bits: seq<bool>): seq<byte> {
    seq((|bits| + 7) / 8, j requires 0 <= j => BitsetByte(bits, j))
  }

  predicate TestBit(bs: seq<byte>, i: nat)
    requires i / 8 < |bs|
  {
    ToWord(8, bs[i / 8])[i % 8]
  }

  function BitsOf(bs: seq<byte>, n: nat): (bits: seq<bool>)
    requires n <= 8 * |bs|
    ensures |bits| == n
  {
    seq(n, i requires 0 <= i < n => TestBit(bs, i))
  }

  /** b | (1 << k) on a byte. */
  function SetBit(b: byte, k: nat): byte
    requires k < 8
  {
    ByteOfWord(ToWord(8, b)[k := true]);
    ToNat(ToWord(8, b)[k := true])
  }

  lemma BitsetReads(bits: seq<bool>, i: nat)
    requires i < |bits|
    ensures TestBit(Bitset(bits), i) == bits[i]
  {
    NatRoundTrip(Octet(bits, i / 8));
    OctetAt(bits, i);
  }

  lemma OctetAt(bits: seq<bool>, i: nat)
    requires i < |bits|
    ensures Octet(bits, i / 8)[i % 8] == bits[i]
  {
    assert 8 * (i / 8) + i % 8 == i;
  }

  lemma BitsetRoundTrip(bits: seq<bool>)
    ensures BitsOf(Bitset(bits), |bits|) == bits
  {
    forall i | 0 <= i < |bits|
      ensures TestBit(Bitset(bits), i) == bits[i]
    {
      BitsetReads(bits, i);
    }
  }

  lemma OctetUpdate(bits: seq<bool>, i: nat, j: nat)
    requires i < |bits|
    ensures Octet(bits[i := true], j) == if j == i / 8 then Octet(bits, j)[i % 8 := true] else Octet(bits, j)
  {
    forall k | 0 <= k < 8
      ensures Octet(bits[i := true], j)[k] == (Octet(bits, j)[k] || (j == i / 8 && k == i % 8))
    {
      assert 8 * j + k == i <==> j == i / 8 && k == i % 8;
    }
  }

  /** Setting one bit in place is setting it in the list of bits. */
  lemma BitsetUpdate(bits: seq<bool>, i: nat)
    requires i < |bits|
    ensures Bitset(bits[i := true]) == Bitset(bits)[i / 8 := SetBit(Bitset(bits)[i / 8], i % 8)]
  {
    var now := Bitset(bits)[i / 8 := SetBit(Bitset(bits)[i / 8], i % 8)];
    forall j | 0 <= j < |now|
      ensures Bitset(bits[i := true])[j] == now[j]
    {
      OctetUpdate(bits, i, j);
      NatRoundTrip(Octet(bits, j));
    }
  }

  // ----- The bytes of a group

  /** One bit a member, then the two bits of the width code. */
  function Flags(vs: seq<int>, code: nat): (bits: seq<bool>)
    ensures |bits| == |vs| + 2
  {
    seq(|vs|, i requires 0 <= i < |vs| => vs[i] != 0) + [code % 2 == 1, code / 2 % 2 == 1]
  }

  /** A non-zero member at the shared width, cut to its own size. */
  function FieldBytes(k: Kind, v: int, width: nat): seq<byte> {
    if v == 0 then [] else
      var cut := Min(width, k.size);
      LittleEndian(v % Pow256(cut), cut)
  }

  function FieldsBytes(ks: seq<Kind>, vs: seq<int>, width: nat): seq<byte>
    requires |ks| == |vs|
  {
    if ks == [] then [] else FieldBytes(ks[0], vs[0], width) + FieldsBytes(ks[1..], vs[1..], width)
  }

  function Serialized(ks: seq<Kind>, vs: seq<int>): seq<byte>
    requires |ks| == |vs|
  {
    if ks == [] then []
    else Bitset(Flags(vs, Code(ks, vs))) + FieldsBytes(ks, vs, Width(Code(ks, vs)))
  }

  datatype Outcome = Outcome(code: Errc, vs: seq<int>, rest: seq<byte>)

  /** The value of the low bytes of a member, sign-extended for a signed one. */
  function FieldValue(k: Kind, bs: seq<byte>): int {
    var n := FromLittleEndian(bs);
    if k.signed && 2 * n >= Pow256(|bs|) then n - Pow256(|bs|) else n
  }

  /** Reading the members from index i on; a clear bit leaves the target alone,
      and an unsigned member is zeroed before it is read. */
  function DecodeFields(ks: seq<Kind>, vs: seq<int>, flags: seq<bool>, i: nat, width: nat, rest: seq<byte>): Outcome
    requires i <= |ks| == |vs| <= |flags|
    decreases |ks| - i
  {
    if i == |ks| then Outcome(Ok, vs, rest)
    else if !flags[i] then DecodeFields(ks, vs, flags, i + 1, width, rest)
    else
      var cut := Min(width, ks[i].size);
      if |rest| < cut then Outcome(NoBufferSpace, if ks[i].signed then vs else vs[i := 0], rest)
      else DecodeFields(ks, vs[i := FieldValue(ks[i], rest[..cut])], flags, i + 1, width, rest[cut..])
  }

  predicate Has64(ks: seq<Kind>) { exists i :: 0 <= i < |ks| && ks[i].size == 8 }

  function CodeOf(flags: seq<bool>): nat
    requires |flags| >= 2
  {
    (if flags[|flags| - 2] then 1 else 0) + (if flags[|flags| - 1] then 2 else 0)
  }

  function Deserialized(ks: seq<Kind>, target: seq<int>, bs: seq<byte>): Outcome
    requires |ks| == |target|
  {
    var n := (|ks| + 9) / 8;
    if |bs| < n then Outcome(NoBufferSpace, target, bs)
    else
      var flags := BitsOf(bs[..n], |ks| + 2);
      var code := CodeOf(flags);
      if code == 3 && !Has64(ks) then Outcome(InvalidBuffer, target, bs[n..])
      else DecodeFields(ks, target, flags, 0, Width(code), bs[n..])
  }

  lemma FieldRoundTrip(k: Kind, cut: nat, v: int)
    requires Fits(Kind(cut, k.signed), v)
    ensures FieldValue(k, LittleEndian(v % Pow256(cut), cut)) == v
  {
    var p := Pow256(cut);
    Residue(v, p);
    LittleEndianRoundTrip(v % p, cut);
  }

  /** The residue of a number within one modulus of zero. */
  lemma Residue(v: int, p: int)
    requires p > 0 && -p <= v < p
    ensures v % p == if v >= 0 then v else v + p
  {
    if v >= 0 {
      DivModUnique(v, p, 0, v);
    } else {
      DivModUnique(v, p, -1, v + p);
    }
  }

  /** What reading a group leaves: its non-zero members, and elsewhere what was there. */
  function Merged(vs: seq<int>, target: seq<int>): (r: seq<int>)
    requires |vs| == |target|
    ensures |r| == |vs|
  {
    seq(|vs|, i requires 0 <= i < |vs| => if vs[i] != 0 then vs[i] else target[i])
  }

  lemma {:induction false} FieldsRoundTrip(ks: seq<Kind>, vs: seq<int>, target: seq<int>, now: seq<int>,
    flags: seq<bool>, i: nat, width: nat, tail: seq<byte>)
    requires i <= |ks| == |vs| == |target| == |now| <= |flags|
    requires forall j :: i <= j < |ks| ==> flags[j] == (vs[j] != 0)
    requires forall j :: i <= j < |ks| && vs[j] != 0 ==> HeldAt(ks[j], vs[j], width)
    requires forall j :: 0 <= j < |ks| ==> now[j] == if j < i then Merged(vs, target)[j] else target[j]
    ensures DecodeFields(ks, now, flags, i, width, FieldsBytes(ks[i..], vs[i..], width) + tail)
         == Outcome(Ok, Merged(vs, target), tail)
    decreases |ks| - i
  {
    if i == |ks| {
      assert now == Merged(vs, target) && FieldsBytes(ks[i..], vs[i..], width) + tail == tail;
    } else {
      FieldsBytesStep(ks, vs, i, width, tail);
      if vs[i] == 0 {
        FieldsRoundTrip(ks, vs, target, now, flags, i + 1, width, tail);
      } else {
        FieldRoundTrip(ks[i], Min(width, ks[i].size), vs[i]);
        FieldsRoundTrip(ks, vs, target, now[i := vs[i]], flags, i + 1, width, tail);
      }
    }
  }

  /** The bytes from member i on begin with its own. */
  lemma FieldsBytesStep(ks: seq<Kind>, vs: seq<int>, i: nat, width: nat, tail: seq<byte>)
    requires i < |ks| == |vs|
    ensures var rest := FieldsBytes(ks[i..], vs[i..], width) + tail;
            var own := FieldBytes(ks[i], vs[i], width);
            && |own| <= |rest| && rest[..|own|] == own
            && rest[|own|..] == FieldsBytes(ks[i + 1..], vs[i + 1..], width) + tail
            && (own == [] ==> rest == FieldsBytes(ks[i + 1..], vs[i + 1..], width) + tail)
  {
    assert ks[i..][1..] == ks[i + 1..] && vs[i..][1..] == vs[i + 1..];
    SplitHead(FieldBytes(ks[i], vs[i], width), FieldsBytes(ks[i + 1..], vs[i + 1..], width), tail);
  }

  function Zeros(n: nat): seq<int> { seq(n, _ => 0) }

  lemma BodyRoundTrip(ks: seq<Kind>, vs: seq<int>, target: seq<int>, tail: seq<byte>)
    requires GroupOk(ks, vs) && |target| == |ks|
    ensures var code := Code(ks, vs);
            && (code == 3 ==> Has64(ks))
            && DecodeFields(ks, target, Flags(vs, code), 0, Width(code), FieldsBytes(ks, vs, Width(code)) + tail)
               == Outcome(Ok, Merged(vs, target), tail)
  {
    var code := Code(ks, vs);
    forall i | 0 <= i < |ks| && vs[i] != 0
      ensures HeldAt(ks[i], vs[i], Width(code))
    {
      WidthHolds(ks, vs, i);
    }
    if code == 3 {
      EightBytesNeed64Bits(ks, vs);
    }
    assert ks[0..] == ks && vs[0..] == vs;
    FieldsRoundTrip(ks, vs, target, target, Flags(vs, code), 0, Width(code), tail);
  }

  /** Reading a group into any target: the non-zero members arrive, the others
      keep what the target had. */
  lemma GroupReads(ks: seq<Kind>, vs: seq<int>, target: seq<int>, tail: seq<byte>)
    requires GroupOk(ks, vs) && ks != [] && |target| == |ks|
    ensures Deserialized(ks, target, Serialized(ks, vs) + tail) == Outcome(Ok, Merged(vs, target), tail)
  {
    var bits := Flags(vs, Code(ks, vs));
    BitsetRoundTrip(bits);
    CodeRoundTrip(vs, Code(ks, vs));
    BodyRoundTrip(ks, vs, target, tail);
    SplitHead(Bitset(bits), FieldsBytes(ks, vs, Width(Code(ks, vs))), tail);
  }

  /** Round trip of every group, of any length and mix, into a zeroed target. */
  lemma GroupRoundTrip(ks: seq<Kind>, vs: seq<int>, tail: seq<byte>)
    requires GroupOk(ks, vs) && ks != []
    ensures Deserialized(ks, Zeros(|ks|), Serialized(ks, vs) + tail) == Outcome(Ok, vs, tail)
  {
    GroupReads(ks, vs, Zeros(|ks|), tail);
    assert Merged(vs, Zeros(|ks|)) == vs;
  }

  /** The exact condition on the target: it must be zero where the group is. */
  lemma GroupRoundTripIff(ks: seq<Kind>, vs: seq<int>, target: seq<int>, tail: seq<byte>)
    requires GroupOk(ks, vs) && ks != [] && |target| == |ks|
    ensures Deserialized(ks, target, Serialized(ks, vs) + tail) == Outcome(Ok, vs, tail)
            <==> forall i :: 0 <= i < |ks| && vs[i] == 0 ==> target[i] == 0
  {
    GroupReads(ks, vs, target, tail);
    var m := Merged(vs, target);
    assert m == vs <==> forall i :: 0 <= i < |ks| ==> m[i] == vs[i];
  }

  lemma {:induction false} FieldsCode(
      ks: seq<Kind>, vs: seq<int>, flags: seq<bool>, i: nat, width: nat, rest: seq<byte>)
    requires i <= |ks| == |vs| <= |flags|
    ensures var code := DecodeFields(ks, vs, flags, i, width, rest).code; code == Ok || code == NoBufferSpace
    decreases |ks| - i
  {
    if i < |ks| {
      var cut := Min(width, ks[i].size);
      if !flags[i] {
        FieldsCode(ks, vs, flags, i + 1, width, rest);
      } else if cut <= |rest| {
        FieldsCode(ks, vs[i := FieldValue(ks[i], rest[..cut])], flags, i + 1, width, rest[cut..]);
      }
    }
  }

  /** Bytes are refused as invalid exactly when they announce eight bytes, by the
      two bits behind the members', for a group without a 64-bit member. */
  lemma InvalidGroupIff(ks: seq<Kind>, target: seq<int>, bs: seq<byte>)
    requires |ks| == |target|
    ensures Deserialized(ks, target, bs).code == InvalidBuffer
            <==> |bs| >= (|ks| + 9) / 8 && TestBit(bs, |ks|) && TestBit(bs, |ks| + 1) && !Has64(ks)
  {
    var n := (|ks| + 9) / 8;
    if |bs| >= n {
      var flags := BitsOf(bs[..n], |ks| + 2);
      assert flags[|ks|] == TestBit(bs, |ks|) && flags[|ks| + 1] == TestBit(bs, |ks| + 1);
      FieldsCode(ks, target, flags, 0, Width(CodeOf(flags)), bs[n..]);
    }
  }

  lemma CodeRoundTrip(vs: seq<int>, code: nat)
    requires code <= 3
    ensures CodeOf(Flags(vs, code)) == code
  {
  }

  lemma SplitHead(head: seq<byte>, body: seq<byte>, tail: seq<byte>)
    ensures (head + body + tail)[..|head|] == head
    ensures (head + body + tail)[|head|..] == body + tail
  {
  }

  // ----- Short and arbitrary input

  /** What is left is a suffix of the input, and the target keeps its length. */
  lemma {:induction false} FieldsLeaveSuffix(
      ks: seq<Kind>, vs: seq<int>, flags: seq<bool>, i: nat, width: nat, rest: seq<byte>)
    requires i <= |ks| == |vs| <= |flags|
    ensures var r := DecodeFields(ks, vs, flags, i, width, rest);
            |r.vs| == |ks| && |r.rest| <= |rest| && r.rest == rest[|rest| - |r.rest|..]
    decreases |ks| - i
  {
    if i < |ks| {
      var cut := Min(width, ks[i].size);
      if !flags[i] {
        FieldsLeaveSuffix(ks, vs, flags, i + 1, width, rest);
      } else if cut <= |rest| {
        FieldsLeaveSuffix(ks, vs[i := FieldValue(ks[i], rest[..cut])], flags, i + 1, width, rest[cut..]);
      }
    }
  }

  lemma GroupLeavesSuffix(ks: seq<Kind>, target: seq<int>, bs: seq<byte>)
    requires |ks| == |target|
    ensures var r := Deserialized(ks, target, bs);
            |r.vs| == |ks| && |r.rest| <= |bs| && r.rest == bs[|bs| - |r.rest|..]
  {
    var n := (|ks| + 9) / 8;
    if n <= |bs| {
      var flags := BitsOf(bs[..n], |ks| + 2);
      FieldsLeaveSuffix(ks, target, flags, 0, Width(CodeOf(flags)), bs[n..]);
    }
  }

  lemma {:induction false} FieldsCut(
      ks: seq<Kind>, vs: seq<int>, now: seq<int>, flags: seq<bool>, i: nat, width: nat, rest: seq<byte>)
    requires i <= |ks| == |vs| == |now| <= |flags|
    requires forall j :: i <= j < |ks| ==> flags[j] == (vs[j] != 0)
    requires var all := FieldsBytes(ks[i..], vs[i..], width); |rest| < |all| && rest == all[..|rest|]
    ensures DecodeFields(ks, now, flags, i, width, rest).code == NoBufferSpace
    decreases |ks| - i
  {
    var all := FieldsBytes(ks[i..], vs[i..], width);
    FieldsBytesStep(ks, vs, i, width, []);
    assert all + [] == all;
    var own := FieldBytes(ks[i], vs[i], width);
    var next := FieldsBytes(ks[i + 1..], vs[i + 1..], width);
    assert next + [] == next;
    if vs[i] == 0 {
      FieldsCut(ks, vs, now, flags, i + 1, width, rest);
    } else if |own| <= |rest| {
      assert rest[|own|..] == all[|own|..][..|rest| - |own|];
      FieldsCut(ks, vs, now[i := FieldValue(ks[i], rest[..|own|])], flags, i + 1, width, rest[|own|..]);
    }
  }

  /** Every strict prefix of a group is refused for want of bytes. */
  lemma GroupCut(ks: seq<Kind>, vs: seq<int>, bs: seq<byte>)
    requires GroupOk(ks, vs) && ks != []
    requires |bs| < |Serialized(ks, vs)| && bs == Serialized(ks, vs)[..|bs|]
    ensures Deserialized(ks, Zeros(|ks|), bs).code == NoBufferSpace
  {
    var code := Code(ks, vs);
    var bits := Flags(vs, code);
    var head, body := Bitset(bits), FieldsBytes(ks, vs, Width(code));
    if |head| <= |bs| {
      SplitCut(head, body, bs);
      BitsetRoundTrip(bits);
      CodeRoundTrip(vs, code);
      BodyCut(ks, vs, bs[|head|..]);
    }
  }

  lemma SplitCut(head: seq<byte>, body: seq<byte>, bs: seq<byte>)
    requires |head| <= |bs| < |head + body| && bs == (head + body)[..|bs|]
    ensures bs[..|head|] == head && bs[|head|..] == body[..|bs| - |head|]
  {
  }

  lemma BodyCut(ks: seq<Kind>, vs: seq<int>, rest: seq<byte>)
    requires GroupOk(ks, vs)
    requires var body := FieldsBytes(ks, vs, Width(Code(ks, vs))); |rest| < |body| && rest == body[..|rest|]
    ensures var code := Code(ks, vs);
            && (code == 3 ==> Has64(ks))
            && DecodeFields(ks, Zeros(|ks|), Flags(vs, code), 0, Width(code), rest).code == NoBufferSpace
  {
    var code := Code(ks, vs);
    if code == 3 {
      EightBytesNeed64Bits(ks, vs);
    }
    assert ks[0..] == ks && vs[0..] == vs;
    FieldsCut(ks, vs, Zeros(|ks|), Flags(vs, code), 0, Width(code), rest);
  }

  // ----- The sizer

  function CountNonZero(ks: seq<Kind>, vs: seq<int>, size: nat): nat
    requires |ks| == |vs|
  {
    if ks == [] then 0
    else (if vs[0] != 0 && ks[0].size == size then 1 else 0) + CountNonZero(ks[1..], vs[1..], size)
  }

  lemma {:induction false} FieldsSize(ks: seq<Kind>, vs: seq<int>, width: nat)
    requires |ks| == |vs| && forall i :: 0 <= i < |ks| ==> KindOk(ks[i])
    requires width <= 8
    ensures |FieldsBytes(ks, vs, width)|
         == width * CountNonZero(ks, vs, 8) + Min(width, 4) * CountNonZero(ks, vs, 4)
  {
    if ks != [] {
      FieldsSize(ks[1..], vs[1..], width);
      assert KindOk(ks[0]);
      MulStep(width, CountNonZero(ks[1..], vs[1..], 8));
      MulStep(Min(width, 4), CountNonZero(ks[1..], vs[1..], 4));
    }
  }

  lemma MulStep(w: int, c: int)
    ensures w * (c + 1) == w * c + w
  {
  }

  function SizeOf(ks: seq<Kind>, vs: seq<int>): nat
    requires |ks| == |vs|
  {
    if ks == [] then 0 else
      var width := Width(Code(ks, vs));
      width * CountNonZero(ks, vs, 8) + Min(width, 4) * CountNonZero(ks, vs, 4) + (|ks| + 9) / 8
  }

  /** The computed size is the number of bytes emitted. */
  lemma SizeIsExact(ks: seq<Kind>, vs: seq<int>)
    requires GroupOk(ks, vs)
    ensures |Serialized(ks, vs)| == SizeOf(ks, vs)
  {
    FieldsSize(ks, vs, Width(Code(ks, vs)));
  }

  // ----- The loops

  lemma PrefixStep(ks: seq<Kind>, vs: seq<int>, i: nat)
    requires i < |ks| == |vs|
    ensures ks[..i + 1][..i] == ks[..i] && vs[..i + 1][..i] == vs[..i]
  {
  }

  /** get_fast_varint_width of the packer: one pass over the members that fills
      the bitset in place and tracks the two maxima. */
  method ScanMembers(ks: seq<Kind>, vs: seq<int>, vec: array<byte>) returns (width: nat)
    requires GroupOk(ks, vs) && vec[..] == Bitset(Flags(Zeros(|ks|), 0))
    modifies vec
    ensures width == Code(ks, vs)
    ensures vec[..] == Bitset(Flags(vs, 0))
  {
    var unsignedMax, signedMax := 0, 0;
    ghost var bits := Flags(Zeros(|ks|), 0);
    for i := 0 to |ks|
      invariant |bits| == |ks| + 2 && vec[..] == Bitset(bits)
      invariant forall j :: 0 <= j < |bits| ==> bits[j] == (j < i && vs[j] != 0)
      invariant unsignedMax == UnsignedMax(ks[..i], vs[..i])
      invariant signedMax == SignedMax(ks[..i], vs[..i])
    {
      PrefixStep(ks, vs, i);
      if vs[i] != 0 {
        BitsetUpdate(bits, i);
        bits := bits[i := true];
        vec[i / 8] := SetBit(vec[i / 8], i % 8);
        if ks[i].signed {
          signedMax := Max(signedMax, Magnitude(vs[i]));
        } else {
          unsignedMax := Max(unsignedMax, vs[i]);
        }
      }
    }
    assert bits == Flags(vs, 0);
    assert ks[..|ks|] == ks && vs[..|vs|] == vs;
    width := WidthCode(unsignedMax, signedMax);
  }

  /** The bitset part of serialize_fast_varint. */
  method BuildBitset(ks: seq<Kind>, vs: seq<int>) returns (flags: seq<byte>, width: nat)
    requires GroupOk(ks, vs) && ks != []
    ensures width == Code(ks, vs) && flags == Bitset(Flags(vs, width))
  {
    var vec := new byte[(|ks| + 9) / 8](_ => 0);
    ClearBitset(|ks|);
    assert vec[..] == Bitset(Flags(Zeros(|ks|), 0));
    width := ScanMembers(ks, vs, vec);
    MarkWidth(vs, width);
    if width % 2 == 1 {
      vec[|ks| / 8] := SetBit(vec[|ks| / 8], |ks| % 8);
    }
    if width / 2 % 2 == 1 {
      vec[(|ks| + 1) / 8] := SetBit(vec[(|ks| + 1) / 8], (|ks| + 1) % 8);
    }
    flags := vec[..];
  }

  /** serialize_fast_varint. */
  method SerializeFastVarint(ks: seq<Kind>, vs: seq<int>) returns (out: seq<byte>)
    requires GroupOk(ks, vs)
    ensures out == Serialized(ks, vs)
  {
    if |ks| == 0 {
      return [];
    }
    var flags, width := BuildBitset(ks, vs);
    var body := WriteFields(ks, vs, Width(width));
    out := flags + body;
  }

  lemma {:induction false} FieldsBytesSnoc(ks: seq<Kind>, vs: seq<int>, width: nat)
    requires |ks| == |vs| > 0
    ensures var n := |ks| - 1;
            FieldsBytes(ks, vs, width) == FieldsBytes(ks[..n], vs[..n], width) + FieldBytes(ks[n], vs[n], width)
  {
    var n := |ks| - 1;
    if n > 0 {
      FieldsBytesSnoc(ks[1..], vs[1..], width);
      assert ks[1..][..n - 1] == ks[..n][1..] && vs[1..][..n - 1] == vs[..n][1..];
    }
  }

  method WriteFields(ks: seq<Kind>, vs: seq<int>, width: nat) returns (out: seq<byte>)
    requires |ks| == |vs|
    ensures out == FieldsBytes(ks, vs, width)
  {
    out := [];
    for i := 0 to |ks|
      invariant out == FieldsBytes(ks[..i], vs[..i], width)
    {
      PrefixStep(ks, vs, i);
      FieldsBytesSnoc(ks[..i + 1], vs[..i + 1], width);
      out := out + FieldBytes(ks[i], vs[i], width);
    }
    assert ks[..|ks|] == ks && vs[..|vs|] == vs;
  }

  lemma ClearBitset(n: nat)
    ensures Bitset(Flags(Zeros(n), 0)) == seq((n + 9) / 8, _ => 0)
  {
    var bits := Flags(Zeros(n), 0);
    forall j | 0 <= j < |Bitset(bits)|
      ensures Bitset(bits)[j] == 0
    {
      ToNatZeros(Octet(bits, j));
    }
  }

  lemma MarkWidth(vs: seq<int>, code: nat)
    requires code <= 3
    ensures var n := |vs|;
            var b0 := Bitset(Flags(vs, 0));
            var b1 := if code % 2 == 1 then b0[n / 8 := SetBit(b0[n / 8], n % 8)] else b0;
            var b2 := if code / 2 % 2 == 1 then b1[(n + 1) / 8 := SetBit(b1[(n + 1) / 8], (n + 1) % 8)] else b1;
            b2 == Bitset(Flags(vs, code))
  {
    var n := |vs|;
    var f0 := Flags(vs, 0);
    var f1 := if code % 2 == 1 then f0[n := true] else f0;
    BitsetUpdate(f0, n);
    BitsetUpdate(f1, n + 1);
    assert Flags(vs, code) == if code / 2 % 2 == 1 then f1[n + 1 := true] else f1;
  }

  /** deserialize_fast_varint: the members in order, stopping at the first short read. */
  method DeserializeFastVarint(ks: seq<Kind>, target: seq<int>, bs: seq<byte>) returns (r: Outcome)
    requires |ks| == |target|
    ensures r == Deserialized(ks, target, bs)
  {
    var n := (|ks| + 9) / 8;
    if |bs| < n {
      return Outcome(NoBufferSpace, target, bs);
    }
    var flags := BitsOf(bs[..n], |ks| + 2);
    var code := CodeOf(flags);
    if code == 3 && !Has64(ks) {
      return Outcome(InvalidBuffer, target, bs[n..]);
    }
    r := Outcome(Ok, target, bs[n..]);
    for i := 0 to |ks|
      invariant |r.vs| == |ks| && r.code == Ok
      invariant DecodeFields(ks, r.vs, flags, i, Width(code), r.rest) == Deserialized(ks, target, bs)
    {
      if flags[i] {
        var cut := Min(Width(code), ks[i].size);
        if |r.rest| < cut {
          return Outcome(NoBufferSpace, if ks[i].signed then r.vs else r.vs[i := 0], r.rest);
        }
        r := Outcome(Ok, r.vs[i := FieldValue(ks[i], r.rest[..cut])], r.rest[cut..]);
      }
    }
  }
}
