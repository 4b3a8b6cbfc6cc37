/** struct_pack's whole buffer: type id, optional metainfo, data length, and
    the payload of all passes. */
module StructPack {
  import opened Bits
  import opened Bytes
  import opened Varint
  import opened StructPackModel
  import opened StructPackCodec
  import opened StructPackSize

  // ----- The sizer's decisions

  /** 0..3 for 1, 2, 4 or 8-byte container lengths. */
  function WidthCode(maxSize: nat): (code: nat)
    ensures code <= 3
  {
    if maxSize < 0x100 then 0 else if maxSize < 0x1_0000 then 1 else if maxSize < 0x1_0000_0000 then 2 else 3
  }

  function WidthOf(code: nat): nat {
    if code == 0 then 1 else if code == 1 then 2 else if code == 2 then 4 else 8
  }

  /** What a type carries on the wire: an even 32-bit hash, a literal that spells
      the type out (with its end mark), and whether the writer's configuration
      sends the literal.  Compatible members take part in neither. */
  datatype TypeId = TypeId(hash: nat, literal: seq<byte>, written: bool)
  {
    function Literal(): seq<byte> { if written then literal else [] }
  }

  predicate IdOk(id: TypeId) { id.hash < TWO32 && id.hash % 2 == 0 }

  /** What get_serialize_runtime_info returns: the needed size, and the metainfo
      byte as its parts, length-width code, literal mark and data-length code. */
  datatype Info = Info(len: nat, widthCode: nat, literal: bool, lenCode: nat)
  {
    function Metainfo(): nat { widthCode * 8 + (if literal then 4 else 0) + lenCode }
  }

  function LenBytes(lenCode: nat): nat {
    if lenCode == 0 then 0 else if lenCode == 1 then 2 else if lenCode == 2 then 4 else 8
  }

  predicate HasCompat(ty: Ty) { Versions(ty) != [] }

  predicate HasMeta(ty: Ty, info: Info) { HasCompat(ty) || info.literal || info.widthCode > 0 }

  function RuntimeInfo(id: TypeId, ty: Ty, v: Val): Info
    requires Typed(ty, v)
  {
    var sz := SizeOne(ty, v);
    var code := WidthCode(sz.maxSize);
    InfoFor(id, ty, code, Counted(WidthOf(code), sz))
  }

  /** Header and payload bytes, and the width of the data length that holds them. */
  function InfoFor(id: TypeId, ty: Ty, code: nat, payload: nat): Info {
    var meta := if HasCompat(ty) || id.written || code > 0 then 1 else 0;
    var len := meta + payload + 4 + |id.Literal()|;
    if !HasCompat(ty) then Info(len, code, id.written, 0)
    else if len + 2 < 0x1_0000 then Info(len + 2, code, id.written, 1)
    else if len + 4 < 0x1_0000_0000 then Info(len + 4, code, id.written, 2)
    else Info(len + 8, code, id.written, 3)
  }

  function NeededSize(id: TypeId, ty: Ty, v: Val): nat
    requires Typed(ty, v)
  {
    RuntimeInfo(id, ty, v).len
  }

  // ----- Packing a buffer

  /** The low bit of the hash word on the wire announces metainfo. */
  function Header(id: TypeId, ty: Ty, info: Info): seq<byte> {
    if HasMeta(ty, info) then
      LittleEndian(id.hash + 1, 4) + [info.Metainfo() % 256] + LittleEndian(info.len, LenBytes(info.lenCode))
        + id.Literal()
    else LittleEndian(id.hash, 4)
  }

  function Payload(w: nat, ty: Ty, v: Val): seq<byte>
    requires Typed(ty, v)
  {
    Pack(w, Base, ty, v) + PackVersions(w, Versions(ty), ty, v)
  }

  function Serialize(id: TypeId, ty: Ty, v: Val): seq<byte>
    requires Typed(ty, v)
  {
    var info := RuntimeInfo(id, ty, v);
    Header(id, ty, info) + Payload(WidthOf(info.widthCode), ty, v)
  }

  /** get_needed_size is never less than the number of bytes written, and exactly
      that number if and only if no set compatible member reaches another one:
      the sizer counts what lies inside, the packer never writes it. */
  lemma NeededSizeIsExact(id: TypeId, ty: Ty, v: Val)
    requires Typed(ty, v)
    ensures |Serialize(id, ty, v)| <= NeededSize(id, ty, v)
    ensures |Serialize(id, ty, v)| == NeededSize(id, ty, v) <==> Shallow(ty, v)
  {
    var info := RuntimeInfo(id, ty, v);
    PayloadSize(WidthOf(info.widthCode), ty, v);
    SerializedParts(id, ty, v, info);
    InfoLength(id, ty, v, info);
  }

  lemma InfoLength(id: TypeId, ty: Ty, v: Val, info: Info)
    requires Typed(ty, v) && info == RuntimeInfo(id, ty, v)
    ensures info.len == |Header(id, ty, info)| + Counted(WidthOf(info.widthCode), SizeOne(ty, v))
  {
    var code := WidthCode(SizeOne(ty, v).maxSize);
    HeaderSize(id, ty, code, Counted(WidthOf(code), SizeOne(ty, v)));
  }

  lemma SerializedParts(id: TypeId, ty: Ty, v: Val, info: Info)
    requires Typed(ty, v) && info == RuntimeInfo(id, ty, v)
    ensures NeededSize(id, ty, v) == info.len
    ensures Serialize(id, ty, v) == Header(id, ty, info) + Payload(WidthOf(info.widthCode), ty, v)
  {
  }

  lemma PayloadSize(w: nat, ty: Ty, v: Val)
    requires Typed(ty, v)
    ensures |Payload(w, ty, v)| <= Counted(w, SizeOne(ty, v))
    ensures |Payload(w, ty, v)| == Counted(w, SizeOne(ty, v)) <==> Shallow(ty, v)
  {
    VersionsAscend(ty);
    SizeExact(w, Versions(ty), ty, v);
    PackVersionsSize(w, Versions(ty), ty, v);
  }

  lemma HeaderSize(id: TypeId, ty: Ty, code: nat, payload: nat)
    ensures var info := InfoFor(id, ty, code, payload);
            info.widthCode == code && info.len == |Header(id, ty, info)| + payload
  {
  }

  // ----- Unpacking a buffer

  /** deserialize_metainfo: the header read from a buffer. */
  datatype Head = Head(code: Errc, widthCode: nat, dataLen: nat, rest: seq<byte>)

  function ReadHead(id: TypeId, bs: seq<byte>): Head {
    if |bs| < 4 then Head(NoBufferSpace, 0, 0, bs)
    else
      var types := FromLittleEndian(bs[..4]);
      if types / 2 != id.hash / 2 then Head(InvalidBuffer, 0, 0, bs[4..])
      else if types % 2 == 0 then Head(Ok, 0, 0, bs[4..])
      else if |bs| < 5 then Head(NoBufferSpace, 0, 0, bs[4..])
      else ReadMeta(id, bs[4], bs[5..])
  }

  /** What the metainfo byte announces: a data length, a type literal. */
  function ReadMeta(id: TypeId, metainfo: byte, bs: seq<byte>): Head {
    var n := LenBytes(metainfo % 4);
    if |bs| < n then Head(NoBufferSpace, 0, 0, bs)
    else
      var dataLen := FromLittleEndian(bs[..n]);
      if metainfo / 4 % 2 == 0 then Head(Ok, metainfo / 8 % 4, dataLen, bs[n..])
      else if |bs| < n + |id.literal| then Head(NoBufferSpace, 0, 0, bs[n..])
      else if bs[n..n + |id.literal|] != id.literal then Head(HashConflict, 0, 0, bs[n + |id.literal|..])
      else Head(Ok, metainfo / 8 % 4, dataLen, bs[n + |id.literal|..])
  }

  /** deserialize_compatibles: the version passes in order, up to the first error;
      running out of compatible members is no error. */
  function UnpackVersions(w: nat, vs: seq<nat>, ty: Ty, target: Val, rd: Reader): Result
    requires WellFormed(ty)
    decreases |vs|
  {
    if vs == [] then Result(Ok, target, rd)
    else
      var r := Unpack(w, At(vs[0]), ty, target, rd);
      if r.code != Ok then r.(code := if r.rd.exhausted then Ok else r.code)
      else UnpackVersions(w, vs[1..], ty, r.val, r.rd)
  }

  function Deserialize(id: TypeId, ty: Ty, target: Val, bs: seq<byte>): Result
    requires WellFormed(ty)
  {
    var h := ReadHead(id, bs);
    var rd := Reader(|bs| - |h.rest|, h.rest, h.dataLen, false);
    if h.code != Ok then Result(h.code, target, rd)
    else UnpackAll(WidthOf(h.widthCode), ty, target, rd)
  }

  function UnpackAll(w: nat, ty: Ty, target: Val, rd: Reader): Result
    requires WellFormed(ty)
  {
    var r := Unpack(w, Base, ty, target, rd);
    if r.code != Ok then r else UnpackVersions(w, Versions(ty), ty, r.val, r.rd)
  }

  /** Success with all that is sent of a value. */
  predicate ReadsAs(r: Result, ty: Ty, v: Val) { Typed(ty, v) && r.code == Ok && r.val == Sent(ty, v) }

  // ----- Round trip

  /** What the reader takes as the data length. */
  function DataLen(info: Info): nat { if info.lenCode == 0 then 0 else info.len }

  predicate InfoFits(id: TypeId, ty: Ty, info: Info) {
    && info.widthCode <= 3 && info.lenCode <= 3 && info.literal == id.written
    && (info.lenCode > 0 ==> HasCompat(ty) && info.len < Pow256(LenBytes(info.lenCode)))
  }

  lemma HeadRoundTrip(id: TypeId, ty: Ty, info: Info, rest: seq<byte>)
    requires IdOk(id) && InfoFits(id, ty, info)
    ensures ReadHead(id, Header(id, ty, info) + rest) == Head(Ok, info.widthCode, DataLen(info), rest)
  {
    if HasMeta(ty, info) {
      LongHeader(id, ty, info);
      InfoHead(id, info, rest);
    } else {
      PlainHead(id, rest);
    }
  }

  lemma LongHeader(id: TypeId, ty: Ty, info: Info)
    requires info.widthCode <= 3 && info.lenCode <= 3 && HasMeta(ty, info)
    ensures info.Metainfo() < 256
    ensures Header(id, ty, info)
         == LittleEndian(id.hash + 1, 4) + [info.Metainfo()] + LittleEndian(info.len, LenBytes(info.lenCode))
           + id.Literal()
  {
    MetaParts(info);
  }

  lemma InfoHead(id: TypeId, info: Info, rest: seq<byte>)
    requires IdOk(id) && info.Metainfo() < 256 && info.widthCode <= 3 && info.lenCode <= 3 && info.literal == id.written
    requires info.lenCode > 0 ==> info.len < Pow256(LenBytes(info.lenCode))
    ensures var len := LittleEndian(info.len, LenBytes(info.lenCode));
            ReadHead(id, LittleEndian(id.hash + 1, 4) + [info.Metainfo()] + len + id.Literal() + rest)
            == Head(Ok, info.widthCode, DataLen(info), rest)
  {
    var len := LittleEndian(info.len, LenBytes(info.lenCode));
    DataLenRoundTrip(info);
    MetaParts(info);
    MetaHead(id, info.Metainfo(), len, rest);
    var word := LittleEndian(id.hash + 1, 4);
    assert word + [info.Metainfo()] + len + id.Literal() + rest
      == word + [info.Metainfo()] + (len + (id.Literal() + rest));
    HashHead(id, info.Metainfo(), len + (id.Literal() + rest));
  }

  lemma MetaParts(info: Info)
    requires info.widthCode <= 3 && info.lenCode <= 3
    ensures var m := info.Metainfo();
            m < 256 && m / 8 % 4 == info.widthCode && m % 4 == info.lenCode && (m / 4 % 2 == 1 <==> info.literal)
  {
  }

  /** A reader of type b may take what follows for a's: the hash is the same, and
      a literal that was sent begins with b's own. */
  predicate Agrees(a: TypeId, b: TypeId, rest: seq<byte>) {
    a.hash == b.hash && (a.written ==> b.literal <= a.literal + rest)
  }

  /** Another hash is an invalid buffer, another literal a hash conflict if there
      are bytes enough to tell. */
  predicate Verdict(code: Errc, a: TypeId, b: TypeId, rest: seq<byte>) {
    && (code == Ok <==> Agrees(a, b, rest))
    && (code == InvalidBuffer <==> a.hash != b.hash)
    && (code == HashConflict <==>
          a.hash == b.hash && !Agrees(a, b, rest) && |b.literal| <= |a.literal + rest|)
  }

  /** What a reader of another type makes of a header. */
  lemma HeadAcceptedIff(a: TypeId, b: TypeId, ty: Ty, info: Info, rest: seq<byte>)
    requires IdOk(a) && IdOk(b) && InfoFits(a, ty, info)
    ensures Verdict(ReadHead(b, Header(a, ty, info) + rest).code, a, b, rest)
  {
    if HasMeta(ty, info) {
      LongHeader(a, ty, info);
      ForeignLong(a, b, info, rest);
    } else {
      ForeignPlain(a, b, rest);
    }
  }

  lemma ForeignPlain(a: TypeId, b: TypeId, rest: seq<byte>)
    requires IdOk(a) && IdOk(b) && !a.written
    ensures Verdict(ReadHead(b, LittleEndian(a.hash, 4) + rest).code, a, b, rest)
  {
    HashRoundTrip(a.hash);
    var bs := LittleEndian(a.hash, 4) + rest;
    assert bs[..4] == LittleEndian(a.hash, 4);
  }

  lemma ForeignLong(a: TypeId, b: TypeId, info: Info, rest: seq<byte>)
    requires IdOk(a) && IdOk(b) && info.Metainfo() < 256 && info.widthCode <= 3 && info.lenCode <= 3
    requires info.literal == a.written
    ensures var len := LittleEndian(info.len, LenBytes(info.lenCode));
            Verdict(ReadHead(b, LittleEndian(a.hash + 1, 4) + [info.Metainfo()] + len + a.Literal() + rest).code,
                    a, b, rest)
  {
    var len := LittleEndian(info.len, LenBytes(info.lenCode));
    MetaParts(info);
    var word := LittleEndian(a.hash + 1, 4);
    assert word + [info.Metainfo()] + len + a.Literal() + rest
      == word + [info.Metainfo()] + (len + (a.Literal() + rest));
    ForeignHash(a, b, info.Metainfo(), len + (a.Literal() + rest));
    ForeignMeta(a, b, info.Metainfo(), len, rest);
  }

  lemma ForeignHash(a: TypeId, b: TypeId, metainfo: byte, rest: seq<byte>)
    requires IdOk(a) && IdOk(b)
    ensures var h := ReadHead(b, LittleEndian(a.hash + 1, 4) + [metainfo] + rest);
            if a.hash == b.hash then h == ReadMeta(b, metainfo, rest) else h.code == InvalidBuffer
  {
    HashRoundTrip(a.hash + 1);
    var bs := LittleEndian(a.hash + 1, 4) + [metainfo] + rest;
    assert bs[..4] == LittleEndian(a.hash + 1, 4) && bs[4] == metainfo && bs[5..] == rest;
  }

  lemma ForeignMeta(a: TypeId, b: TypeId, metainfo: byte, len: seq<byte>, rest: seq<byte>)
    requires |len| == LenBytes(metainfo % 4) && (metainfo / 4 % 2 == 1 <==> a.written)
    ensures a.hash == b.hash ==> Verdict(ReadMeta(b, metainfo, len + (a.Literal() + rest)).code, a, b, rest)
  {
    var all := a.Literal() + rest;
    var bs := len + all;
    var n := |len|;
    assert bs[..n] == len;
    assert |b.literal| <= |all| ==> bs[n..n + |b.literal|] == all[..|b.literal|];
    assert b.literal <= all <==> |b.literal| <= |all| && all[..|b.literal|] == b.literal;
  }

  /** A buffer of another type is refused and leaves the target alone. */
  lemma ForeignTypeRefused(a: TypeId, b: TypeId, ty: Ty, v: Val, other: Ty, target: Val, rest: seq<byte>)
    requires IdOk(a) && IdOk(b) && Typed(ty, v) && NeededSize(a, ty, v) < TWO64 && WellFormed(other)
    requires !Agrees(a, b, Payload(WidthOf(RuntimeInfo(a, ty, v).widthCode), ty, v) + rest)
    ensures var r := Deserialize(b, other, target, Serialize(a, ty, v) + rest); r.code != Ok && r.val == target
  {
    var info := RuntimeInfo(a, ty, v);
    InfoOk(a, ty, v);
    SerializedParts(a, ty, v, info);
    ForeignRefused(a, b, ty, info, Payload(WidthOf(info.widthCode), ty, v), other, target, rest);
  }

  lemma ForeignRefused(a: TypeId, b: TypeId, ty: Ty, info: Info, payload: seq<byte>, other: Ty, target: Val,
    rest: seq<byte>)
    requires IdOk(a) && IdOk(b) && InfoFits(a, ty, info) && WellFormed(other) && !Agrees(a, b, payload + rest)
    ensures var r := Deserialize(b, other, target, Header(a, ty, info) + payload + rest);
            r.code != Ok && r.val == target
  {
    HeadAcceptedIff(a, b, ty, info, payload + rest);
    assert Header(a, ty, info) + payload + rest == Header(a, ty, info) + (payload + rest);
  }

  lemma PlainHead(id: TypeId, rest: seq<byte>)
    requires IdOk(id)
    ensures ReadHead(id, LittleEndian(id.hash, 4) + rest) == Head(Ok, 0, 0, rest)
  {
    HashRoundTrip(id.hash);
    var bs := LittleEndian(id.hash, 4) + rest;
    assert bs[..4] == LittleEndian(id.hash, 4) && bs[4..] == rest;
  }

  lemma HashHead(id: TypeId, metainfo: byte, rest: seq<byte>)
    requires IdOk(id)
    ensures ReadHead(id, LittleEndian(id.hash + 1, 4) + [metainfo] + rest) == ReadMeta(id, metainfo, rest)
  {
    HashRoundTrip(id.hash + 1);
    var bs := LittleEndian(id.hash + 1, 4) + [metainfo] + rest;
    assert bs[..4] == LittleEndian(id.hash + 1, 4) && bs[4] == metainfo && bs[5..] == rest;
  }

  lemma MetaHead(id: TypeId, metainfo: byte, len: seq<byte>, rest: seq<byte>)
    requires |len| == LenBytes(metainfo % 4) && (metainfo / 4 % 2 == 1 <==> id.written)
    ensures ReadMeta(id, metainfo, len + (id.Literal() + rest))
            == Head(Ok, metainfo / 8 % 4, FromLittleEndian(len), rest)
  {
    SliceOfThree(len, id.Literal(), rest);
  }

  lemma SliceOfThree(a: seq<byte>, b: seq<byte>, c: seq<byte>)
    ensures (a + (b + c))[..|a|] == a && (a + (b + c))[|a|..] == b + c
    ensures (a + (b + c))[|a|..|a| + |b|] == b && (a + (b + c))[|a| + |b|..] == c
  {
  }

  lemma HashRoundTrip(word: nat)
    requires word < TWO32
    ensures FromLittleEndian(LittleEndian(word, 4)) == word
  {
    assert Pow256(4) == TWO32;
    LittleEndianRoundTrip(word, 4);
  }

  lemma DataLenRoundTrip(info: Info)
    requires info.lenCode > 0 ==> info.len < Pow256(LenBytes(info.lenCode))
    ensures FromLittleEndian(LittleEndian(info.len, LenBytes(info.lenCode))) == DataLen(info)
  {
    if info.lenCode > 0 {
      LittleEndianRoundTrip(info.len, LenBytes(info.lenCode));
    }
  }

  lemma InfoOk(id: TypeId, ty: Ty, v: Val)
    requires Typed(ty, v) && NeededSize(id, ty, v) < TWO64
    ensures var info := RuntimeInfo(id, ty, v);
            InfoFits(id, ty, info) && (info.lenCode > 0 <==> HasCompat(ty))
  {
    var sz := SizeOne(ty, v);
    var code := WidthCode(sz.maxSize);
    InfoForOk(id, ty, code, Counted(WidthOf(code), sz));
  }

  lemma InfoForOk(id: TypeId, ty: Ty, code: nat, payload: nat)
    requires code <= 3 && InfoFor(id, ty, code, payload).len < TWO64
    ensures var info := InfoFor(id, ty, code, payload);
            InfoFits(id, ty, info) && (info.lenCode > 0 <==> HasCompat(ty))
  {
    assert Pow256(2) == 0x1_0000 && Pow256(4) == 0x1_0000_0000;
    assert Pow256(8) == TWO64;
  }

  lemma WidthFits(id: TypeId, ty: Ty, v: Val)
    requires Typed(ty, v)
    ensures LengthsFit(WidthOf(RuntimeInfo(id, ty, v).widthCode), ty, v)
  {
    assert Pow256(1) == 0x100 && Pow256(2) == 0x1_0000 && Pow256(4) == 0x1_0000_0000;
    assert Pow256(8) == TWO64;
    MaxSizeBound(ty, v);
    MaxSizeFits(WidthOf(RuntimeInfo(id, ty, v).widthCode), ty, v);
  }

  lemma CodeIsLeast(maxSize: nat, w: nat)
    requires maxSize < TWO64 && (w == 1 || w == 2 || w == 4 || w == 8)
    ensures WidthOf(WidthCode(maxSize)) <= w <==> maxSize < Pow256(w)
  {
    assert Pow256(1) == 0x100 && Pow256(2) == 0x1_0000 && Pow256(4) == 0x1_0000_0000;
    assert Pow256(8) == TWO64;
  }

  lemma InfoParts(id: TypeId, ty: Ty, v: Val)
    requires Typed(ty, v)
    ensures var info := RuntimeInfo(id, ty, v);
            info.widthCode == WidthCode(SizeOne(ty, v).maxSize) && info.literal == id.written
  {
    var code := WidthCode(SizeOne(ty, v).maxSize);
    InfoForParts(id, ty, code, Counted(WidthOf(code), SizeOne(ty, v)));
  }

  lemma InfoForParts(id: TypeId, ty: Ty, code: nat, payload: nat)
    ensures InfoFor(id, ty, code, payload).widthCode == code && InfoFor(id, ty, code, payload).literal == id.written
  {
  }

  /** The length width is the least of 1, 2, 4 and 8 bytes: a width is at least
      the one chosen if and only if it holds the length of every container. */
  lemma WidthIsLeast(id: TypeId, ty: Ty, v: Val, w: nat)
    requires Typed(ty, v) && (w == 1 || w == 2 || w == 4 || w == 8)
    ensures WidthOf(RuntimeInfo(id, ty, v).widthCode) <= w <==> LengthsFit(w, ty, v)
  {
    InfoParts(id, ty, v);
    MaxSizeBound(ty, v);
    MaxSizeIff(w, ty, v);
    CodeIsLeast(SizeOne(ty, v).maxSize, w);
  }

  /** A compatible member, a literal that is sent, or a container of 256 elements or more. */
  predicate NeedsMeta(id: TypeId, ty: Ty, v: Val)
    requires Typed(ty, v)
  {
    HasCompat(ty) || id.written || !LengthsFit(1, ty, v)
  }

  lemma MetaIff(id: TypeId, ty: Ty, v: Val, info: Info)
    requires Typed(ty, v) && info == RuntimeInfo(id, ty, v)
    ensures HasMeta(ty, info) <==> NeedsMeta(id, ty, v)
  {
    WidthIsLeast(id, ty, v, 1);
    InfoParts(id, ty, v);
    MetaOf(id, ty, v, info);
  }

  lemma MetaOf(id: TypeId, ty: Ty, v: Val, info: Info)
    requires Typed(ty, v) && info.literal == id.written
    requires WidthOf(info.widthCode) <= 1 <==> LengthsFit(1, ty, v)
    ensures HasMeta(ty, info) <==> NeedsMeta(id, ty, v)
  {
  }

  /** Metainfo is sent if and only if it is needed.  The low bit of the first word
      announces it; without it the header is the type id alone. */
  lemma MetainfoIff(id: TypeId, ty: Ty, v: Val, info: Info)
    requires IdOk(id) && Typed(ty, v) && info == RuntimeInfo(id, ty, v)
    ensures |Serialize(id, ty, v)| >= 4
    ensures FromLittleEndian(Serialize(id, ty, v)[..4]) == id.hash + (if NeedsMeta(id, ty, v) then 1 else 0)
    ensures |Header(id, ty, info)|
         == 4 + if NeedsMeta(id, ty, v) then 1 + LenBytes(info.lenCode) + |id.Literal()| else 0
  {
    MetaIff(id, ty, v, info);
    HeaderParts(id, ty, info);
    SerializedParts(id, ty, v, info);
    StartOf(Header(id, ty, info), Payload(WidthOf(info.widthCode), ty, v));
  }

  lemma StartOf(header: seq<byte>, payload: seq<byte>)
    requires |header| >= 4
    ensures |header + payload| >= 4 && (header + payload)[..4] == header[..4]
  {
  }

  lemma HeaderParts(id: TypeId, ty: Ty, info: Info)
    requires IdOk(id)
    ensures var header := Header(id, ty, info);
            && |header| == 4 + (if HasMeta(ty, info) then 1 + LenBytes(info.lenCode) + |id.Literal()| else 0)
            && FromLittleEndian(header[..4]) == id.hash + (if HasMeta(ty, info) then 1 else 0)
  {
    var word := id.hash + if HasMeta(ty, info) then 1 else 0;
    HashRoundTrip(word);
    assert Header(id, ty, info)[..4] == LittleEndian(word, 4);
  }

  /** The width of the data length, sent for types with a compatible member only,
      is the least of 2, 4 and 8 bytes that can count the whole buffer, its own
      bytes included. */
  lemma DataLenIsLeast(id: TypeId, ty: Ty, v: Val, n: nat)
    requires Typed(ty, v) && (n == 2 || n == 4)
    ensures var info := RuntimeInfo(id, ty, v);
            && (info.lenCode == 0 <==> !HasCompat(ty))
            && (HasCompat(ty) ==>
                  (LenBytes(info.lenCode) <= n <==> info.len - LenBytes(info.lenCode) + n < Pow256(n)))
  {
    var code := WidthCode(SizeOne(ty, v).maxSize);
    LenCodeIsLeast(id, ty, code, Counted(WidthOf(code), SizeOne(ty, v)), n);
  }

  lemma LenCodeIsLeast(id: TypeId, ty: Ty, code: nat, payload: nat, n: nat)
    requires n == 2 || n == 4
    ensures var info := InfoFor(id, ty, code, payload);
            && (info.lenCode == 0 <==> !HasCompat(ty))
            && (HasCompat(ty) ==>
                  (LenBytes(info.lenCode) <= n <==> info.len - LenBytes(info.lenCode) + n < Pow256(n)))
  {
    assert Pow256(2) == 0x1_0000 && Pow256(4) == 0x1_0000_0000;
  }

  lemma MaxSizeBound(ty: Ty, v: Val)
    requires Typed(ty, v)
    ensures SizeOne(ty, v).maxSize < TWO64
    decreases ty, 0
  {
    match ty
    case Vec(elem) => MaxItemsBound(elem, v.items);
    case Struct(fields) => MaxFieldsBound(fields, v.fields);
    case Opt(elem) =>
      if v.Just? {
        MaxSizeBound(elem, v.v);
      }
    case Variant(alts) => MaxSizeBound(Nth(alts, v.index), v.v);
    case Compat(_, elem) =>
      if v.Just? {
        MaxSizeBound(elem, v.v);
      }
    case _ =>
  }

  lemma MaxItemsBound(elem: Ty, items: seq<Val>)
    requires forall i :: 0 <= i < |items| ==> Typed(elem, items[i])
    ensures SizeItems(elem, items).maxSize < TWO64
    decreases elem, 1 + |items|
  {
    if items != [] {
      MaxSizeBound(elem, items[0]);
      MaxItemsBound(elem, items[1..]);
    }
  }

  lemma MaxFieldsBound(fs: Fields, vs: Vals)
    requires Typeds(fs, vs)
    ensures SizeFields(fs, vs).maxSize < TWO64
    decreases fs, 0
  {
    if fs.More? {
      MaxSizeBound(fs.head, vs.head);
      MaxFieldsBound(fs.tail, vs.tail);
    }
  }

  /** Thresholds that no version of the type separates keep the same members. */
  predicate SameSide(j: int, k: int, vs: seq<nat>) { forall x :: x in vs ==> (x <= j <==> x <= k) }

  lemma {:induction false} KeepSame(j: int, k: int, ty: Ty, v: Val)
    requires Typed(ty, v) && SameSide(j, k, Versions(ty))
    ensures Keep(j, ty, v) == Keep(k, ty, v)
    decreases ty, 0
  {
    match ty
    case Vec(elem) => KeepItemsSame(j, k, elem, v.items);
    case Struct(fields) => KeepsSame(j, k, fields, v.fields);
    case Opt(elem) =>
      if v.Just? {
        KeepSame(j, k, elem, v.v);
      }
    case Variant(alts) =>
      VersionsNth(alts, v.index);
      KeepSame(j, k, Nth(alts, v.index), v.v);
    case Compat(version, _) => assert version in Versions(ty);
    case _ =>
  }

  lemma {:induction false} KeepItemsSame(j: int, k: int, elem: Ty, items: seq<Val>)
    requires SameSide(j, k, Versions(elem)) && forall i :: 0 <= i < |items| ==> Typed(elem, items[i])
    ensures KeepItems(j, elem, items) == KeepItems(k, elem, items)
    decreases elem, 1 + |items|
  {
    if items != [] {
      KeepSame(j, k, elem, items[0]);
      KeepItemsSame(j, k, elem, items[1..]);
    }
  }

  lemma {:induction false} KeepsSame(j: int, k: int, fs: Fields, vs: Vals)
    requires Typeds(fs, vs) && SameSide(j, k, VersionsOf(fs))
    ensures Keeps(j, fs, vs) == Keeps(k, fs, vs)
    decreases fs, 0
  {
    if fs.More? {
      VersionsParts(fs);
      KeepSame(j, k, fs.head, vs.head);
      KeepsSame(j, k, fs.tail, vs.tail);
    }
  }

  lemma VersionsParts(fs: Fields)
    requires fs.More?
    ensures forall x :: x in VersionsOf(fs) <==> x in Versions(fs.head) || x in VersionsOf(fs.tail)
  {
    forall x: nat
      ensures x in VersionsOf(fs) <==> x in Versions(fs.head) || x in VersionsOf(fs.tail)
    {
      MergeMembers(Versions(fs.head), VersionsOf(fs.tail), x);
    }
  }

  lemma {:induction false} VersionsNth(fs: Fields, i: nat)
    requires i < Length(fs)
    ensures forall x :: x in Versions(Nth(fs, i)) ==> x in VersionsOf(fs)
  {
    VersionsParts(fs);
    if i > 0 {
      VersionsNth(fs.tail, i - 1);
    }
  }

  predicate NoneAbove(k: int, vs: seq<nat>) { forall x :: x in vs ==> x <= k }

  /** A threshold at or above every version keeps all that is sent. */
  lemma {:induction false} KeepAll(k: int, ty: Ty, v: Val)
    requires Typed(ty, v) && NoneAbove(k, Versions(ty))
    ensures Keep(k, ty, v) == Sent(ty, v)
    decreases ty, 0
  {
    match ty
    case Vec(elem) => KeepAllItems(k, elem, v.items);
    case Struct(fields) => KeepAllFields(k, fields, v.fields);
    case Opt(elem) =>
      if v.Just? {
        KeepAll(k, elem, v.v);
      }
    case Variant(alts) =>
      VersionsNth(alts, v.index);
      KeepAll(k, Nth(alts, v.index), v.v);
    case Compat(version, _) => assert version in Versions(ty);
    case _ =>
  }

  lemma {:induction false} KeepAllItems(k: int, elem: Ty, items: seq<Val>)
    requires NoneAbove(k, Versions(elem))
    requires forall i :: 0 <= i < |items| ==> Typed(elem, items[i])
    ensures KeepItems(k, elem, items) == SentItems(elem, items)
    decreases elem, 1 + |items|
  {
    if items != [] {
      KeepAll(k, elem, items[0]);
      KeepAllItems(k, elem, items[1..]);
    }
  }

  lemma {:induction false} KeepAllFields(k: int, fs: Fields, vs: Vals)
    requires Typeds(fs, vs) && NoneAbove(k, VersionsOf(fs))
    ensures Keeps(k, fs, vs) == SentFields(fs, vs)
    decreases fs, 0
  {
    if fs.More? {
      VersionsParts(fs);
      KeepAll(k, fs.head, vs.head);
      KeepAllFields(k, fs.tail, vs.tail);
    }
  }

  /** vs lists, in order, versions above k, and none of the type's lies between
      k and the first, or between neighbours. */
  predicate NextVersions(k: int, vs: seq<nat>, all: seq<nat>) {
    && Ascending(vs)
    && (forall x :: x in vs ==> k < x)
    && (vs != [] ==> forall x :: x in all && k < x <= vs[|vs| - 1] ==> x in vs)
  }

  function LastOr(k: int, vs: seq<nat>): int { if vs == [] then k else vs[|vs| - 1] }

  lemma VersionRoundTrip(w: nat, k: int, vs: seq<nat>, ty: Ty, v: Val, rd: Reader, tail: seq<byte>)
    requires WellFormed(ty) && Typed(ty, v) && LengthsFit(w, ty, v)
    requires vs != [] && NextVersions(k, vs, Versions(ty))
    requires Reads(At(vs[0]), rd, Pack(w, At(vs[0]), ty, v), tail)
    ensures Unpack(w, At(vs[0]), ty, Keep(k, ty, v), rd)
         == Result(Ok, Keep(vs[0], ty, v), Past(rd, Pack(w, At(vs[0]), ty, v), tail))
  {
    FirstIsNext(k, vs, Versions(ty));
    KeepSame(k, (vs[0] as int) - 1, ty, v);
    PassRoundTrip(w, At(vs[0]), ty, v, rd, tail);
  }

  /** Consecutive version passes over what the same passes packed: each restores
      the members of its version, and the later passes go on from there. */
  lemma {:induction false} VersionsRoundTrip(w: nat, k: int, vs: seq<nat>, more: seq<nat>, ty: Ty, v: Val,
    rd: Reader, tail: seq<byte>)
    requires WellFormed(ty) && Typed(ty, v) && LengthsFit(w, ty, v) && NextVersions(k, vs, Versions(ty))
    requires rd.rest == PackVersions(w, vs, ty, v) + tail
    requires vs != [] ==> rd.now + |PackVersions(w, vs, ty, v)| <= rd.dataLen
    ensures UnpackVersions(w, vs + more, ty, Keep(k, ty, v), rd)
         == UnpackVersions(w, more, ty, Keep(LastOr(k, vs), ty, v), Past(rd, PackVersions(w, vs, ty, v), tail))
    decreases |vs|
  {
    if vs == [] {
      assert vs + more == more && [] + tail == tail;
    } else {
      var own, next := Pack(w, At(vs[0]), ty, v), PackVersions(w, vs[1..], ty, v);
      assert PackVersions(w, vs, ty, v) == own + next;
      SplitReads(At(vs[0]), rd, own, next, tail);
      var rd1 := Past(rd, own, next + tail);
      FirstVersion(w, k, vs, more, ty, v, rd, next + tail);
      RestIsNext(k, vs, Versions(ty));
      VersionsRoundTrip(w, vs[0], vs[1..], more, ty, v, rd1, tail);
    }
  }

  lemma FirstVersion(w: nat, k: int, vs: seq<nat>, more: seq<nat>, ty: Ty, v: Val, rd: Reader, tail: seq<byte>)
    requires WellFormed(ty) && Typed(ty, v) && LengthsFit(w, ty, v)
    requires vs != [] && NextVersions(k, vs, Versions(ty))
    requires Reads(At(vs[0]), rd, Pack(w, At(vs[0]), ty, v), tail)
    ensures UnpackVersions(w, vs + more, ty, Keep(k, ty, v), rd)
         == UnpackVersions(w, vs[1..] + more, ty, Keep(vs[0], ty, v), Past(rd, Pack(w, At(vs[0]), ty, v), tail))
  {
    VersionRoundTrip(w, k, vs, ty, v, rd, tail);
    assert (vs + more)[1..] == vs[1..] + more && (vs + more)[0] == vs[0];
  }

  lemma FirstIsNext(k: int, vs: seq<nat>, all: seq<nat>)
    requires vs != [] && NextVersions(k, vs, all)
    ensures SameSide(k, (vs[0] as int) - 1, all)
  {
    forall x | x in all
      ensures x <= k <==> x <= (vs[0] as int) - 1
    {
      assert vs[0] in vs && vs[0] <= vs[|vs| - 1];
      assert x in vs ==> vs[0] <= x;
    }
  }

  lemma RestIsNext(k: int, vs: seq<nat>, all: seq<nat>)
    requires vs != [] && NextVersions(k, vs, all)
    ensures NextVersions(vs[0], vs[1..], all)
    ensures LastOr(vs[0], vs[1..]) == LastOr(k, vs)
  {
    assert vs[0] in vs;
    forall x | x in all && vs[1..] != [] && vs[0] < x <= vs[1..][|vs[1..]| - 1]
      ensures x in vs[1..]
    {
      assert x in vs;
    }
  }

  /** Base pass and version passes over a payload restore what is sent of a value. */
  lemma PayloadRoundTrip(w: nat, ty: Ty, v: Val, rd: Reader, tail: seq<byte>)
    requires WellFormed(ty) && Typed(ty, v) && LengthsFit(w, ty, v)
    requires rd.rest == Payload(w, ty, v) + tail
    requires HasCompat(ty) ==> rd.now + |Payload(w, ty, v)| <= rd.dataLen
    ensures UnpackAll(w, ty, Default(ty), rd) == Result(Ok, Sent(ty, v), Past(rd, Payload(w, ty, v), tail))
  {
    var vs := Versions(ty);
    var base, later := Pack(w, Base, ty, v), PackVersions(w, vs, ty, v);
    SplitReads(Base, rd, base, later, tail);
    PassRoundTrip(w, Base, ty, v, rd, later + tail);
    AllVersionsNext(ty);
    var rd1 := Past(rd, base, later + tail);
    VersionsRoundTrip(w, -1, vs, [], ty, v, rd1, tail);
    assert vs + [] == vs;
    KeepAll(LastOr(-1, vs), ty, v);
    assert UnpackVersions(w, vs, ty, Keep(-1, ty, v), rd1) == Result(Ok, Sent(ty, v), Past(rd1, later, tail));
  }

  /** Round trip: for every supported type and value below 2^64 bytes, unpacking
      the packed buffer into a default-initialised target succeeds and reads
      exactly what was written, whatever follows.  It gives the value back, except
      that compatible members inside set compatible members come back null. */
  lemma RoundTrip(id: TypeId, ty: Ty, v: Val, tail: seq<byte>)
    requires IdOk(id) && WellFormed(ty) && Typed(ty, v) && NeededSize(id, ty, v) < TWO64
    ensures var r := Deserialize(id, ty, Default(ty), Serialize(id, ty, v) + tail);
            r.code == Ok && r.val == Sent(ty, v) && r.rd.rest == tail
  {
    NeededSizeIsExact(id, ty, v);
    InfoOk(id, ty, v);
    WidthFits(id, ty, v);
    BufferRoundTrip(id, ty, v, RuntimeInfo(id, ty, v), tail);
  }

  /** So the value comes back if and only if none of those is set. */
  lemma RoundTripIff(id: TypeId, ty: Ty, v: Val, tail: seq<byte>)
    requires IdOk(id) && WellFormed(ty) && Typed(ty, v) && NeededSize(id, ty, v) < TWO64
    ensures Deserialize(id, ty, Default(ty), Serialize(id, ty, v) + tail).val == v <==> Deliverable(ty, v)
  {
    RoundTrip(id, ty, v, tail);
    SentIff(ty, v);
  }

  lemma BufferRoundTrip(id: TypeId, ty: Ty, v: Val, info: Info, tail: seq<byte>)
    requires IdOk(id) && WellFormed(ty) && Typed(ty, v) && InfoFits(id, ty, info)
    requires LengthsFit(WidthOf(info.widthCode), ty, v)
    requires HasCompat(ty) ==> |Header(id, ty, info)| + |Payload(WidthOf(info.widthCode), ty, v)| <= DataLen(info)
    ensures var r := Deserialize(id, ty, Default(ty), Header(id, ty, info)
            + Payload(WidthOf(info.widthCode), ty, v) + tail);
            r.code == Ok && r.val == Sent(ty, v) && r.rd.rest == tail
  {
    var w := WidthOf(info.widthCode);
    var head, body := Header(id, ty, info), Payload(w, ty, v);
    DeserializeHeader(id, ty, ty, Default(ty), info, body + tail);
    PayloadRoundTrip(w, ty, v, Reader(|head|, body + tail, DataLen(info), false), tail);
    AppendTwice(head, body, tail);
  }

  lemma AppendTwice(a: seq<byte>, b: seq<byte>, c: seq<byte>)
    ensures a + b + c == a + (b + c)
  {
  }

  /** The header does not depend on the type it is read for, only on what
      the two types share on the wire. */
  lemma DeserializeHeader(id: TypeId, written: Ty, ty: Ty, target: Val, info: Info, body: seq<byte>)
    requires IdOk(id) && WellFormed(ty) && InfoFits(id, written, info)
    ensures Deserialize(id, ty, target, Header(id, written, info) + body)
         == UnpackAll(WidthOf(info.widthCode), ty, target,
           Reader(|Header(id, written, info)|, body, DataLen(info), false))
  {
    HeadRoundTrip(id, written, info, body);
    DeserializeBody(id, ty, target, Header(id, written, info), body, info.widthCode, DataLen(info));
  }

  lemma DeserializeBody(id: TypeId, ty: Ty, target: Val, head: seq<byte>, body: seq<byte>, widthCode: nat, dataLen: nat)
    requires WellFormed(ty) && ReadHead(id, head + body) == Head(Ok, widthCode, dataLen, body)
    ensures Deserialize(id, ty, target, head + body)
         == UnpackAll(WidthOf(widthCode), ty, target, Reader(|head|, body, dataLen, false))
  {
  }

  lemma AllVersionsNext(ty: Ty)
    ensures NextVersions(-1, Versions(ty), Versions(ty))
    ensures NoneAbove(LastOr(-1, Versions(ty)), Versions(ty))
  {
    VersionsAscend(ty);
  }

  // ----- A compatible member inside a compatible member

  /** A struct whose compatible member is a struct with a compatible member. */
  function Nested(a: nat, b: nat, t: Ty): Ty { Struct(More(Compat(a, Struct(More(Compat(b, t), End))), End)) }

  function NestedVal(inner: Val): Val { Rec(MoreVals(Just(Rec(MoreVals(inner, NoVals))), NoVals)) }

  /** A struct of one member is like its member. */
  lemma SingleMember(t: Ty, v: Val)
    requires WellFormed(t) && Typed(t, v)
    ensures var ty, val := Struct(More(t, End)), Rec(MoreVals(v, NoVals));
            && WellFormed(ty) && Typed(ty, val)
            && HoldsCompat(ty, val) == HoldsCompat(t, v) && Unset(ty, val) == Unset(t, v)
            && Shallow(ty, val) == Shallow(t, v) && Deliverable(ty, val) == Deliverable(t, v)
  {
    var fs, vs := More(t, End), MoreVals(v, NoVals);
    assert WellFormeds(End) && Typeds(End, NoVals) && WellFormeds(fs) && Typeds(fs, vs);
    assert !HoldsCompatFields(End, NoVals) && UnsetFields(End, NoVals);
    assert ShallowFields(End, NoVals) && DeliverableFields(End, NoVals);
    assert HoldsCompatFields(fs, vs) == HoldsCompat(t, v) && UnsetFields(fs, vs) == Unset(t, v);
    assert ShallowFields(fs, vs) == Shallow(t, v) && DeliverableFields(fs, vs) == Deliverable(t, v);
  }

  lemma NestedTyped(a: nat, b: nat, t: Ty, inner: Val)
    requires WellFormed(t) && Typed(Compat(b, t), inner)
    ensures WellFormed(Nested(a, b, t)) && Typed(Nested(a, b, t), NestedVal(inner))
    ensures !Shallow(Nested(a, b, t), NestedVal(inner))
    ensures Deliverable(Nested(a, b, t), NestedVal(inner)) <==> inner.Null?
  {
    SingleMember(Compat(b, t), inner);
    var s, v := Struct(More(Compat(b, t), End)), Rec(MoreVals(inner, NoVals));
    assert HoldsCompat(s, v) && (Unset(s, v) <==> inner.Null?);
    SingleMember(Compat(a, s), Just(v));
  }

  /** For every such struct with its member set, fewer bytes are written than
      asked for; and a set inner member does not come back. */
  lemma NestedLosesMember(id: TypeId, a: nat, b: nat, t: Ty, inner: Val)
    requires IdOk(id) && WellFormed(t) && Typed(Compat(b, t), inner) && Typed(Nested(a, b, t), NestedVal(inner))
    requires NeededSize(id, Nested(a, b, t), NestedVal(inner)) < TWO64
    ensures WellFormed(Nested(a, b, t))
    ensures var ty, v := Nested(a, b, t), NestedVal(inner);
            && |Serialize(id, ty, v)| < NeededSize(id, ty, v)
            && (Deserialize(id, ty, Default(ty), Serialize(id, ty, v)).val == v <==> inner.Null?)
  {
    var ty, v := Nested(a, b, t), NestedVal(inner);
    NestedTyped(a, b, t, inner);
    NeededSizeIsExact(id, ty, v);
    RoundTripIff(id, ty, v, []);
    assert Serialize(id, ty, v) + [] == Serialize(id, ty, v);
  }
}
