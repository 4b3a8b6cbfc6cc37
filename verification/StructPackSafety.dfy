/** struct_pack's reader on bytes that were cut short or are arbitrary. */
module StructPackSafety {
  import opened Bytes
  import opened Varint
  import opened StructPackModel
  import FV = FastVarint
  import opened StructPackCodec
  import opened StructPackSize
  import opened StructPack

  // ----- The reader stays inside its buffer

  /** b is a without the bytes read on the way. */
  predicate Ahead(a: Reader, b: Reader) {
    && a.now <= b.now <= a.now + |a.rest|
    && b.rest == a.rest[b.now - a.now..]
    && b.dataLen == a.dataLen
  }

  lemma AheadTrans(a: Reader, b: Reader, c: Reader)
    requires Ahead(a, b) && Ahead(b, c)
    ensures Ahead(a, c)
  {
    assert a.rest[b.now - a.now..][c.now - b.now..] == a.rest[c.now - a.now..];
  }

  lemma SkipAhead(rd: Reader, n: nat)
    requires n <= |rd.rest|
    ensures Ahead(rd, rd.Skip(n))
  {
  }

  lemma ScalarStays(kind: VarKind, target: Val, rd: Reader)
    requires 0 < kind.bits <= 64
    ensures Ahead(rd, ReadVar(kind, target, rd).rd)
  {
    DecodeUsed(rd.rest, 0);
    SkipAhead(rd, Varint.Decode(rd.rest).used);
  }

  lemma GroupStays(kinds: seq<FV.Kind>, target: Val, rd: Reader)
    ensures Ahead(rd, ReadFast(kinds, target, rd).rd)
  {
    if target.Nums? && |target.ns| == |kinds| {
      FV.GroupLeavesSuffix(kinds, target.ns, rd.rest);
      SkipAhead(rd, |rd.rest| - |FV.Deserialized(kinds, target.ns, rd.rest).rest|);
    }
  }

  lemma AheadSelf(rd: Reader)
    ensures Ahead(rd, rd) && Ahead(rd, rd.(exhausted := true))
  {
  }

  lemma NumStays(width: nat, target: Val, rd: Reader)
    ensures Ahead(rd, ReadNum(width, target, rd).rd)
  {
    AheadSelf(rd);
    if width <= |rd.rest| {
      SkipAhead(rd, width);
    }
  }

  /** For every type, target and byte string, unpacking only moves forward inside
      the bytes it was given. */
  lemma {:induction false} ReaderStays(w: nat, p: Pass, ty: Ty, target: Val, rd: Reader)
    requires WellFormed(ty)
    ensures Ahead(rd, Unpack(w, p, ty, target, rd).rd)
    decreases ty, 2
  {
    match ty
    case Vec(_) => ContainerStays(w, p, ty, target, rd);
    case Struct(_) => StructStays(w, p, ty, target, rd);
    case Opt(_) => OptStays(w, p, ty, target, rd);
    case Variant(_) => VariantStays(w, p, ty, target, rd);
    case Compat(_, _) => CompatStays(w, p, ty, target, rd);
    case _ => LeafStays(w, p, ty, target, rd);
  }

  lemma LeafStays(w: nat, p: Pass, ty: Ty, target: Val, rd: Reader)
    requires (ty.Num? || ty.Var? || ty.Fast?) && WellFormed(ty)
    ensures Ahead(rd, Unpack(w, p, ty, target, rd).rd)
  {
    AheadSelf(rd);
    match ty
    case Num(width) => NumStays(width, target, rd);
    case Var(kind) => ScalarStays(kind, target, rd);
    case Fast(kinds) => GroupStays(kinds, target, rd);
  }

  lemma ContainerStays(w: nat, p: Pass, ty: Ty, target: Val, rd: Reader)
    requires ty.Vec? && WellFormed(ty)
    ensures Ahead(rd, Unpack(w, p, ty, target, rd).rd)
    decreases ty, 1
  {
    AheadSelf(rd);
    if p.Base? {
      VecStays(w, ty, target, rd);
    } else if target.List? {
      EachStays(w, p, ty.elem, target.items, rd);
    }
  }

  lemma StructStays(w: nat, p: Pass, ty: Ty, target: Val, rd: Reader)
    requires ty.Struct? && WellFormed(ty)
    ensures Ahead(rd, Unpack(w, p, ty, target, rd).rd)
    decreases ty, 0
  {
    AheadSelf(rd);
    if target.Rec? {
      FieldsStay(w, p, ty.fields, target.fields, rd);
    }
  }

  lemma CompatStays(w: nat, p: Pass, ty: Ty, target: Val, rd: Reader)
    requires ty.Compat? && WellFormed(ty)
    ensures Ahead(rd, Unpack(w, p, ty, target, rd).rd)
    decreases ty, 0
  {
    AheadSelf(rd);
    PresentStays(w, ty.elem, target, rd);
  }

  lemma OptStays(w: nat, p: Pass, ty: Ty, target: Val, rd: Reader)
    requires ty.Opt? && WellFormed(ty)
    ensures Ahead(rd, Unpack(w, p, ty, target, rd).rd)
    decreases ty, 0
  {
    if p.Base? {
      PresentStays(w, ty.elem, target, rd);
    } else if target.Just? {
      ReaderStays(w, p, ty.elem, target.v, rd);
    }
  }

  lemma VariantStays(w: nat, p: Pass, ty: Ty, target: Val, rd: Reader)
    requires ty.Variant? && WellFormed(ty)
    ensures Ahead(rd, Unpack(w, p, ty, target, rd).rd)
    decreases ty, 0
  {
    if p.Base? {
      if |rd.rest| >= 1 && rd.rest[0] < Length(ty.alts) {
        WellFormedNth(ty.alts, rd.rest[0]);
        var alt := Nth(ty.alts, rd.rest[0]);
        ReaderStays(w, Base, alt, Default(alt), rd.Skip(1));
        AheadTrans(rd, rd.Skip(1), Unpack(w, Base, alt, Default(alt), rd.Skip(1)).rd);
      }
    } else if target.Alt? && target.index < Length(ty.alts) {
      WellFormedNth(ty.alts, target.index);
      ReaderStays(w, p, Nth(ty.alts, target.index), target.v, rd);
    }
  }

  lemma PresentStays(w: nat, elem: Ty, target: Val, rd: Reader)
    requires WellFormed(elem)
    ensures Ahead(rd, UnpackPresent(w, elem, target, rd).rd)
    decreases elem, 3
  {
    if |rd.rest| >= 1 {
      ReaderStays(w, Base, elem, Default(elem), rd.Skip(1));
      AheadTrans(rd, rd.Skip(1), Unpack(w, Base, elem, Default(elem), rd.Skip(1)).rd);
    }
  }

  lemma VecStays(w: nat, ty: Ty, target: Val, rd: Reader)
    requires ty.Vec? && WellFormed(ty)
    ensures Ahead(rd, UnpackVec(w, ty, target, rd).rd)
    decreases ty, 0
  {
    if |rd.rest| >= w {
      var n := FromLittleEndian(rd.rest[..w]);
      var rd1 := rd.Skip(w);
      SkipAhead(rd, w);
      if ty.elem.Num? {
        CopyStays(rd, rd1, n * ty.elem.w);
        var end := UnpackVec(w, ty, target, rd).rd;
        assert end == rd1 || (0 <= n * ty.elem.w <= |rd1.rest| && end == rd1.Skip(n * ty.elem.w));
      } else {
        NewStays(w, ty.elem, n, rd1);
        AheadTrans(rd, rd1, UnpackNew(w, ty.elem, n, rd1).rd);
      }
    }
  }

  lemma CopyStays(rd: Reader, rd1: Reader, size: int)
    requires Ahead(rd, rd1)
    ensures 0 <= size <= |rd1.rest| ==> Ahead(rd, rd1.Skip(size))
  {
    if 0 <= size <= |rd1.rest| {
      SkipAhead(rd1, size);
      AheadTrans(rd, rd1, rd1.Skip(size));
    }
  }

  lemma {:induction false} NewStays(w: nat, elem: Ty, n: nat, rd: Reader)
    requires WellFormed(elem)
    ensures Ahead(rd, UnpackNew(w, elem, n, rd).rd)
    decreases elem, 3 + n
  {
    if n > 0 {
      ReaderStays(w, Base, elem, Default(elem), rd);
      var rd1 := Unpack(w, Base, elem, Default(elem), rd).rd;
      NewStays(w, elem, n - 1, rd1);
      AheadTrans(rd, rd1, UnpackNew(w, elem, n - 1, rd1).rd);
    }
  }

  lemma {:induction false} EachStays(w: nat, p: Pass, elem: Ty, items: seq<Val>, rd: Reader)
    requires WellFormed(elem)
    ensures Ahead(rd, UnpackEach(w, p, elem, items, rd).rd)
    decreases elem, 3 + |items|
  {
    if items != [] {
      ReaderStays(w, p, elem, items[0], rd);
      var rd1 := Unpack(w, p, elem, items[0], rd).rd;
      EachStays(w, p, elem, items[1..], rd1);
      AheadTrans(rd, rd1, UnpackEach(w, p, elem, items[1..], rd1).rd);
    }
  }

  lemma {:induction false} FieldsStay(w: nat, p: Pass, fs: Fields, targets: Vals, rd: Reader)
    requires WellFormeds(fs)
    ensures Ahead(rd, UnpackFields(w, p, fs, targets, rd).rd)
    decreases fs, 0
  {
    if fs.More? && targets.MoreVals? {
      ReaderStays(w, p, fs.head, targets.head, rd);
      var rd1 := Unpack(w, p, fs.head, targets.head, rd).rd;
      var rd2 := UnpackFields(w, p, fs.tail, targets.tail, rd1).rd;
      FieldsStay(w, p, fs.tail, targets.tail, rd1);
      AheadTrans(rd, rd1, rd2);
      FieldsEnd(w, p, fs, targets, rd);
    }
  }

  lemma FieldsEnd(w: nat, p: Pass, fs: Fields, targets: Vals, rd: Reader)
    requires WellFormeds(fs) && fs.More? && targets.MoreVals?
    ensures var r := Unpack(w, p, fs.head, targets.head, rd);
            UnpackFields(w, p, fs, targets, rd).rd
            == if r.code != Ok then r.rd else UnpackFields(w, p, fs.tail, targets.tail, r.rd).rd
  {
  }

  lemma {:induction false} VersionsStay(w: nat, vs: seq<nat>, ty: Ty, target: Val, rd: Reader)
    requires WellFormed(ty)
    ensures Ahead(rd, UnpackVersions(w, vs, ty, target, rd).rd)
  {
    if vs != [] {
      ReaderStays(w, At(vs[0]), ty, target, rd);
      var r := Unpack(w, At(vs[0]), ty, target, rd);
      VersionsStay(w, vs[1..], ty, r.val, r.rd);
      AheadTrans(rd, r.rd, UnpackVersions(w, vs[1..], ty, r.val, r.rd).rd);
    }
  }

  /** Deserialising any bytes whatever ends inside them: what is left is a suffix,
      and the position is the number of bytes read. */
  lemma DeserializeStays(id: TypeId, ty: Ty, target: Val, bs: seq<byte>)
    requires WellFormed(ty)
    ensures var rd := Deserialize(id, ty, target, bs).rd;
            rd.now <= |bs| && rd.rest == bs[rd.now..]
  {
    var h := ReadHead(id, bs);
    HeadIsSuffix(id, bs);
    var rd := Reader(|bs| - |h.rest|, h.rest, h.dataLen, false);
    if h.code == Ok {
      var out := UnpackAll(WidthOf(h.widthCode), ty, target, rd).rd;
      BodyStays(WidthOf(h.widthCode), ty, target, rd);
      SuffixOfSuffix(bs, rd, out);
      assert Deserialize(id, ty, target, bs).rd == out;
    }
  }

  lemma SuffixOfSuffix(bs: seq<byte>, a: Reader, b: Reader)
    requires a.now <= |bs| && a.rest == bs[a.now..] && Ahead(a, b)
    ensures b.now <= |bs| && b.rest == bs[b.now..]
  {
  }

  lemma HeadIsSuffix(id: TypeId, bs: seq<byte>)
    ensures var h := ReadHead(id, bs); |h.rest| <= |bs| && h.rest == bs[|bs| - |h.rest|..]
  {
  }

  lemma BodyStays(w: nat, ty: Ty, target: Val, rd: Reader)
    requires WellFormed(ty)
    ensures Ahead(rd, UnpackAll(w, ty, target, rd).rd)
  {
    ReaderStays(w, Base, ty, target, rd);
    var r := Unpack(w, Base, ty, target, rd);
    VersionsStay(w, Versions(ty), ty, r.val, r.rd);
    AheadTrans(rd, r.rd, UnpackVersions(w, Versions(ty), ty, r.val, r.rd).rd);
  }

  // ----- Truncated buffers

  /** Types built from scalars, strings, vectors and structs. */
  predicate Plain(ty: Ty) {
    match ty
    case Num(_) => true
    case Var(_) => true
    case Fast(_) => true
    case Vec(elem) => Plain(elem)
    case Struct(fields) => Plains(fields)
    case _ => false
  }

  predicate Plains(fs: Fields) {
    match fs
    case End => true
    case More(head, tail) => Plain(head) && Plains(tail)
  }

  predicate StrictPrefix(a: seq<byte>, b: seq<byte>) { |a| < |b| && a == b[..|a|] }

  /** A cut through a + b falls inside a, or leaves a whole and cuts b. */
  lemma PrefixSplits(cut: seq<byte>, a: seq<byte>, b: seq<byte>)
    requires StrictPrefix(cut, a + b)
    ensures if |cut| < |a| then StrictPrefix(cut, a) else cut == a + cut[|a|..] && StrictPrefix(cut[|a|..], b)
  {
    if |cut| < |a| {
      assert (a + b)[..|cut|] == a[..|cut|];
    } else {
      assert (a + b)[..|cut|] == a + b[..|cut| - |a|];
    }
  }

  lemma VarCut(kind: VarKind, n: int, target: Val, rd: Reader)
    requires InVarRange(kind, n) && StrictPrefix(rd.rest, VarBytes(kind, n))
    ensures ReadVar(kind, target, rd).code == NoBufferSpace
  {
    VarDecodes(kind, n, []);
    DecodePrefix(VarCode(kind, n), |rd.rest|);
  }

  /** Every strict prefix of what was packed is refused for want of bytes. */
  lemma {:induction false} CutRefused(w: nat, ty: Ty, v: Val, rd: Reader)
    requires WellFormed(ty) && Plain(ty) && Typed(ty, v) && LengthsFit(w, ty, v)
    requires StrictPrefix(rd.rest, Pack(w, Base, ty, v))
    ensures Unpack(w, Base, ty, Default(ty), rd).code == NoBufferSpace
    decreases ty, 1
  {
    match ty
    case Num(width) =>
    case Var(kind) => VarCut(kind, v.n, Int(0), rd);
    case Fast(kinds) => FV.GroupCut(kinds, v.ns, rd.rest);
    case Vec(_) => VecCut(w, ty, v, rd);
    case Struct(fields) => FieldsCut(w, fields, v.fields, rd);
  }

  lemma VecCut(w: nat, ty: Ty, v: Val, rd: Reader)
    requires ty.Vec? && WellFormed(ty) && Plain(ty) && Typed(ty, v) && LengthsFit(w, ty, v)
    requires StrictPrefix(rd.rest, Pack(w, Base, ty, v))
    ensures UnpackVec(w, ty, List([]), rd).code == NoBufferSpace
    decreases ty, 0
  {
    var elem, n := ty.elem, |v.items|;
    var len, body := LittleEndian(n, w), PackItems(w, Base, elem, v.items);
    PrefixSplits(rd.rest, len, body);
    if |rd.rest| >= w {
      assert rd.rest[..w] == len;
      LittleEndianRoundTrip(n, w);
      if elem.Num? {
        CopyRoundTrip(w, elem.w, v.items, []);
      } else {
        NewCut(w, elem, v.items, rd.Skip(w));
      }
    }
  }

  lemma {:induction false} NewCut(w: nat, elem: Ty, items: seq<Val>, rd: Reader)
    requires WellFormed(elem) && Plain(elem)
    requires forall i :: 0 <= i < |items| ==> Typed(elem, items[i]) && LengthsFit(w, elem, items[i])
    requires StrictPrefix(rd.rest, PackItems(w, Base, elem, items))
    ensures UnpackNew(w, elem, |items|, rd).code == NoBufferSpace
    decreases elem, 2 + |items|
  {
    var own, next := Pack(w, Base, elem, items[0]), PackItems(w, Base, elem, items[1..]);
    assert PackItems(w, Base, elem, items) == own + next;
    PrefixSplits(rd.rest, own, next);
    if |rd.rest| < |own| {
      CutRefused(w, elem, items[0], rd);
    } else {
      var tail := rd.rest[|own|..];
      PassRoundTrip(w, Base, elem, items[0], rd, tail);
      NewCut(w, elem, items[1..], Past(rd, own, tail));
      assert UnpackNew(w, elem, |items|, rd).code == UnpackNew(w, elem, |items| - 1, Past(rd, own, tail)).code;
    }
  }

  lemma {:induction false} FieldsCut(w: nat, fs: Fields, vs: Vals, rd: Reader)
    requires WellFormeds(fs) && Plains(fs) && Typeds(fs, vs) && LengthsFits(w, fs, vs)
    requires StrictPrefix(rd.rest, PackFields(w, Base, fs, vs))
    ensures UnpackFields(w, Base, fs, Defaults(fs), rd).code == NoBufferSpace
    decreases fs, 0
  {
    var own, next := Pack(w, Base, fs.head, vs.head), PackFields(w, Base, fs.tail, vs.tail);
    PrefixSplits(rd.rest, own, next);
    if |rd.rest| < |own| {
      CutRefused(w, fs.head, vs.head, rd);
    } else {
      var tail := rd.rest[|own|..];
      PassRoundTrip(w, Base, fs.head, vs.head, rd, tail);
      FieldsCut(w, fs.tail, vs.tail, Past(rd, own, tail));
    }
  }

  lemma PlainHasNoCompat(ty: Ty)
    requires Plain(ty)
    ensures NoCompat(ty)
  {
    match ty
    case Vec(elem) => PlainHasNoCompat(elem);
    case Struct(fields) => PlainsHaveNoCompat(fields);
    case _ =>
  }

  lemma PlainsHaveNoCompat(fs: Fields)
    requires Plains(fs)
    ensures NoCompats(fs)
  {
    if fs.More? {
      PlainHasNoCompat(fs.head);
      PlainsHaveNoCompat(fs.tail);
    }
  }

  /** Every strict prefix of a serialised buffer is rejected with no_buffer_space. */
  lemma TruncationRefused(id: TypeId, ty: Ty, v: Val, bs: seq<byte>)
    requires IdOk(id) && WellFormed(ty) && Plain(ty) && Typed(ty, v) && NeededSize(id, ty, v) < TWO64
    requires StrictPrefix(bs, Serialize(id, ty, v))
    ensures Deserialize(id, ty, Default(ty), bs).code == NoBufferSpace
  {
    var info := RuntimeInfo(id, ty, v);
    InfoOk(id, ty, v);
    WidthFits(id, ty, v);
    PlainHasNoCompat(ty);
    VersionsNoCompat(ty);
    CutBuffer(id, ty, v, info, bs);
  }

  lemma CutBuffer(id: TypeId, ty: Ty, v: Val, info: Info, bs: seq<byte>)
    requires IdOk(id) && WellFormed(ty) && Plain(ty) && Typed(ty, v) && InfoFits(id, ty, info)
    requires !HasCompat(ty) && LengthsFit(WidthOf(info.widthCode), ty, v)
    requires StrictPrefix(bs, Header(id, ty, info) + Payload(WidthOf(info.widthCode), ty, v))
    ensures Deserialize(id, ty, Default(ty), bs).code == NoBufferSpace
  {
    var w := WidthOf(info.widthCode);
    var head := Header(id, ty, info);
    assert Payload(w, ty, v) == Pack(w, Base, ty, v);
    PrefixSplits(bs, head, Payload(w, ty, v));
    if |bs| < |head| {
      HeadCut(id, ty, info, bs);
    } else {
      var body := bs[|head|..];
      DeserializeHeader(id, ty, ty, Default(ty), info, body);
      CutRefused(w, ty, v, Reader(|head|, body, DataLen(info), false));
    }
  }

  /** So is every strict prefix of a header. */
  lemma HeadCut(id: TypeId, ty: Ty, info: Info, bs: seq<byte>)
    requires IdOk(id) && InfoFits(id, ty, info)
    requires StrictPrefix(bs, Header(id, ty, info))
    ensures ReadHead(id, bs).code == NoBufferSpace
  {
    if HasMeta(ty, info) {
      LongHeader(id, ty, info);
      MetaParts(info);
      LongHeadCut(id, info.Metainfo(), LittleEndian(info.len, LenBytes(info.lenCode)), bs);
    }
  }

  lemma LongHeadCut(id: TypeId, metainfo: byte, len: seq<byte>, bs: seq<byte>)
    requires IdOk(id) && |len| == LenBytes(metainfo % 4) && (metainfo / 4 % 2 == 1 <==> id.written)
    requires StrictPrefix(bs, LittleEndian(id.hash + 1, 4) + [metainfo] + len + id.Literal())
    ensures ReadHead(id, bs).code == NoBufferSpace
  {
    var word := LittleEndian(id.hash + 1, 4);
    HashRoundTrip(id.hash + 1);
    assert |bs| >= 4 ==> bs[..4] == word;
    if |bs| >= 5 {
      assert bs[4] == metainfo;
      assert bs == word + [metainfo] + bs[5..];
      HashHead(id, metainfo, bs[5..]);
    }
  }

  // ----- A last member that drops codes

  /** The unpacker drops the result code of the value inside these. */
  predicate Lenient(t: Ty) { t.Opt? || t.Variant? || t.Compat? }

  function Join(fs: Fields, gs: Fields): Fields {
    match fs
    case End => gs
    case More(head, tail) => More(head, Join(tail, gs))
  }

  function JoinVals(vs: Vals, us: Vals): Vals {
    match vs
    case NoVals => us
    case MoreVals(head, tail) => MoreVals(head, JoinVals(tail, us))
  }

  function EndWith(fs: Fields, t: Ty): Fields { Join(fs, More(t, End)) }

  function EndVals(vs: Vals, v: Val): Vals { JoinVals(vs, MoreVals(v, NoVals)) }

  lemma JoinTyped(w: nat, fs: Fields, vs: Vals, gs: Fields, us: Vals)
    requires WellFormeds(fs) && Typeds(fs, vs) && WellFormeds(gs) && Typeds(gs, us)
    ensures WellFormeds(Join(fs, gs)) && Typeds(Join(fs, gs), JoinVals(vs, us))
    ensures LengthsFits(w, Join(fs, gs), JoinVals(vs, us)) <==> LengthsFits(w, fs, vs) && LengthsFits(w, gs, us)
    decreases fs
  {
    if fs.More? {
      JoinTyped(w, fs.tail, vs.tail, gs, us);
    }
  }

  lemma {:induction false} JoinPack(w: nat, p: Pass, fs: Fields, vs: Vals, gs: Fields, us: Vals)
    requires Typeds(fs, vs) && Typeds(gs, us) && Typeds(Join(fs, gs), JoinVals(vs, us))
    ensures PackFields(w, p, Join(fs, gs), JoinVals(vs, us)) == PackFields(w, p, fs, vs) + PackFields(w, p, gs, us)
    decreases fs
  {
    if fs.More? {
      JoinPack(w, p, fs.tail, vs.tail, gs, us);
      AppendTwice(Pack(w, p, fs.head, vs.head), PackFields(w, p, fs.tail, vs.tail), PackFields(w, p, gs, us));
    } else {
      assert [] + PackFields(w, p, gs, us) == PackFields(w, p, gs, us);
    }
  }

  lemma EndTyped(w: nat, fs: Fields, vs: Vals, t: Ty, v: Val)
    requires WellFormeds(fs) && Typeds(fs, vs) && WellFormed(t) && Typed(t, v)
    ensures WellFormeds(EndWith(fs, t)) && Typeds(EndWith(fs, t), EndVals(vs, v))
    ensures LengthsFits(w, EndWith(fs, t), EndVals(vs, v)) <==> LengthsFits(w, fs, vs) && LengthsFit(w, t, v)
  {
    assert WellFormeds(More(t, End)) && Typeds(More(t, End), MoreVals(v, NoVals));
    JoinTyped(w, fs, vs, More(t, End), MoreVals(v, NoVals));
    assert LengthsFits(w, More(t, End), MoreVals(v, NoVals)) <==> LengthsFit(w, t, v);
  }

  lemma EndPack(w: nat, p: Pass, fs: Fields, vs: Vals, t: Ty, v: Val)
    requires Typeds(fs, vs) && Typed(t, v) && Typeds(EndWith(fs, t), EndVals(vs, v))
    ensures PackFields(w, p, EndWith(fs, t), EndVals(vs, v)) == PackFields(w, p, fs, vs) + Pack(w, p, t, v)
  {
    assert Typeds(More(t, End), MoreVals(v, NoVals));
    JoinPack(w, p, fs, vs, More(t, End), MoreVals(v, NoVals));
    assert PackFields(w, p, End, NoVals) == [] && Pack(w, p, t, v) + [] == Pack(w, p, t, v);
  }

  /** A version pass finds nothing in a plain type. */
  lemma {:induction false} PlainQuiet(w: nat, x: nat, ty: Ty, target: Val, rd: Reader)
    requires WellFormed(ty) && Plain(ty)
    ensures Unpack(w, At(x), ty, target, rd) == Result(Ok, target, rd)
    decreases ty, 1
  {
    match ty
    case Vec(elem) =>
      if target.List? {
        EachQuiet(w, x, elem, target.items, rd);
      }
    case Struct(fields) =>
      if target.Rec? {
        FieldsQuiet(w, x, fields, target.fields, rd);
      }
    case _ =>
  }

  lemma {:induction false} EachQuiet(w: nat, x: nat, elem: Ty, items: seq<Val>, rd: Reader)
    requires WellFormed(elem) && Plain(elem)
    ensures UnpackEach(w, At(x), elem, items, rd) == Items(Ok, items, rd)
    decreases elem, 2 + |items|
  {
    if items != [] {
      PlainQuiet(w, x, elem, items[0], rd);
      EachQuiet(w, x, elem, items[1..], rd);
    }
  }

  lemma {:induction false} FieldsQuiet(w: nat, x: nat, fs: Fields, targets: Vals, rd: Reader)
    requires WellFormeds(fs) && Plains(fs)
    ensures UnpackFields(w, At(x), fs, targets, rd) == Results(Ok, targets, rd)
    decreases fs, 0
  {
    if fs.More? && targets.MoreVals? {
      PlainQuiet(w, x, fs.head, targets.head, rd);
      FieldsQuiet(w, x, fs.tail, targets.tail, rd);
    }
  }

  /** Optionals and variants swallow every failure of a version pass. */
  lemma {:induction false} LenientPassOk(w: nat, x: nat, fs: Fields, t: Ty, targets: Vals, rd: Reader)
    requires WellFormeds(fs) && Plains(fs) && WellFormed(t) && (t.Opt? || t.Variant?) && WellFormeds(EndWith(fs, t))
    ensures UnpackFields(w, At(x), EndWith(fs, t), targets, rd).code == Ok
    decreases fs
  {
    if targets.MoreVals? {
      if fs.More? {
        PlainQuiet(w, x, fs.head, targets.head, rd);
        LenientPassOk(w, x, fs.tail, t, targets.tail, rd);
      } else if t.Variant? && targets.head.Alt? && targets.head.index < Length(t.alts) {
        WellFormedNth(t.alts, targets.head.index);
      }
    }
  }

  lemma {:induction false} LenientVersionsOk(w: nat, vs: seq<nat>, fs: Fields, t: Ty, target: Val, rd: Reader)
    requires WellFormeds(fs) && Plains(fs) && WellFormed(t) && (t.Opt? || t.Variant?) && WellFormeds(EndWith(fs, t))
    ensures UnpackVersions(w, vs, Struct(EndWith(fs, t)), target, rd).code == Ok
  {
    if vs != [] {
      var ty := Struct(EndWith(fs, t));
      if target.Rec? {
        LenientPassOk(w, vs[0], fs, t, target.fields, rd);
      }
      var r := Unpack(w, At(vs[0]), ty, target, rd);
      LenientVersionsOk(w, vs[1..], fs, t, r.val, r.rd);
    }
  }

  /** The base pass over whole plain members goes on with the others. */
  lemma {:induction false} JoinReaches(w: nat, fs: Fields, vs: Vals, gs: Fields, rd: Reader, more: seq<byte>)
    requires WellFormeds(fs) && Plains(fs) && Typeds(fs, vs) && LengthsFits(w, fs, vs)
    requires WellFormeds(gs) && WellFormeds(Join(fs, gs)) && rd.rest == PackFields(w, Base, fs, vs) + more
    ensures var r := UnpackFields(w, Base, gs, Defaults(gs), Past(rd, PackFields(w, Base, fs, vs), more));
            UnpackFields(w, Base, Join(fs, gs), Defaults(Join(fs, gs)), rd)
            == Results(r.code, JoinVals(vs, r.vals), r.rd)
    decreases fs
  {
    if fs.End? {
      assert [] + more == more;
    } else {
      var own, next := Pack(w, Base, fs.head, vs.head), PackFields(w, Base, fs.tail, vs.tail);
      SplitReads(Base, rd, own, next, more);
      PassRoundTrip(w, Base, fs.head, vs.head, rd, next + more);
      PlainHasNoCompat(fs.head);
      KeepNoCompat(-1, fs.head, vs.head);
      JoinReaches(w, fs.tail, vs.tail, gs, Past(rd, own, next + more), more);
    }
  }

  /** In particular with a last one. */
  lemma BaseReachesLast(w: nat, fs: Fields, vs: Vals, t: Ty, rd: Reader, more: seq<byte>)
    requires WellFormeds(fs) && Plains(fs) && Typeds(fs, vs) && LengthsFits(w, fs, vs)
    requires WellFormed(t) && WellFormeds(EndWith(fs, t)) && rd.rest == PackFields(w, Base, fs, vs) + more
    ensures var last := Unpack(w, Base, t, Default(t), Past(rd, PackFields(w, Base, fs, vs), more));
            UnpackFields(w, Base, EndWith(fs, t), Defaults(EndWith(fs, t)), rd)
            == Results(last.code, EndVals(vs, last.val), last.rd)
  {
    assert WellFormeds(More(t, End));
    JoinReaches(w, fs, vs, More(t, End), rd, more);
    var last := Unpack(w, Base, t, Default(t), Past(rd, PackFields(w, Base, fs, vs), more));
    assert Defaults(More(t, End)) == MoreVals(Default(t), NoVals);
    assert UnpackFields(w, Base, End, NoVals, last.rd) == Results(Ok, NoVals, last.rd);
  }

  /** A version pass reaches the last member with the reader where it was. */
  lemma {:induction false} PassReachesLast(w: nat, x: nat, fs: Fields, vs: Vals, t: Ty, target: Val, rd: Reader)
    requires WellFormeds(fs) && Plains(fs) && Typeds(fs, vs) && WellFormed(t) && WellFormeds(EndWith(fs, t))
    ensures var last := Unpack(w, At(x), t, target, rd);
            UnpackFields(w, At(x), EndWith(fs, t), EndVals(vs, target), rd)
            == Results(last.code, EndVals(vs, last.val), last.rd)
    decreases fs
  {
    if fs.More? {
      PlainQuiet(w, x, fs.head, vs.head, rd);
      PassReachesLast(w, x, fs.tail, vs.tail, t, target, rd);
    }
  }

  /** A cut inside the plain members stops the base pass. */
  lemma {:induction false} PlainPartCut(w: nat, fs: Fields, vs: Vals, gs: Fields, rd: Reader)
    requires WellFormeds(fs) && Plains(fs) && Typeds(fs, vs) && LengthsFits(w, fs, vs)
    requires WellFormeds(gs) && WellFormeds(Join(fs, gs)) && StrictPrefix(rd.rest, PackFields(w, Base, fs, vs))
    ensures UnpackFields(w, Base, Join(fs, gs), Defaults(Join(fs, gs)), rd).code == NoBufferSpace
    decreases fs
  {
    var own, next := Pack(w, Base, fs.head, vs.head), PackFields(w, Base, fs.tail, vs.tail);
    PrefixSplits(rd.rest, own, next);
    if |rd.rest| < |own| {
      CutRefused(w, fs.head, vs.head, rd);
    } else {
      var tail := rd.rest[|own|..];
      PassRoundTrip(w, Base, fs.head, vs.head, rd, tail);
      PlainPartCut(w, fs.tail, vs.tail, gs, Past(rd, own, tail));
    }
  }

  lemma {:induction false} VersionsAtEnd(fs: Fields, t: Ty)
    requires Plains(fs)
    ensures VersionsOf(EndWith(fs, t)) == Merge(Versions(t), [])
    decreases fs
  {
    if fs.More? {
      VersionsAtEnd(fs.tail, t);
      PlainHasNoCompat(fs.head);
      VersionsNoCompat(fs.head);
    }
  }

  lemma CompatAtEnd(fs: Fields, t: Ty)
    requires Plains(fs) && t.Compat?
    ensures VersionsOf(EndWith(fs, t)) == [t.version]
  {
    VersionsAtEnd(fs, t);
    var vs := Versions(t);
    assert vs == [t.version] && vs[1..] == [];
    assert Merge(vs[1..], []) == [];
  }

  /** With any byte of it left, an optional or a variant is accepted. */
  lemma FirstByteDecides(w: nat, t: Ty, v: Val, rd: Reader)
    requires WellFormed(t) && (t.Opt? || t.Variant?) && Typed(t, v)
    requires rd.rest != [] ==> rd.rest[0] == Pack(w, Base, t, v)[0]
    ensures Unpack(w, Base, t, Default(t), rd).code == if rd.rest == [] then NoBufferSpace else Ok
  {
    if t.Variant? {
      assert Pack(w, Base, t, v)[0] == v.index;
    }
  }

  /** What a cut payload gives, by what is left after the plain members. */
  lemma OptionalLast(w: nat, fs: Fields, vs: Vals, t: Ty, v: Val, rd: Reader, more: seq<byte>)
    requires WellFormeds(fs) && Plains(fs) && Typeds(fs, vs) && LengthsFits(w, fs, vs)
    requires WellFormed(t) && (t.Opt? || t.Variant?) && Typed(t, v) && WellFormeds(EndWith(fs, t))
    requires rd.rest == PackFields(w, Base, fs, vs) + more && (more != [] ==> more[0] == Pack(w, Base, t, v)[0])
    ensures var ty := Struct(EndWith(fs, t));
            UnpackAll(w, ty, Default(ty), rd).code == if more == [] then NoBufferSpace else Ok
  {
    var ty := Struct(EndWith(fs, t));
    BaseReachesLast(w, fs, vs, t, rd, more);
    FirstByteDecides(w, t, v, Past(rd, PackFields(w, Base, fs, vs), more));
    var r := Unpack(w, Base, ty, Default(ty), rd);
    assert r.code == if more == [] then NoBufferSpace else Ok;
    LenientVersionsOk(w, Versions(ty), fs, t, r.val, r.rd);
  }

  lemma CompatLast(w: nat, fs: Fields, vs: Vals, t: Ty, rd: Reader, more: seq<byte>)
    requires WellFormeds(fs) && Plains(fs) && Typeds(fs, vs) && LengthsFits(w, fs, vs)
    requires WellFormed(t) && t.Compat? && WellFormeds(EndWith(fs, t))
    requires rd.rest == PackFields(w, Base, fs, vs) + more && !rd.exhausted
    requires rd.now + |PackFields(w, Base, fs, vs)| < rd.dataLen
    ensures var ty := Struct(EndWith(fs, t));
            UnpackAll(w, ty, Default(ty), rd).code == if more == [] then NoBufferSpace else Ok
  {
    var ty := Struct(EndWith(fs, t));
    BaseReachesLast(w, fs, vs, t, rd, more);
    CompatAtEnd(fs, t);
    var rd1 := Past(rd, PackFields(w, Base, fs, vs), more);
    assert Unpack(w, Base, ty, Default(ty), rd) == Result(Ok, Rec(EndVals(vs, Null)), rd1);
    PassReachesLast(w, t.version, fs, vs, t, Null, rd1);
    var r := Unpack(w, At(t.version), ty, Rec(EndVals(vs, Null)), rd1);
    assert r.code == (if more == [] then NoBufferSpace else Ok) && (more == [] ==> !r.rd.exhausted);
    var passes := Versions(ty);
    assert passes == [t.version] && passes[1..] == [];
    assert UnpackVersions(w, passes[1..], ty, r.val, r.rd).code == Ok;
    assert UnpackVersions(w, passes, ty, Rec(EndVals(vs, Null)), rd1).code == r.code;
  }

  /** A strict prefix of plain members followed by an optional, a variant or a
      compatible member is refused if and only if nothing of the last member is
      left: the code of the value inside it is dropped. */
  lemma CutAtLast(id: TypeId, fs: Fields, vs: Vals, t: Ty, v: Val, bs: seq<byte>)
    requires IdOk(id) && WellFormeds(fs) && Plains(fs) && Typeds(fs, vs)
    requires WellFormed(t) && Lenient(t) && Typed(t, v)
    requires Typeds(EndWith(fs, t), EndVals(vs, v))
    requires var ty, all := Struct(EndWith(fs, t)), Rec(EndVals(vs, v));
             NeededSize(id, ty, all) < TWO64 && StrictPrefix(bs, Serialize(id, ty, all))
    ensures WellFormeds(EndWith(fs, t))
    ensures var ty, all := Struct(EndWith(fs, t)), Rec(EndVals(vs, v));
            var info := RuntimeInfo(id, ty, all);
            Deserialize(id, ty, Default(ty), bs).code
            == if |bs| <= |Header(id, ty, info)|
              + |PackFields(WidthOf(info.widthCode), Base, fs, vs)| then NoBufferSpace else Ok
  {
    var ty, all := Struct(EndWith(fs, t)), Rec(EndVals(vs, v));
    var info := RuntimeInfo(id, ty, all);
    EndTyped(WidthOf(info.widthCode), fs, vs, t, v);
    NeededSizeIsExact(id, ty, all);
    InfoOk(id, ty, all);
    WidthFits(id, ty, all);
    CutAtLastOf(id, fs, vs, t, v, info, bs);
  }

  lemma CutAtLastOf(id: TypeId, fs: Fields, vs: Vals, t: Ty, v: Val, info: Info, bs: seq<byte>)
    requires IdOk(id) && WellFormeds(fs) && Plains(fs) && Typeds(fs, vs) && LengthsFits(WidthOf(info.widthCode), fs, vs)
    requires WellFormed(t) && Lenient(t) && Typed(t, v)
    requires WellFormeds(EndWith(fs, t)) && Typeds(EndWith(fs, t), EndVals(vs, v))
    requires var ty := Struct(EndWith(fs, t));
             var bytes := Header(id, ty, info) + Payload(WidthOf(info.widthCode), ty, Rec(EndVals(vs, v)));
             && InfoFits(id, ty, info) && StrictPrefix(bs, bytes)
             && (HasCompat(ty) ==> DataLen(info) >= |bytes|)
    ensures var ty := Struct(EndWith(fs, t));
            Deserialize(id, ty, Default(ty), bs).code
            == if |bs| <= |Header(id, ty, info)|
              + |PackFields(WidthOf(info.widthCode), Base, fs, vs)| then NoBufferSpace else Ok
  {
    var ty := Struct(EndWith(fs, t));
    var w := WidthOf(info.widthCode);
    var head, body := Header(id, ty, info), Payload(w, ty, Rec(EndVals(vs, v)));
    PrefixSplits(bs, head, body);
    if |bs| < |head| {
      HeadCut(id, ty, info, bs);
    } else {
      var rest := bs[|head|..];
      DeserializeHeader(id, ty, ty, Default(ty), info, rest);
      var rd := Reader(|head|, rest, DataLen(info), false);
      PayloadCut(w, fs, vs, t, v, rd);
    }
  }

  lemma PayloadCut(w: nat, fs: Fields, vs: Vals, t: Ty, v: Val, rd: Reader)
    requires WellFormeds(fs) && Plains(fs) && Typeds(fs, vs) && LengthsFits(w, fs, vs)
    requires WellFormed(t) && Lenient(t) && Typed(t, v)
    requires WellFormeds(EndWith(fs, t)) && Typeds(EndWith(fs, t), EndVals(vs, v))
    requires var ty := Struct(EndWith(fs, t));
             var body := Payload(w, ty, Rec(EndVals(vs, v)));
             !rd.exhausted && StrictPrefix(rd.rest, body) && (HasCompat(ty) ==> rd.dataLen >= rd.now + |body|)
    ensures var ty := Struct(EndWith(fs, t));
            UnpackAll(w, ty, Default(ty), rd).code
            == if |rd.rest| <= |PackFields(w, Base, fs, vs)| then NoBufferSpace else Ok
  {
    var ty, all := Struct(EndWith(fs, t)), Rec(EndVals(vs, v));
    var own, last := PackFields(w, Base, fs, vs), Pack(w, Base, t, v);
    var later := PackVersions(w, Versions(ty), ty, all);
    EndPack(w, Base, fs, vs, t, v);
    AppendTwice(own, last, later);
    assert Payload(w, ty, all) == own + (last + later);
    PrefixSplits(rd.rest, own, last + later);
    if |rd.rest| < |own| {
      assert WellFormeds(More(t, End));
      PlainPartCut(w, fs, vs, More(t, End), rd);
    } else {
      LastCut(w, fs, vs, t, v, rd, rd.rest[|own|..], later);
    }
  }

  lemma LastCut(w: nat, fs: Fields, vs: Vals, t: Ty, v: Val, rd: Reader, more: seq<byte>, later: seq<byte>)
    requires WellFormeds(fs) && Plains(fs) && Typeds(fs, vs) && LengthsFits(w, fs, vs)
    requires WellFormed(t) && Lenient(t) && Typed(t, v) && WellFormeds(EndWith(fs, t))
    requires rd.rest == PackFields(w, Base, fs, vs) + more && !rd.exhausted
    requires StrictPrefix(more, Pack(w, Base, t, v) + later)
    requires t.Compat? ==> rd.now + |PackFields(w, Base, fs, vs)| < rd.dataLen
    ensures var ty := Struct(EndWith(fs, t));
            UnpackAll(w, ty, Default(ty), rd).code == if more == [] then NoBufferSpace else Ok
  {
    if t.Compat? {
      CompatLast(w, fs, vs, t, rd, more);
    } else {
      assert |Pack(w, Base, t, v)| >= 1;
      OptionalLast(w, fs, vs, t, v, rd, more);
    }
  }

  // ----- Members after the one that is cut

  /** The fewest bytes a plain type can be read from. */
  function MinSize(w: nat, ty: Ty): nat {
    match ty
    case Num(width) => width
    case Var(_) => 1
    case Fast(kinds) => (|kinds| + 9) / 8
    case Vec(_) => w
    case Struct(fields) => MinSizes(w, fields)
    case _ => 0
  }

  function MinSizes(w: nat, fs: Fields): nat {
    match fs
    case End => 0
    case More(head, tail) => MinSize(w, head) + MinSizes(w, tail)
  }

  /** Forward, and not past the end. */
  predicate OnBy(a: Reader, b: Reader) { a.now <= b.now && b.now + |b.rest| == a.now + |a.rest| }

  lemma ReaderMoves(w: nat, p: Pass, ty: Ty, target: Val, rd: Reader)
    requires WellFormed(ty)
    ensures OnBy(rd, Unpack(w, p, ty, target, rd).rd)
  {
    ReaderStays(w, p, ty, target, rd);
  }

  lemma FieldsMove(w: nat, p: Pass, fs: Fields, targets: Vals, rd: Reader)
    requires WellFormeds(fs)
    ensures OnBy(rd, UnpackFields(w, p, fs, targets, rd).rd)
  {
    FieldsStay(w, p, fs, targets, rd);
  }

  lemma NewMove(w: nat, elem: Ty, n: nat, rd: Reader)
    requires WellFormed(elem)
    ensures OnBy(rd, UnpackNew(w, elem, n, rd).rd)
  {
    NewStays(w, elem, n, rd);
  }

  lemma {:induction false} NeedsBytes(w: nat, ty: Ty, rd: Reader)
    requires WellFormed(ty) && Plain(ty)
    ensures var r := Unpack(w, Base, ty, Default(ty), rd); r.code == Ok ==> r.rd.now >= rd.now + MinSize(w, ty)
    decreases ty, 1
  {
    match ty
    case Var(kind) => VarNeedsByte(kind, rd);
    case Fast(kinds) => GroupNeedsBytes(kinds, rd);
    case Vec(_) => VecNeedsBytes(w, ty, rd);
    case Struct(fields) => FieldsNeedBytes(w, fields, rd);
    case _ =>
  }

  lemma {:induction false} ValueUses(bs: seq<byte>, k: nat)
    requires k <= |bs|
    ensures DecodeFrom(bs, k).Value? ==> DecodeFrom(bs, k).used > k
    decreases |bs| - k
  {
    if k < |bs| {
      ValueUses(bs, k + 1);
    }
  }

  lemma VarNeedsByte(kind: VarKind, rd: Reader)
    requires 0 < kind.bits <= 64
    ensures var r := ReadVar(kind, Int(0), rd); r.code == Ok ==> r.rd.now >= rd.now + 1
  {
    DecodeUsed(rd.rest, 0);
    ValueUses(rd.rest, 0);
  }

  lemma GroupNeedsBytes(kinds: seq<FV.Kind>, rd: Reader)
    ensures var r := ReadFast(kinds, Nums(FV.Zeros(|kinds|)), rd);
            r.code == Ok ==> r.rd.now >= rd.now + (|kinds| + 9) / 8
  {
    var n := (|kinds| + 9) / 8;
    var zeros := FV.Zeros(|kinds|);
    FV.GroupLeavesSuffix(kinds, zeros, rd.rest);
    if n <= |rd.rest| {
      var flags := FV.BitsOf(rd.rest[..n], |kinds| + 2);
      FV.FieldsLeaveSuffix(kinds, zeros, flags, 0, FV.Width(FV.CodeOf(flags)), rd.rest[n..]);
    }
  }

  lemma VecNeedsBytes(w: nat, ty: Ty, rd: Reader)
    requires ty.Vec? && WellFormed(ty)
    ensures var r := UnpackVec(w, ty, List([]), rd); r.code == Ok ==> r.rd.now >= rd.now + w
  {
    if |rd.rest| >= w {
      var n := FromLittleEndian(rd.rest[..w]);
      if !ty.elem.Num? {
        NewMove(w, ty.elem, n, rd.Skip(w));
      }
    }
  }

  lemma {:induction false} FieldsNeedBytes(w: nat, fs: Fields, rd: Reader)
    requires WellFormeds(fs) && Plains(fs)
    ensures var r := UnpackFields(w, Base, fs, Defaults(fs), rd);
            r.code == Ok ==> r.rd.now >= rd.now + MinSizes(w, fs)
    decreases fs, 0
  {
    if fs.More? {
      NeedsBytes(w, fs.head, rd);
      FieldsNeedBytes(w, fs.tail, Unpack(w, Base, fs.head, Default(fs.head), rd).rd);
    }
  }

  /** An optional or variant uses up its first byte. */
  lemma OptByteUsed(w: nat, t: Ty, rd: Reader)
    requires WellFormed(t) && t.Opt? && rd.rest != []
    ensures Unpack(w, Base, t, Default(t), rd).rd.now >= rd.now + 1
  {
    ReaderMoves(w, Base, t.elem, Default(t.elem), rd.Skip(1));
  }

  lemma VariantByteUsed(w: nat, t: Ty, rd: Reader)
    requires WellFormed(t) && t.Variant? && rd.rest != []
    ensures Unpack(w, Base, t, Default(t), rd).rd.now >= rd.now + 1
  {
    if rd.rest[0] < Length(t.alts) {
      WellFormedNth(t.alts, rd.rest[0]);
      var alt := Nth(t.alts, rd.rest[0]);
      ReaderMoves(w, Base, alt, Default(alt), rd.Skip(1));
    }
  }

  /** Members that need more bytes than are left after the first byte of the one
      that is cut make the reader refuse. */
  lemma FollowersRefuse(w: nat, t: Ty, gs: Fields, rd: Reader)
    requires WellFormed(t) && (t.Opt? || t.Variant?) && WellFormeds(gs) && Plains(gs) && WellFormeds(More(t, gs))
    requires |rd.rest| <= MinSizes(w, gs)
    ensures UnpackFields(w, Base, More(t, gs), Defaults(More(t, gs)), rd).code != Ok
  {
    var targets := Defaults(More(t, gs));
    assert targets == MoreVals(Default(t), Defaults(gs));
    if rd.rest == [] {
      assert Unpack(w, Base, t, targets.head, rd).code == NoBufferSpace;
    } else {
      if t.Opt? {
        OptByteUsed(w, t, rd);
      } else {
        VariantByteUsed(w, t, rd);
      }
      var r := Unpack(w, Base, t, Default(t), rd);
      ReaderMoves(w, Base, t, Default(t), rd);
      FieldsNeedBytes(w, gs, r.rd);
      FieldsMove(w, Base, gs, Defaults(gs), r.rd);
      assert UnpackFields(w, Base, gs, Defaults(gs), r.rd).code != Ok;
    }
  }

  predicate FollowedOk(w: nat, fs: Fields, vs: Vals, t: Ty, v: Val, gs: Fields, us: Vals) {
    && WellFormeds(fs) && Plains(fs) && Typeds(fs, vs) && LengthsFits(w, fs, vs)
    && WellFormed(t) && (t.Opt? || t.Variant?) && NoCompat(t) && Typed(t, v) && LengthsFit(w, t, v)
    && WellFormeds(gs) && Plains(gs) && Typeds(gs, us) && LengthsFits(w, gs, us)
  }

  lemma JoinedOk(w: nat, fs: Fields, vs: Vals, t: Ty, v: Val, gs: Fields, us: Vals)
    requires FollowedOk(w, fs, vs, t, v, gs, us)
    ensures WellFormeds(More(t, gs)) && Typeds(More(t, gs), MoreVals(v, us))
    ensures var all, vals := Join(fs, More(t, gs)), JoinVals(vs, MoreVals(v, us));
            && WellFormeds(all) && Typeds(all, vals)
            && PackFields(w, Base, all, vals)
               == PackFields(w, Base, fs, vs) + (Pack(w, Base, t, v) + PackFields(w, Base, gs, us))
  {
    assert WellFormeds(More(t, gs)) && Typeds(More(t, gs), MoreVals(v, us));
    JoinTyped(w, fs, vs, More(t, gs), MoreVals(v, us));
    JoinPack(w, Base, fs, vs, More(t, gs), MoreVals(v, us));
  }

  lemma FollowedPayloadCut(w: nat, fs: Fields, vs: Vals, t: Ty, v: Val, gs: Fields, us: Vals, rd: Reader)
    requires FollowedOk(w, fs, vs, t, v, gs, us) && WellFormeds(Join(fs, More(t, gs)))
    requires StrictPrefix(rd.rest, PackFields(w, Base, fs, vs) + (Pack(w, Base, t, v) + PackFields(w, Base, gs, us)))
    requires var m := |rd.rest| - |PackFields(w, Base, fs, vs)|; m <= MinSizes(w, gs) || m >= |Pack(w, Base, t, v)|
    ensures UnpackFields(w, Base, Join(fs, More(t, gs)), Defaults(Join(fs, More(t, gs))), rd).code != Ok
  {
    var own, last, next := PackFields(w, Base, fs, vs), Pack(w, Base, t, v), PackFields(w, Base, gs, us);
    assert WellFormeds(More(t, gs));
    PrefixSplits(rd.rest, own, last + next);
    if |rd.rest| < |own| {
      PlainPartCut(w, fs, vs, More(t, gs), rd);
    } else {
      FollowedRest(w, fs, vs, t, v, gs, us, rd, rd.rest[|own|..]);
    }
  }

  lemma FollowedRest(
      w: nat, fs: Fields, vs: Vals, t: Ty, v: Val, gs: Fields, us: Vals, rd: Reader, more: seq<byte>)
    requires FollowedOk(w, fs, vs, t, v, gs, us) && WellFormeds(Join(fs, More(t, gs))) && WellFormeds(More(t, gs))
    requires rd.rest == PackFields(w, Base, fs, vs) + more
    requires StrictPrefix(more, Pack(w, Base, t, v) + PackFields(w, Base, gs, us))
    requires |more| <= MinSizes(w, gs) || |more| >= |Pack(w, Base, t, v)|
    ensures UnpackFields(w, Base, Join(fs, More(t, gs)), Defaults(Join(fs, More(t, gs))), rd).code != Ok
  {
    JoinReaches(w, fs, vs, More(t, gs), rd, more);
    RestCut(w, t, v, gs, us, Past(rd, PackFields(w, Base, fs, vs), more));
  }

  lemma RestCut(w: nat, t: Ty, v: Val, gs: Fields, us: Vals, rd: Reader)
    requires FollowedOk(w, End, NoVals, t, v, gs, us) && WellFormeds(More(t, gs))
    requires StrictPrefix(rd.rest, Pack(w, Base, t, v) + PackFields(w, Base, gs, us))
    requires |rd.rest| <= MinSizes(w, gs) || |rd.rest| >= |Pack(w, Base, t, v)|
    ensures UnpackFields(w, Base, More(t, gs), Defaults(More(t, gs)), rd).code != Ok
  {
    if |rd.rest| <= MinSizes(w, gs) {
      FollowersRefuse(w, t, gs, rd);
    } else {
      FollowersCut(w, t, v, gs, us, rd);
    }
  }

  lemma {:induction false} JoinVersions(fs: Fields, t: Ty, gs: Fields)
    requires Plains(fs) && NoCompat(t) && Plains(gs)
    ensures NoCompats(Join(fs, More(t, gs)))
    decreases fs
  {
    if fs.More? {
      PlainHasNoCompat(fs.head);
      JoinVersions(fs.tail, t, gs);
    } else {
      PlainsHaveNoCompat(gs);
    }
  }

  /** A strict prefix of a buffer of plain members, an optional or variant, and more
      plain members is refused wherever the cut leaves the optional whole, or leaves
      no more of it than the members behind it need. */
  lemma CutBeforeFollowers(
      id: TypeId, fs: Fields, vs: Vals, t: Ty, v: Val, gs: Fields, us: Vals, info: Info, bs: seq<byte>)
    requires IdOk(id) && FollowedOk(WidthOf(info.widthCode), fs, vs, t, v, gs, us)
    requires var ty, all := Struct(Join(fs, More(t, gs))), Rec(JoinVals(vs, MoreVals(v, us)));
             && Typed(ty, all) && info == RuntimeInfo(id, ty, all) && NeededSize(id, ty, all) < TWO64
             && StrictPrefix(bs, Serialize(id, ty, all))
    requires var ty, w := Struct(Join(fs, More(t, gs))), WidthOf(info.widthCode);
             var m := |bs| - |Header(id, ty, info)| - |PackFields(w, Base, fs, vs)|;
             m <= MinSizes(w, gs) || m >= |Pack(w, Base, t, v)|
    ensures WellFormeds(Join(fs, More(t, gs)))
    ensures var ty := Struct(Join(fs, More(t, gs))); Deserialize(id, ty, Default(ty), bs).code != Ok
  {
    var ty, all := Struct(Join(fs, More(t, gs))), Rec(JoinVals(vs, MoreVals(v, us)));
    var w := WidthOf(info.widthCode);
    JoinedOk(w, fs, vs, t, v, gs, us);
    JoinVersions(fs, t, gs);
    VersionsNoCompat(ty);
    InfoOk(id, ty, all);
    var head, body := Header(id, ty, info), Pack(w, Base, ty, all);
    assert Payload(w, ty, all) == body && Serialize(id, ty, all) == head + body;
    PrefixSplits(bs, head, body);
    if |bs| < |head| {
      HeadCut(id, ty, info, bs);
    } else {
      var rest := bs[|head|..];
      var rd := Reader(|head|, rest, DataLen(info), false);
      DeserializeHeader(id, ty, ty, Default(ty), info, rest);
      FollowedPayloadCut(w, fs, vs, t, v, gs, us, rd);
    }
  }

  /** The optional is whole and the members behind it are cut. */
  lemma FollowersCut(w: nat, t: Ty, v: Val, gs: Fields, us: Vals, rd: Reader)
    requires WellFormed(t) && NoCompat(t) && Typed(t, v) && LengthsFit(w, t, v)
    requires WellFormeds(gs) && Plains(gs) && Typeds(gs, us) && LengthsFits(w, gs, us) && WellFormeds(More(t, gs))
    requires |rd.rest| >= |Pack(w, Base, t, v)|
    requires StrictPrefix(rd.rest, Pack(w, Base, t, v) + PackFields(w, Base, gs, us))
    ensures UnpackFields(w, Base, More(t, gs), Defaults(More(t, gs)), rd).code != Ok
  {
    var last, next := Pack(w, Base, t, v), PackFields(w, Base, gs, us);
    PrefixSplits(rd.rest, last, next);
    var tail := rd.rest[|last|..];
    PassRoundTrip(w, Base, t, v, rd, tail);
    FieldsCut(w, gs, us, Past(rd, last, tail));
  }

  /** The bound is tight: an optional scalar of n bytes cut in front of a scalar of
      k bytes is accepted exactly when at least k bytes of it are left. */
  lemma CutScalarOptional(w: nat, n: nat, k: nat, rd: Reader)
    requires n >= 1 && k >= 1 && 1 <= |rd.rest| < 1 + n && rd.rest[0] == 1
    ensures var fs := More(Opt(Num(n)), More(Num(k), End));
            && WellFormeds(fs)
            && (UnpackFields(w, Base, fs, Defaults(fs), rd).code == Ok <==> |rd.rest| > k)
  {
    var fs := More(Opt(Num(n)), More(Num(k), End));
    assert WellFormed(Num(n)) && WellFormed(Num(k)) && WellFormed(Opt(Num(n))) && WellFormeds(More(Num(k), End));
    var rd1 := rd.Skip(1);
    assert Unpack(w, Base, Num(n), Int(0), rd1) == Result(NoBufferSpace, Int(0), rd1);
    assert Unpack(w, Base, Opt(Num(n)), Null, rd) == Result(Ok, Just(Int(0)), rd1);
    assert Unpack(w, Base, Num(k), Int(0), rd1).code == Ok <==> |rd1.rest| >= k;
    var next := More(Num(k), End);
    assert Defaults(End) == NoVals && Defaults(next) == MoreVals(Int(0), NoVals);
    assert Defaults(fs) == MoreVals(Null, Defaults(next));
    assert UnpackFields(w, Base, next, Defaults(next), rd1).code == Ok <==> |rd1.rest| >= k;
    assert UnpackFields(w, Base, fs, Defaults(fs), rd).code == UnpackFields(w, Base, next, Defaults(next), rd1).code;
  }
}
