/** struct_pack's reader keeps its target a value of the type, whatever bytes arrive. */
module StructPackTyping {
  import opened Bits
  import opened Bytes
  import opened Varint
  import opened Zigzag
  import opened StructPackModel
  import FV = FastVarint
  import opened StructPackCodec
  import opened StructPackSize
  import opened StructPack
  import opened StructPackVersions
  import opened StructPackSafety

  // ----- Scalars

  lemma {:induction false} BytesBound(bs: seq<byte>)
    ensures FromLittleEndian(bs) < Pow256(|bs|)
  {
    if bs != [] {
      BytesBound(bs[1..]);
    }
  }

  lemma {:induction false} Pow256Grows(a: nat, b: nat)
    requires a <= b
    ensures Pow256(a) <= Pow256(b)
    decreases b - a
  {
    if a < b {
      Pow256Grows(a, b - 1);
    }
  }

  lemma NumTyped(width: nat, target: Val, rd: Reader)
    requires Typed(Num(width), target)
    ensures Typed(Num(width), ReadNum(width, target, rd).val)
  {
    if width <= |rd.rest| {
      BytesBound(rd.rest[..width]);
    }
  }

  lemma SignedInRange(w: Word)
    requires |w| > 0
    ensures InRange(|w|, Signed(w))
  {
    TopBit(w);
    NatRoundTrip(w);
    assert Pow2(|w|) == 2 * Pow2(|w| - 1);
  }

  lemma VarTyped(kind: VarKind, target: Val, rd: Reader)
    requires WellFormed(Var(kind)) && Typed(Var(kind), target)
    ensures Typed(Var(kind), ReadVar(kind, target, rd).val)
  {
    DecodeUsed(rd.rest, 0);
    var d := Varint.Decode(rd.rest);
    if d.Value? && kind.signed {
      SignedInRange(Zigzag.Decode(ToWord(64, d.v))[..kind.bits]);
    }
  }

  // ----- Groups

  lemma FieldFits(k: FV.Kind, cut: nat, bs: seq<byte>)
    requires cut <= k.size && |bs| == cut
    ensures FV.Fits(k, FV.FieldValue(k, bs))
  {
    BytesBound(bs);
    Pow256Grows(cut, k.size);
  }

  lemma {:induction false} FieldsFit(
      ks: seq<FV.Kind>, vs: seq<int>, flags: seq<bool>, i: nat, width: nat, rest: seq<byte>)
    requires FV.GroupOk(ks, vs) && i <= |ks| <= |flags|
    ensures FV.GroupOk(ks, FV.DecodeFields(ks, vs, flags, i, width, rest).vs)
    decreases |ks| - i
  {
    if i < |ks| {
      var cut := FV.Min(width, ks[i].size);
      assert FV.KindOk(ks[i]) && FV.Fits(ks[i], 0);
      if !flags[i] {
        FieldsFit(ks, vs, flags, i + 1, width, rest);
      } else if cut <= |rest| {
        FieldFits(ks[i], cut, rest[..cut]);
        FieldsFit(ks, vs[i := FV.FieldValue(ks[i], rest[..cut])], flags, i + 1, width, rest[cut..]);
      }
    }
  }

  lemma GroupTyped(kinds: seq<FV.Kind>, target: Val, rd: Reader)
    requires Typed(Fast(kinds), target)
    ensures Typed(Fast(kinds), ReadFast(kinds, target, rd).val)
  {
    var n := (|kinds| + 9) / 8;
    if n <= |rd.rest| {
      var flags := FV.BitsOf(rd.rest[..n], |kinds| + 2);
      FieldsFit(kinds, target.ns, flags, 0, FV.Width(FV.CodeOf(flags)), rd.rest[n..]);
    }
  }

  // ----- All types

  /** For every type, pass, target and byte string: what unpacking leaves in the
      target is again a value of the type, also when it fails half way. */
  lemma {:induction false} UnpackTyped(w: nat, p: Pass, ty: Ty, target: Val, rd: Reader)
    requires WellFormed(ty) && Typed(ty, target) && w <= 8
    ensures Typed(ty, Unpack(w, p, ty, target, rd).val)
    decreases ty, 2
  {
    match ty
    case Vec(_) => ContainerTyped(w, p, ty, target, rd);
    case Struct(fields) => FieldsTyped(w, p, fields, target.fields, rd);
    case Opt(elem) => OptTyped(w, p, elem, target, rd);
    case Variant(_) => VariantTyped(w, p, ty, target, rd);
    case Compat(_, elem) => PresentTyped(w, elem, target, rd);
    case _ => LeafTyped(w, p, ty, target, rd);
  }

  lemma LeafTyped(w: nat, p: Pass, ty: Ty, target: Val, rd: Reader)
    requires (ty.Num? || ty.Var? || ty.Fast?) && WellFormed(ty) && Typed(ty, target)
    ensures Typed(ty, Unpack(w, p, ty, target, rd).val)
  {
    match ty
    case Num(width) => NumTyped(width, target, rd);
    case Var(kind) => VarTyped(kind, target, rd);
    case Fast(kinds) => GroupTyped(kinds, target, rd);
  }

  lemma ContainerTyped(w: nat, p: Pass, ty: Ty, target: Val, rd: Reader)
    requires ty.Vec? && WellFormed(ty) && Typed(ty, target) && w <= 8
    ensures Typed(ty, Unpack(w, p, ty, target, rd).val)
    decreases ty, 1
  {
    if p.Base? {
      VecTyped(w, ty, target, rd);
    } else {
      EachTyped(w, p, ty.elem, target.items, rd);
    }
  }

  predicate MaybeTyped(elem: Ty, v: Val) { v.Null? || (v.Just? && Typed(elem, v.v)) }

  lemma PresentTyped(w: nat, elem: Ty, target: Val, rd: Reader)
    requires WellFormed(elem) && MaybeTyped(elem, target) && w <= 8
    ensures MaybeTyped(elem, UnpackPresent(w, elem, target, rd).val)
    decreases elem, 3
  {
    if |rd.rest| >= 1 {
      DefaultTyped(elem);
      UnpackTyped(w, Base, elem, Default(elem), rd.Skip(1));
    }
  }

  lemma OptTyped(w: nat, p: Pass, elem: Ty, target: Val, rd: Reader)
    requires WellFormed(elem) && MaybeTyped(elem, target) && w <= 8
    ensures MaybeTyped(elem, Unpack(w, p, Opt(elem), target, rd).val)
    decreases elem, 4
  {
    if p.Base? {
      PresentTyped(w, elem, target, rd);
    } else if target.Just? {
      UnpackTyped(w, p, elem, target.v, rd);
    }
  }

  lemma VariantTyped(w: nat, p: Pass, ty: Ty, target: Val, rd: Reader)
    requires ty.Variant? && WellFormed(ty) && Typed(ty, target) && w <= 8
    ensures Typed(ty, Unpack(w, p, ty, target, rd).val)
    decreases ty, 0
  {
    if p.At? {
      WellFormedNth(ty.alts, target.index);
      UnpackTyped(w, p, Nth(ty.alts, target.index), target.v, rd);
    } else if |rd.rest| >= 1 && rd.rest[0] < Length(ty.alts) {
      WellFormedNth(ty.alts, rd.rest[0]);
      var alt := Nth(ty.alts, rd.rest[0]);
      DefaultTyped(alt);
      UnpackTyped(w, Base, alt, Default(alt), rd.Skip(1));
    }
  }

  predicate AllTyped(elem: Ty, items: seq<Val>) { forall i :: 0 <= i < |items| ==> Typed(elem, items[i]) }

  lemma OneMore(elem: Ty, first: Val, items: seq<Val>)
    requires Typed(elem, first)
    ensures AllTyped(elem, items) ==> AllTyped(elem, [first] + items)
  {
  }

  lemma VecTyped(w: nat, ty: Ty, target: Val, rd: Reader)
    requires ty.Vec? && WellFormed(ty) && Typed(ty, target) && w <= 8
    ensures Typed(ty, UnpackVec(w, ty, target, rd).val)
    decreases ty, 0
  {
    if |rd.rest| >= w {
      var elem, n := ty.elem, FromLittleEndian(rd.rest[..w]);
      LengthBound(w, rd.rest[..w]);
      var rd1 := rd.Skip(w);
      if !elem.Num? {
        NewTyped(w, elem, n, rd1);
      } else if n * elem.w <= |rd1.rest| {
        CopyTyped(elem.w, n, rd1.rest);
      }
    }
  }

  lemma LengthBound(w: nat, bs: seq<byte>)
    requires |bs| == w <= 8
    ensures FromLittleEndian(bs) < TWO64
  {
    BytesBound(bs);
    Pow256Grows(w, 8);
    assert Pow256(8) == TWO64;
  }

  lemma {:induction false} CopyTyped(width: nat, n: nat, bs: seq<byte>)
    requires n * width <= |bs|
    ensures |CopyNums(width, n, bs)| == n && AllTyped(Num(width), CopyNums(width, n, bs))
  {
    if n > 0 {
      assert n * width == width + (n - 1) * width;
      BytesBound(bs[..width]);
      CopyTyped(width, n - 1, bs[width..]);
    }
  }

  lemma {:induction false} NewTyped(w: nat, elem: Ty, n: nat, rd: Reader)
    requires WellFormed(elem) && w <= 8
    ensures var items := UnpackNew(w, elem, n, rd).items; |items| <= n && AllTyped(elem, items)
    decreases elem, 3 + n
  {
    if n > 0 {
      DefaultTyped(elem);
      var r := Unpack(w, Base, elem, Default(elem), rd);
      UnpackTyped(w, Base, elem, Default(elem), rd);
      NewTyped(w, elem, n - 1, r.rd);
      OneMore(elem, r.val, UnpackNew(w, elem, n - 1, r.rd).items);
    }
  }

  lemma {:induction false} EachTyped(w: nat, p: Pass, elem: Ty, items: seq<Val>, rd: Reader)
    requires WellFormed(elem) && AllTyped(elem, items) && w <= 8
    ensures var after := UnpackEach(w, p, elem, items, rd).items; |after| == |items| && AllTyped(elem, after)
    decreases elem, 3 + |items|
  {
    if items != [] {
      var r := Unpack(w, p, elem, items[0], rd);
      UnpackTyped(w, p, elem, items[0], rd);
      EachTyped(w, p, elem, items[1..], r.rd);
      OneMore(elem, r.val, items[1..]);
      OneMore(elem, r.val, UnpackEach(w, p, elem, items[1..], r.rd).items);
    }
  }

  lemma {:induction false} FieldsTyped(w: nat, p: Pass, fs: Fields, targets: Vals, rd: Reader)
    requires WellFormeds(fs) && Typeds(fs, targets) && w <= 8
    ensures Typeds(fs, UnpackFields(w, p, fs, targets, rd).vals)
    decreases fs, 0
  {
    if fs.More? {
      UnpackTyped(w, p, fs.head, targets.head, rd);
      FieldsTyped(w, p, fs.tail, targets.tail, Unpack(w, p, fs.head, targets.head, rd).rd);
    }
  }

  lemma {:induction false} VersionsTyped(w: nat, vs: seq<nat>, ty: Ty, target: Val, rd: Reader)
    requires WellFormed(ty) && Typed(ty, target) && w <= 8
    ensures Typed(ty, UnpackVersions(w, vs, ty, target, rd).val)
    decreases |vs|
  {
    if vs != [] {
      UnpackTyped(w, At(vs[0]), ty, target, rd);
      var r := Unpack(w, At(vs[0]), ty, target, rd);
      VersionsTyped(w, vs[1..], ty, r.val, r.rd);
    }
  }

  lemma BodyTyped(w: nat, ty: Ty, target: Val, rd: Reader)
    requires WellFormed(ty) && Typed(ty, target) && w <= 8
    ensures Typed(ty, UnpackAll(w, ty, target, rd).val)
  {
    UnpackTyped(w, Base, ty, target, rd);
    var r := Unpack(w, Base, ty, target, rd);
    VersionsTyped(w, Versions(ty), ty, r.val, r.rd);
  }

  /** Whatever buffer arrives, deserialising leaves a value of the type behind. */
  lemma DeserializeTyped(id: TypeId, ty: Ty, target: Val, bs: seq<byte>)
    requires WellFormed(ty) && Typed(ty, target)
    ensures Typed(ty, Deserialize(id, ty, target, bs).val)
  {
    HeadIsSuffix(id, bs);
    var h := ReadHead(id, bs);
    BodyTyped(WidthOf(h.widthCode), ty, target, Reader(|bs| - |h.rest|, h.rest, h.dataLen, false));
  }

  /** So what a server has read, from whatever bytes, it can pass on: serialised
      again it reads back as what is sent of it. */
  lemma PassesOn(id: TypeId, ty: Ty, bs: seq<byte>, v: Val, tail: seq<byte>)
    requires IdOk(id) && WellFormed(ty) && v == Deserialize(id, ty, Default(ty), bs).val
    ensures Typed(ty, v)
    ensures NeededSize(id, ty, v) < TWO64 ==>
              ReadsAs(Deserialize(id, ty, Default(ty), Serialize(id, ty, v) + tail), ty, v)
  {
    DefaultTyped(ty);
    DeserializeTyped(id, ty, Default(ty), bs);
    if NeededSize(id, ty, v) < TWO64 {
      RoundTrip(id, ty, v, tail);
    }
  }

  // ----- Values no writer sends

  /** A variant buffer is an invalid buffer, and leaves the target alone, exactly
      when its index names no alternative. */
  lemma UnknownAlternativeIff(id: TypeId, alts: Fields, target: Val, info: Info, body: seq<byte>)
    requires IdOk(id) && WellFormed(Variant(alts)) && InfoFits(id, Variant(alts), info)
    requires !HasCompat(Variant(alts))
    ensures var r := Deserialize(id, Variant(alts), target, Header(id, Variant(alts), info) + body);
            && (r.code == InvalidBuffer <==> body != [] && body[0] >= Length(alts))
            && (r.code == Ok <==> body != [] && body[0] < Length(alts))
            && (r.code != Ok ==> r.val == target)
  {
    DeserializeHeader(id, Variant(alts), Variant(alts), target, info, body);
  }

  /** A varint buffer is an invalid buffer exactly when its bytes run on for too
      long, and short of bytes exactly when they end too early. */
  lemma OverlongVarintIff(id: TypeId, kind: VarKind, target: Val, info: Info, body: seq<byte>)
    requires IdOk(id) && WellFormed(Var(kind)) && InfoFits(id, Var(kind), info)
    ensures var r := Deserialize(id, Var(kind), target, Header(id, Var(kind), info) + body);
            && (r.code == InvalidBuffer <==> Varint.Decode(body).TooLong?)
            && (r.code == NoBufferSpace <==> Varint.Decode(body).Truncated?)
            && (r.code != Ok ==> r.val == target)
  {
    DeserializeHeader(id, Var(kind), Var(kind), target, info, body);
  }
}
