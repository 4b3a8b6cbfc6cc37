/** struct_pack's reader on a target that has been used before: an empty container,
    an absent optional and a zero of a fast varint group leave what was there. */
module StructPackReuse {
  import opened Bits
  import opened Bytes
  import opened Varint
  import opened StructPackModel
  import FV = FastVarint
  import opened StructPackCodec
  import opened StructPackSize
  import opened StructPack

  // ----- What is read over what is there

  /** The target after the base pass has read v. */
  function Overlay(ty: Ty, target: Val, v: Val): Val
    requires Typed(ty, target) && Typed(ty, v)
  {
    match ty
    case Num(_) => v
    case Var(_) => v
    case Fast(_) => Nums(FV.Merged(v.ns, target.ns))
    case Vec(_) => if v.items == [] then target else Keep(-1, ty, v)
    case Struct(fields) => Rec(Overlays(fields, target.fields, v.fields))
    case Opt(_) => if v.Null? then target else Keep(-1, ty, v)
    case Variant(_) => Keep(-1, ty, v)
    case Compat(_, _) => target
  }

  function Overlays(fs: Fields, targets: Vals, vs: Vals): Vals
    requires Typeds(fs, targets) && Typeds(fs, vs)
  {
    match fs
    case End => NoVals
    case More(head, tail) =>
      MoreVals(Overlay(head, targets.head, vs.head), Overlays(tail, targets.tail, vs.tail))
  }

  /** Nothing shines through: wherever v is empty, absent or zero, so is the target. */
  predicate Clean(ty: Ty, target: Val, v: Val)
    requires Typed(ty, target) && Typed(ty, v)
  {
    match ty
    case Fast(_) => forall i :: 0 <= i < |v.ns| && v.ns[i] == 0 ==> target.ns[i] == 0
    case Vec(_) => v.items == [] ==> target.items == []
    case Struct(fields) => Cleans(fields, target.fields, v.fields)
    case Opt(_) => v.Null? ==> target.Null?
    case _ => true
  }

  predicate Cleans(fs: Fields, targets: Vals, vs: Vals)
    requires Typeds(fs, targets) && Typeds(fs, vs)
  {
    match fs
    case End => true
    case More(head, tail) => Clean(head, targets.head, vs.head) && Cleans(tail, targets.tail, vs.tail)
  }

  lemma GroupShows(vs: seq<int>, target: seq<int>)
    requires |vs| == |target|
    ensures FV.Merged(vs, target) == vs <==> forall i :: 0 <= i < |vs| && vs[i] == 0 ==> target[i] == 0
  {
    var m := FV.Merged(vs, target);
    assert m == vs <==> forall i :: 0 <= i < |vs| ==> m[i] == vs[i];
  }

  lemma {:induction false} OverlayIff(ty: Ty, target: Val, v: Val)
    requires NoCompat(ty) && Typed(ty, target) && Typed(ty, v)
    ensures Overlay(ty, target, v) == v <==> Clean(ty, target, v)
    decreases ty, 0
  {
    KeepNoCompat(-1, ty, v);
    match ty
    case Fast(_) => GroupShows(v.ns, target.ns);
    case Struct(fields) => OverlaysIff(fields, target.fields, v.fields);
    case _ =>
  }

  lemma {:induction false} OverlaysIff(fs: Fields, targets: Vals, vs: Vals)
    requires NoCompats(fs) && Typeds(fs, targets) && Typeds(fs, vs)
    ensures Overlays(fs, targets, vs) == vs <==> Cleans(fs, targets, vs)
    decreases fs, 0
  {
    if fs.More? {
      OverlayIff(fs.head, targets.head, vs.head);
      OverlaysIff(fs.tail, targets.tail, vs.tail);
    }
  }

  // ----- The base pass into any target

  /** The reader stands at packed bytes and takes all of them. */
  predicate ReadsOver(r: Result, val: Val, rd: Reader, packed: seq<byte>, tail: seq<byte>) {
    r == Result(Ok, val, Past(rd, packed, tail))
  }

  lemma LeafReads(w: nat, ty: Ty, target: Val, v: Val, rd: Reader, tail: seq<byte>)
    requires (ty.Num? || ty.Var? || ty.Fast?) && WellFormed(ty) && Typed(ty, target) && Typed(ty, v)
    requires rd.rest == Pack(w, Base, ty, v) + tail
    ensures ReadsOver(Unpack(w, Base, ty, target, rd), Overlay(ty, target, v), rd, Pack(w, Base, ty, v), tail)
  {
    match ty
    case Num(width) => NumRoundTrip(width, v.n, target, rd, tail);
    case Var(kind) => VarRoundTrip(kind, v.n, target, rd, tail);
    case Fast(kinds) =>
      FV.GroupReads(kinds, v.ns, target.ns, tail);
      assert rd.rest[|FV.Serialized(kinds, v.ns)|..] == tail;
  }

  /** A container that is not empty is read the same into every target. */
  lemma VecTargetFree(w: nat, ty: Ty, a: Val, b: Val, rd: Reader)
    requires ty.Vec? && WellFormed(ty) && UnpackVec(w, ty, a, rd).code == Ok
    requires |rd.rest| >= w && FromLittleEndian(rd.rest[..w]) != 0
    ensures UnpackVec(w, ty, b, rd) == UnpackVec(w, ty, a, rd)
  {
  }

  lemma VecReads(w: nat, ty: Ty, target: Val, v: Val, rd: Reader, tail: seq<byte>)
    requires ty.Vec? && WellFormed(ty) && Typed(ty, target) && Typed(ty, v) && LengthsFit(w, ty, v)
    requires rd.rest == Pack(w, Base, ty, v) + tail
    ensures ReadsOver(Unpack(w, Base, ty, target, rd), Overlay(ty, target, v), rd, Pack(w, Base, ty, v), tail)
  {
    var len, body := LittleEndian(|v.items|, w), PackItems(w, Base, ty.elem, v.items);
    SplitReads(Base, rd, len, body, tail);
    LittleEndianRoundTrip(|v.items|, w);
    if v.items != [] {
      PassRoundTrip(w, Base, ty, v, rd, tail);
      VecTargetFree(w, ty, Default(ty), target, rd);
    } else {
      assert body == [] && len + body == len;
    }
  }

  lemma OptReads(w: nat, ty: Ty, target: Val, v: Val, rd: Reader, tail: seq<byte>)
    requires ty.Opt? && WellFormed(ty) && Typed(ty, target) && Typed(ty, v) && LengthsFit(w, ty, v)
    requires rd.rest == Pack(w, Base, ty, v) + tail
    ensures ReadsOver(Unpack(w, Base, ty, target, rd), Overlay(ty, target, v), rd, Pack(w, Base, ty, v), tail)
  {
    if v.Null? {
      assert rd.rest[1..] == tail;
    } else {
      PassRoundTrip(w, Base, ty, v, rd, tail);
      assert rd.rest[0] == 1;
    }
  }

  lemma VariantReads(w: nat, ty: Ty, target: Val, v: Val, rd: Reader, tail: seq<byte>)
    requires ty.Variant? && WellFormed(ty) && Typed(ty, target) && Typed(ty, v) && LengthsFit(w, ty, v)
    requires rd.rest == Pack(w, Base, ty, v) + tail
    ensures ReadsOver(Unpack(w, Base, ty, target, rd), Overlay(ty, target, v), rd, Pack(w, Base, ty, v), tail)
  {
    PassRoundTrip(w, Base, ty, v, rd, tail);
    LengthBelow(ty, v);
    assert rd.rest[0] == v.index;
  }

  lemma LengthBelow(ty: Ty, v: Val)
    requires ty.Variant? && WellFormed(ty) && Typed(ty, v)
    ensures v.index % 256 == v.index < Length(ty.alts)
  {
  }

  /** For every type, value and target: the base pass succeeds, takes exactly what
      was packed and lays the value over what the target held. */
  lemma {:induction false} BaseReads(w: nat, ty: Ty, target: Val, v: Val, rd: Reader, tail: seq<byte>)
    requires WellFormed(ty) && Typed(ty, target) && Typed(ty, v) && LengthsFit(w, ty, v)
    requires rd.rest == Pack(w, Base, ty, v) + tail
    ensures ReadsOver(Unpack(w, Base, ty, target, rd), Overlay(ty, target, v), rd, Pack(w, Base, ty, v), tail)
    decreases ty, 0
  {
    match ty
    case Vec(_) => VecReads(w, ty, target, v, rd, tail);
    case Struct(fields) => FieldsRead(w, fields, target.fields, v.fields, rd, tail);
    case Opt(_) => OptReads(w, ty, target, v, rd, tail);
    case Variant(_) => VariantReads(w, ty, target, v, rd, tail);
    case Compat(_, _) => assert [] + tail == tail;
    case _ => LeafReads(w, ty, target, v, rd, tail);
  }

  lemma {:induction false} FieldsRead(w: nat, fs: Fields, targets: Vals, vs: Vals, rd: Reader, tail: seq<byte>)
    requires WellFormeds(fs) && Typeds(fs, targets) && Typeds(fs, vs) && LengthsFits(w, fs, vs)
    requires rd.rest == PackFields(w, Base, fs, vs) + tail
    ensures UnpackFields(w, Base, fs, targets, rd)
         == Results(Ok, Overlays(fs, targets, vs), Past(rd, PackFields(w, Base, fs, vs), tail))
    decreases fs, 0
  {
    if fs.End? {
      assert [] + tail == tail;
    } else {
      var own, next := Pack(w, Base, fs.head, vs.head), PackFields(w, Base, fs.tail, vs.tail);
      SplitReads(Base, rd, own, next, tail);
      BaseReads(w, fs.head, targets.head, vs.head, rd, next + tail);
      FieldsRead(w, fs.tail, targets.tail, vs.tail, Past(rd, own, next + tail), tail);
    }
  }

  // ----- Whole buffers

  lemma PayloadReads(w: nat, ty: Ty, target: Val, v: Val, rd: Reader, tail: seq<byte>)
    requires WellFormed(ty) && NoCompat(ty) && Typed(ty, target) && Typed(ty, v) && LengthsFit(w, ty, v)
    requires rd.rest == Payload(w, ty, v) + tail
    ensures ReadsOver(UnpackAll(w, ty, target, rd), Overlay(ty, target, v), rd, Payload(w, ty, v), tail)
  {
    VersionsNoCompat(ty);
    assert Payload(w, ty, v) == Pack(w, Base, ty, v);
    BaseReads(w, ty, target, v, rd, tail);
  }

  /** Reading a buffer into a used target: it succeeds, reads exactly the buffer,
      and gives the value back if and only if the target is empty, absent or zero
      wherever the value is. */
  lemma ReuseIff(id: TypeId, ty: Ty, target: Val, v: Val, tail: seq<byte>)
    requires IdOk(id) && WellFormed(ty) && NoCompat(ty) && Typed(ty, target) && Typed(ty, v)
    requires NeededSize(id, ty, v) < TWO64
    ensures var r := Deserialize(id, ty, target, Serialize(id, ty, v) + tail);
            && r.code == Ok && r.rd.rest == tail && r.val == Overlay(ty, target, v)
            && (r.val == v <==> Clean(ty, target, v))
  {
    var info := RuntimeInfo(id, ty, v);
    InfoOk(id, ty, v);
    WidthFits(id, ty, v);
    SerializedParts(id, ty, v, info);
    BufferReads(id, ty, target, v, info, tail);
    OverlayIff(ty, target, v);
  }

  lemma BufferReads(id: TypeId, ty: Ty, target: Val, v: Val, info: Info, tail: seq<byte>)
    requires IdOk(id) && WellFormed(ty) && NoCompat(ty) && Typed(ty, target) && Typed(ty, v) && InfoFits(id, ty, info)
    requires LengthsFit(WidthOf(info.widthCode), ty, v)
    ensures var r := Deserialize(id, ty, target, Header(id, ty, info) + Payload(WidthOf(info.widthCode), ty, v) + tail);
            r.code == Ok && r.val == Overlay(ty, target, v) && r.rd.rest == tail
  {
    var w := WidthOf(info.widthCode);
    var head, body := Header(id, ty, info), Payload(w, ty, v);
    DeserializeHeader(id, ty, ty, target, info, body + tail);
    PayloadReads(w, ty, target, v, Reader(|head|, body + tail, DataLen(info), false), tail);
    AppendTwice(head, body, tail);
  }

  /** The input: an empty list read into any used one leaves the old elements. */
  lemma EmptyListKeepsOld(id: TypeId, ty: Ty, target: Val, tail: seq<byte>)
    requires IdOk(id) && ty.Vec? && WellFormed(ty) && NoCompat(ty) && Typed(ty, target) && target.items != []
    requires NeededSize(id, ty, List([])) < TWO64
    ensures var r := Deserialize(id, ty, target, Serialize(id, ty, List([])) + tail);
            r.code == Ok && r.val == target != List([])
  {
    ReuseIff(id, ty, target, List([]), tail);
  }
}
