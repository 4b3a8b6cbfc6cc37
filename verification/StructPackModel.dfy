/** The types and values struct_pack can carry, and what its template machinery
    derives from a type. */
module StructPackModel {
  import opened Bits
  import opened Bytes
  import opened Varint
  import opened Zigzag
  import FV = FastVarint

  /** The four varint types: var_uint32_t, var_uint64_t, var_int32_t, var_int64_t. */
  datatype VarKind = VarKind(bits: nat, signed: bool)

  /** A serialisable type.  The member list of a struct and the alternatives of a
      variant are parameter packs, hence first-and-rest.  Fast is the group of
      integer members that a struct with fast varint coding writes before its
      other members. */
  datatype Ty =
    | Num(w: nat)
    | Var(kind: VarKind)
    | Fast(kinds: seq<FV.Kind>)
    | Vec(elem: Ty)
    | Struct(fields: Fields)
    | Opt(elem: Ty)
    | Variant(alts: Fields)
    | Compat(version: nat, elem: Ty)

  datatype Fields = End | More(head: Ty, tail: Fields)

  datatype Val =
    | Int(n: int)
    | Nums(ns: seq<int>)
    | List(items: seq<Val>)
    | Rec(fields: Vals)
    | Null
    | Just(v: Val)
    | Alt(index: nat, v: Val)

  datatype Vals = NoVals | MoreVals(head: Val, tail: Vals)

  function Length(fs: Fields): nat {
    match fs
    case End => 0
    case More(_, tail) => 1 + Length(tail)
  }

  function Nth(fs: Fields, i: nat): (t: Ty)
    requires i < Length(fs)
    ensures t < fs
  {
    if i == 0 then fs.head else Nth(fs.tail, i - 1)
  }

  /** No version-compatible member anywhere inside. */
  predicate NoCompat(ty: Ty) {
    match ty
    case Num(_) => true
    case Var(_) => true
    case Fast(_) => true
    case Vec(elem) => NoCompat(elem)
    case Struct(fields) => NoCompats(fields)
    case Opt(elem) => NoCompat(elem)
    case Variant(alts) => NoCompats(alts)
    case Compat(_, _) => false
  }

  predicate NoCompats(fs: Fields) {
    match fs
    case End => true
    case More(head, tail) => NoCompat(head) && NoCompats(tail)
  }

  /** Types the codec supports: scalars have bytes and a variant index fits a byte. */
  predicate WellFormed(ty: Ty) {
    match ty
    case Num(w) => w >= 1
    case Var(kind) => kind.bits == 32 || kind.bits == 64
    case Fast(kinds) => kinds != [] && forall i :: 0 <= i < |kinds| ==> FV.KindOk(kinds[i])
    case Vec(elem) => WellFormed(elem)
    case Struct(fields) => WellFormeds(fields)
    case Opt(elem) => WellFormed(elem)
    case Variant(alts) => 0 < Length(alts) < 256 && WellFormeds(alts)
    case Compat(_, elem) => WellFormed(elem)
  }

  predicate WellFormeds(fs: Fields) {
    match fs
    case End => true
    case More(head, tail) => WellFormed(head) && WellFormeds(tail)
  }

  /** v is a value of type ty.  Scalars are the unsigned reading of their bytes. */
  predicate Typed(ty: Ty, v: Val) {
    match ty
    case Num(w) => v.Int? && 0 <= v.n < Pow256(w)
    case Var(kind) =>
      v.Int? && (if kind.signed then InRange(kind.bits, v.n) else 0 <= v.n < Pow2(kind.bits))
    case Fast(kinds) => v.Nums? && FV.GroupOk(kinds, v.ns)
    case Vec(elem) =>
      v.List? && |v.items| < TWO64 && forall i :: 0 <= i < |v.items| ==> Typed(elem, v.items[i])
    case Struct(fields) => v.Rec? && Typeds(fields, v.fields)
    case Opt(elem) => v.Null? || (v.Just? && Typed(elem, v.v))
    case Variant(alts) => v.Alt? && v.index < Length(alts) && Typed(Nth(alts, v.index), v.v)
    case Compat(_, elem) => v.Null? || (v.Just? && Typed(elem, v.v))
  }

  predicate Typeds(fs: Fields, vs: Vals) {
    match fs
    case End => vs.NoVals?
    case More(head, tail) => vs.MoreVals? && Typed(head, vs.head) && Typeds(tail, vs.tail)
  }

  /** The default-initialised value of a type. */
  function Default(ty: Ty): Val {
    match ty
    case Num(_) => Int(0)
    case Var(_) => Int(0)
    case Fast(kinds) => Nums(FV.Zeros(|kinds|))
    case Vec(_) => List([])
    case Struct(fields) => Rec(Defaults(fields))
    case Opt(_) => Null
    case Variant(alts) => if alts.End? then Null else Alt(0, Default(alts.head))
    case Compat(_, _) => Null
  }

  function Defaults(fs: Fields): Vals {
    match fs
    case End => NoVals
    case More(head, tail) => MoreVals(Default(head), Defaults(tail))
  }

  /** Every container in the value has fewer than 256^w elements, so a w-byte
      length can hold it. */
  predicate LengthsFit(w: nat, ty: Ty, v: Val)
    requires Typed(ty, v)
  {
    match ty
    case Num(_) => true
    case Var(_) => true
    case Fast(_) => true
    case Vec(elem) =>
      |v.items| < Pow256(w) && forall i :: 0 <= i < |v.items| ==> LengthsFit(w, elem, v.items[i])
    case Struct(fields) => LengthsFits(w, fields, v.fields)
    case Opt(elem) => v.Just? ==> LengthsFit(w, elem, v.v)
    case Variant(alts) => LengthsFit(w, Nth(alts, v.index), v.v)
    case Compat(_, elem) => v.Just? ==> LengthsFit(w, elem, v.v)
  }

  predicate LengthsFits(w: nat, fs: Fields, vs: Vals)
    requires Typeds(fs, vs)
  {
    match fs
    case End => true
    case More(head, tail) => LengthsFit(w, head, vs.head) && LengthsFits(w, tail, vs.tail)
  }

  /** The value with every compatible member of a version above k set to null, and
      with those inside other compatible members: they are never sent. */
  function Keep(k: int, ty: Ty, v: Val): Val
    requires Typed(ty, v)
    decreases ty, 0
  {
    match ty
    case Num(_) => v
    case Var(_) => v
    case Fast(_) => v
    case Vec(elem) => List(KeepItems(k, elem, v.items))
    case Struct(fields) => Rec(Keeps(k, fields, v.fields))
    case Opt(elem) => if v.Null? then Null else Just(Keep(k, elem, v.v))
    case Variant(alts) => Alt(v.index, Keep(k, Nth(alts, v.index), v.v))
    case Compat(version, elem) => if version <= k && v.Just? then Just(Keep(-1, elem, v.v)) else Null
  }

  function KeepItems(k: int, elem: Ty, items: seq<Val>): (kept: seq<Val>)
    requires forall i :: 0 <= i < |items| ==> Typed(elem, items[i])
    ensures |kept| == |items|
    decreases elem, 1 + |items|
  {
    if items == [] then [] else [Keep(k, elem, items[0])] + KeepItems(k, elem, items[1..])
  }

  function Keeps(k: int, fs: Fields, vs: Vals): Vals
    requires Typeds(fs, vs)
    decreases fs, 0
  {
    match fs
    case End => NoVals
    case More(head, tail) => MoreVals(Keep(k, head, vs.head), Keeps(k, tail, vs.tail))
  }

  // ----- Compatible members inside compatible members

  /** A compatible member, set or null, is reached in the value. */
  predicate HoldsCompat(ty: Ty, v: Val)
    requires Typed(ty, v)
    decreases ty, 0
  {
    match ty
    case Num(_) => false
    case Var(_) => false
    case Fast(_) => false
    case Vec(elem) => HoldsCompatItems(elem, v.items)
    case Struct(fields) => HoldsCompatFields(fields, v.fields)
    case Opt(elem) => v.Just? && HoldsCompat(elem, v.v)
    case Variant(alts) => HoldsCompat(Nth(alts, v.index), v.v)
    case Compat(_, elem) => true
  }

  predicate HoldsCompatItems(elem: Ty, items: seq<Val>)
    requires forall i :: 0 <= i < |items| ==> Typed(elem, items[i])
    decreases elem, 1 + |items|
  {
    items != [] && (HoldsCompat(elem, items[0]) || HoldsCompatItems(elem, items[1..]))
  }

  predicate HoldsCompatFields(fs: Fields, vs: Vals)
    requires Typeds(fs, vs)
    decreases fs, 0
  {
    match fs
    case End => false
    case More(head, tail) => HoldsCompat(head, vs.head) || HoldsCompatFields(tail, vs.tail)
  }

  /** Every compatible member reached in the value is null. */
  predicate Unset(ty: Ty, v: Val)
    requires Typed(ty, v)
    decreases ty, 0
  {
    match ty
    case Num(_) => true
    case Var(_) => true
    case Fast(_) => true
    case Vec(elem) => UnsetItems(elem, v.items)
    case Struct(fields) => UnsetFields(fields, v.fields)
    case Opt(elem) => v.Just? ==> Unset(elem, v.v)
    case Variant(alts) => Unset(Nth(alts, v.index), v.v)
    case Compat(_, elem) => v.Null?
  }

  predicate UnsetItems(elem: Ty, items: seq<Val>)
    requires forall i :: 0 <= i < |items| ==> Typed(elem, items[i])
    decreases elem, 1 + |items|
  {
    items == [] || (Unset(elem, items[0]) && UnsetItems(elem, items[1..]))
  }

  predicate UnsetFields(fs: Fields, vs: Vals)
    requires Typeds(fs, vs)
    decreases fs, 0
  {
    match fs
    case End => true
    case More(head, tail) => Unset(head, vs.head) && UnsetFields(tail, vs.tail)
  }

  /** No set compatible member reaches another compatible member. */
  predicate Shallow(ty: Ty, v: Val)
    requires Typed(ty, v)
    decreases ty, 0
  {
    match ty
    case Num(_) => true
    case Var(_) => true
    case Fast(_) => true
    case Vec(elem) => ShallowItems(elem, v.items)
    case Struct(fields) => ShallowFields(fields, v.fields)
    case Opt(elem) => v.Just? ==> Shallow(elem, v.v)
    case Variant(alts) => Shallow(Nth(alts, v.index), v.v)
    case Compat(_, elem) => v.Just? ==> !HoldsCompat(elem, v.v)
  }

  predicate ShallowItems(elem: Ty, items: seq<Val>)
    requires forall i :: 0 <= i < |items| ==> Typed(elem, items[i])
    decreases elem, 1 + |items|
  {
    items == [] || (Shallow(elem, items[0]) && ShallowItems(elem, items[1..]))
  }

  predicate ShallowFields(fs: Fields, vs: Vals)
    requires Typeds(fs, vs)
    decreases fs, 0
  {
    match fs
    case End => true
    case More(head, tail) => Shallow(head, vs.head) && ShallowFields(tail, vs.tail)
  }

  /** No compatible member inside a set compatible member is set. */
  predicate Deliverable(ty: Ty, v: Val)
    requires Typed(ty, v)
    decreases ty, 0
  {
    match ty
    case Num(_) => true
    case Var(_) => true
    case Fast(_) => true
    case Vec(elem) => DeliverableItems(elem, v.items)
    case Struct(fields) => DeliverableFields(fields, v.fields)
    case Opt(elem) => v.Just? ==> Deliverable(elem, v.v)
    case Variant(alts) => Deliverable(Nth(alts, v.index), v.v)
    case Compat(_, elem) => v.Just? ==> Unset(elem, v.v)
  }

  predicate DeliverableItems(elem: Ty, items: seq<Val>)
    requires forall i :: 0 <= i < |items| ==> Typed(elem, items[i])
    decreases elem, 1 + |items|
  {
    items == [] || (Deliverable(elem, items[0]) && DeliverableItems(elem, items[1..]))
  }

  predicate DeliverableFields(fs: Fields, vs: Vals)
    requires Typeds(fs, vs)
    decreases fs, 0
  {
    match fs
    case End => true
    case More(head, tail) => Deliverable(head, vs.head) && DeliverableFields(tail, vs.tail)
  }

  /** The value with the compatible members inside set compatible members null. */
  function Sent(ty: Ty, v: Val): Val
    requires Typed(ty, v)
    decreases ty, 0
  {
    match ty
    case Num(_) => v
    case Var(_) => v
    case Fast(_) => v
    case Vec(elem) => List(SentItems(elem, v.items))
    case Struct(fields) => Rec(SentFields(fields, v.fields))
    case Opt(elem) => if v.Null? then Null else Just(Sent(elem, v.v))
    case Variant(alts) => Alt(v.index, Sent(Nth(alts, v.index), v.v))
    case Compat(_, elem) => if v.Null? then Null else Just(Keep(-1, elem, v.v))
  }

  function SentItems(elem: Ty, items: seq<Val>): (sent: seq<Val>)
    requires forall i :: 0 <= i < |items| ==> Typed(elem, items[i])
    ensures |sent| == |items|
    decreases elem, 1 + |items|
  {
    if items == [] then [] else [Sent(elem, items[0])] + SentItems(elem, items[1..])
  }

  function SentFields(fs: Fields, vs: Vals): Vals
    requires Typeds(fs, vs)
    decreases fs, 0
  {
    match fs
    case End => NoVals
    case More(head, tail) => MoreVals(Sent(head, vs.head), SentFields(tail, vs.tail))
  }

  /** A value without the compatible members it reaches is itself exactly when none is set. */
  lemma {:induction false} KeepUnset(ty: Ty, v: Val)
    requires Typed(ty, v)
    ensures Keep(-1, ty, v) == v <==> Unset(ty, v)
    decreases ty, 0
  {
    match ty
    case Vec(elem) => KeepUnsetItems(elem, v.items);
    case Struct(fields) => KeepUnsetFields(fields, v.fields);
    case Opt(elem) =>
      if v.Just? {
        KeepUnset(elem, v.v);
      }
    case Variant(alts) => KeepUnset(Nth(alts, v.index), v.v);
    case _ =>
  }

  lemma {:induction false} KeepUnsetItems(elem: Ty, items: seq<Val>)
    requires forall i :: 0 <= i < |items| ==> Typed(elem, items[i])
    ensures KeepItems(-1, elem, items) == items <==> UnsetItems(elem, items)
    decreases elem, 1 + |items|
  {
    if items != [] {
      KeepUnset(elem, items[0]);
      KeepUnsetItems(elem, items[1..]);
      assert items == [items[0]] + items[1..];
    }
  }

  lemma {:induction false} KeepUnsetFields(fs: Fields, vs: Vals)
    requires Typeds(fs, vs)
    ensures Keeps(-1, fs, vs) == vs <==> UnsetFields(fs, vs)
    decreases fs, 0
  {
    if fs.More? {
      KeepUnset(fs.head, vs.head);
      KeepUnsetFields(fs.tail, vs.tail);
    }
  }

  /** What is sent is the value exactly when no compatible member inside a set one is set. */
  lemma {:induction false} SentIff(ty: Ty, v: Val)
    requires Typed(ty, v)
    ensures Sent(ty, v) == v <==> Deliverable(ty, v)
    decreases ty, 0
  {
    match ty
    case Vec(elem) => SentIffItems(elem, v.items);
    case Struct(fields) => SentIffFields(fields, v.fields);
    case Opt(elem) =>
      if v.Just? {
        SentIff(elem, v.v);
      }
    case Variant(alts) => SentIff(Nth(alts, v.index), v.v);
    case Compat(_, elem) =>
      if v.Just? {
        KeepUnset(elem, v.v);
      }
    case _ =>
  }

  lemma {:induction false} SentIffItems(elem: Ty, items: seq<Val>)
    requires forall i :: 0 <= i < |items| ==> Typed(elem, items[i])
    ensures SentItems(elem, items) == items <==> DeliverableItems(elem, items)
    decreases elem, 1 + |items|
  {
    if items != [] {
      SentIff(elem, items[0]);
      SentIffItems(elem, items[1..]);
      assert items == [items[0]] + items[1..];
    }
  }

  lemma {:induction false} SentIffFields(fs: Fields, vs: Vals)
    requires Typeds(fs, vs)
    ensures SentFields(fs, vs) == vs <==> DeliverableFields(fs, vs)
    decreases fs, 0
  {
    if fs.More? {
      SentIff(fs.head, vs.head);
      SentIffFields(fs.tail, vs.tail);
    }
  }

  /** The versions of the compatible members of a type, ascending and without repeats. */
  function Insert(x: nat, s: seq<nat>): seq<nat> {
    if s == [] then [x]
    else if x < s[0] then [x] + s
    else if x == s[0] then s
    else [s[0]] + Insert(x, s[1..])
  }

  function Merge(a: seq<nat>, b: seq<nat>): seq<nat> {
    if a == [] then b else Insert(a[0], Merge(a[1..], b))
  }

  function Versions(ty: Ty): seq<nat> {
    match ty
    case Num(_) => []
    case Var(_) => []
    case Fast(_) => []
    case Vec(elem) => Versions(elem)
    case Struct(fields) => VersionsOf(fields)
    case Opt(elem) => Versions(elem)
    case Variant(alts) => VersionsOf(alts)
    case Compat(version, _) => [version]
  }

  function VersionsOf(fs: Fields): seq<nat> {
    match fs
    case End => []
    case More(head, tail) => Merge(Versions(head), VersionsOf(tail))
  }
}
