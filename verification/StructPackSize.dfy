/** struct_pack's sizer: get_needed_size is exactly what the packer writes. */
module StructPackSize {
  import opened Bytes
  import opened StructPackModel
  import opened StructPackCodec
  import FV = FastVarint

  /** Payload bytes without container lengths, number of containers, longest container. */
  datatype SizeInfo = SizeInfo(total: nat, count: nat, maxSize: nat)
  {
    function Plus(o: SizeInfo): SizeInfo {
      SizeInfo(total + o.total, count + o.count, if maxSize < o.maxSize then o.maxSize else maxSize)
    }
  }

  /** calculate_one_size. */
  function SizeOne(ty: Ty, v: Val): SizeInfo
    requires Typed(ty, v)
    decreases ty, 0
  {
    match ty
    case Num(w) => SizeInfo(w, 0, 0)
    case Var(kind) => SizeInfo(|VarBytes(kind, v.n)|, 0, 0)
    case Fast(kinds) => SizeInfo(FV.SizeOf(kinds, v.ns), 0, 0)
    case Vec(elem) => SizeInfo(0, 1, |v.items|).Plus(SizeItems(elem, v.items))
    case Struct(fields) => SizeFields(fields, v.fields)
    case Opt(elem) => if v.Just? then SizeInfo(1, 0, 0).Plus(SizeOne(elem, v.v)) else SizeInfo(1, 0, 0)
    case Variant(alts) => SizeInfo(1, 0, 0).Plus(SizeOne(Nth(alts, v.index), v.v))
    case Compat(_, elem) => if v.Just? then SizeInfo(1, 0, 0).Plus(SizeOne(elem, v.v)) else SizeInfo(1, 0, 0)
  }

  function SizeItems(elem: Ty, items: seq<Val>): SizeInfo
    requires forall i :: 0 <= i < |items| ==> Typed(elem, items[i])
    decreases elem, 1 + |items|
  {
    if items == [] then SizeInfo(0, 0, 0) else SizeOne(elem, items[0]).Plus(SizeItems(elem, items[1..]))
  }

  function SizeFields(fs: Fields, vs: Vals): SizeInfo
    requires Typeds(fs, vs)
    decreases fs, 0
  {
    match fs
    case End => SizeInfo(0, 0, 0)
    case More(head, tail) => SizeOne(head, vs.head).Plus(SizeFields(tail, vs.tail))
  }

  /** The longest container decides which length widths fit. */
  lemma MaxSizeFits(w: nat, ty: Ty, v: Val)
    requires Typed(ty, v) && SizeOne(ty, v).maxSize < Pow256(w)
    ensures LengthsFit(w, ty, v)
    decreases ty, 0
  {
    match ty
    case Num(_) =>
    case Var(_) =>
    case Fast(_) =>
    case Vec(elem) =>
      forall i | 0 <= i < |v.items|
        ensures LengthsFit(w, elem, v.items[i])
      {
        MaxOfItems(elem, v.items, i);
        MaxSizeFits(w, elem, v.items[i]);
      }
    case Struct(fields) => MaxSizesFit(w, fields, v.fields);
    case Opt(elem) =>
      if v.Just? {
        MaxSizeFits(w, elem, v.v);
      }
    case Variant(alts) => MaxSizeFits(w, Nth(alts, v.index), v.v);
    case Compat(_, elem) =>
      if v.Just? {
        MaxSizeFits(w, elem, v.v);
      }
  }

  lemma MaxSizesFit(w: nat, fs: Fields, vs: Vals)
    requires Typeds(fs, vs) && SizeFields(fs, vs).maxSize < Pow256(w)
    ensures LengthsFits(w, fs, vs)
    decreases fs, 0
  {
    if fs.More? {
      MaxSizeFits(w, fs.head, vs.head);
      MaxSizesFit(w, fs.tail, vs.tail);
    }
  }

  /** And the other way round: lengths that all fit bound the longest container. */
  lemma {:induction false} FitsBoundMaxSize(w: nat, ty: Ty, v: Val)
    requires Typed(ty, v) && LengthsFit(w, ty, v)
    ensures SizeOne(ty, v).maxSize < Pow256(w)
    decreases ty, 0
  {
    match ty
    case Vec(elem) => FitsBoundItems(w, elem, v.items);
    case Struct(fields) => FitsBoundFields(w, fields, v.fields);
    case Opt(elem) =>
      if v.Just? {
        FitsBoundMaxSize(w, elem, v.v);
      }
    case Variant(alts) => FitsBoundMaxSize(w, Nth(alts, v.index), v.v);
    case Compat(_, elem) =>
      if v.Just? {
        FitsBoundMaxSize(w, elem, v.v);
      }
    case _ =>
  }

  lemma {:induction false} FitsBoundItems(w: nat, elem: Ty, items: seq<Val>)
    requires forall i :: 0 <= i < |items| ==> Typed(elem, items[i]) && LengthsFit(w, elem, items[i])
    ensures SizeItems(elem, items).maxSize < Pow256(w)
    decreases elem, 1 + |items|
  {
    if items != [] {
      FitsBoundMaxSize(w, elem, items[0]);
      FitsBoundItems(w, elem, items[1..]);
    }
  }

  lemma {:induction false} FitsBoundFields(w: nat, fs: Fields, vs: Vals)
    requires Typeds(fs, vs) && LengthsFits(w, fs, vs)
    ensures SizeFields(fs, vs).maxSize < Pow256(w)
    decreases fs, 0
  {
    if fs.More? {
      FitsBoundMaxSize(w, fs.head, vs.head);
      FitsBoundFields(w, fs.tail, vs.tail);
    }
  }

  lemma MaxSizeIff(w: nat, ty: Ty, v: Val)
    requires Typed(ty, v)
    ensures SizeOne(ty, v).maxSize < Pow256(w) <==> LengthsFit(w, ty, v)
  {
    if LengthsFit(w, ty, v) {
      FitsBoundMaxSize(w, ty, v);
    } else if SizeOne(ty, v).maxSize < Pow256(w) {
      MaxSizeFits(w, ty, v);
    }
  }

  lemma {:induction false} MaxOfItems(elem: Ty, items: seq<Val>, i: nat)
    requires (forall j :: 0 <= j < |items| ==> Typed(elem, items[j])) && i < |items|
    ensures SizeOne(elem, items[i]).maxSize <= SizeItems(elem, items).maxSize
  {
    if i > 0 {
      MaxOfItems(elem, items[1..], i - 1);
    }
  }

  // ----- Summing over the passes

  /** The bytes of the version passes, one pass a listed version. */
  function PackVersions(w: nat, vs: seq<nat>, ty: Ty, v: Val): seq<byte>
    requires Typed(ty, v)
  {
    if vs == [] then [] else Pack(w, At(vs[0]), ty, v) + PackVersions(w, vs[1..], ty, v)
  }

  function Total(vs: seq<nat>, f: nat -> nat): nat {
    if vs == [] then 0 else f(vs[0]) + Total(vs[1..], f)
  }

  lemma {:induction false} TotalAdds(vs: seq<nat>, f: nat -> nat, g: nat -> nat, h: nat -> nat)
    requires forall x :: f(x) == g(x) + h(x)
    ensures Total(vs, f) == Total(vs, g) + Total(vs, h)
  {
    if vs != [] {
      TotalAdds(vs[1..], f, g, h);
    }
  }

  lemma {:induction false} TotalZero(vs: seq<nat>, f: nat -> nat)
    requires forall x :: f(x) == 0
    ensures Total(vs, f) == 0
  {
    if vs != [] {
      TotalZero(vs[1..], f);
    }
  }

  lemma {:induction false} TotalSame(vs: seq<nat>, f: nat -> nat, g: nat -> nat)
    requires forall x :: f(x) == g(x)
    ensures Total(vs, f) == Total(vs, g)
  {
    if vs != [] {
      TotalSame(vs[1..], f, g);
    }
  }

  lemma {:induction false} TotalOnce(vs: seq<nat>, f: nat -> nat, one: nat)
    requires Ascending(vs) && forall x :: x != one ==> f(x) == 0
    ensures Total(vs, f) == if one in vs then f(one) else 0
  {
    if vs != [] {
      TotalOnce(vs[1..], f, one);
      assert one in vs <==> one == vs[0] || one in vs[1..];
    }
  }

  predicate Ascending(vs: seq<nat>) { forall i, j :: 0 <= i < j < |vs| ==> vs[i] < vs[j] }

  /** How much a version pass writes of one value, of some items, of some members. */
  function PackLen(w: nat, ty: Ty, v: Val): nat -> nat
    requires Typed(ty, v)
  {
    (x: nat) => |Pack(w, At(x), ty, v)|
  }

  function ItemsLen(w: nat, elem: Ty, items: seq<Val>): nat -> nat
    requires forall i :: 0 <= i < |items| ==> Typed(elem, items[i])
  {
    (x: nat) => |PackItems(w, At(x), elem, items)|
  }

  function FieldsLen(w: nat, fs: Fields, vals: Vals): nat -> nat
    requires Typeds(fs, vals)
  {
    (x: nat) => |PackFields(w, At(x), fs, vals)|
  }

  lemma {:induction false} PackVersionsSize(w: nat, vs: seq<nat>, ty: Ty, v: Val)
    requires Typed(ty, v)
    ensures |PackVersions(w, vs, ty, v)| == Total(vs, PackLen(w, ty, v))
  {
    if vs != [] {
      PackVersionsSize(w, vs[1..], ty, v);
    }
  }

  // ----- Versions of a type

  lemma {:induction false} InsertMembers(x: nat, s: seq<nat>, y: nat)
    ensures y in Insert(x, s) <==> y == x || y in s
  {
    if s != [] && x > s[0] {
      InsertMembers(x, s[1..], y);
      assert y in s <==> y == s[0] || y in s[1..];
    }
  }

  lemma {:induction false} MergeMembers(a: seq<nat>, b: seq<nat>, y: nat)
    ensures y in Merge(a, b) <==> y in a || y in b
  {
    if a != [] {
      MergeMembers(a[1..], b, y);
      InsertMembers(a[0], Merge(a[1..], b), y);
      assert y in a <==> y == a[0] || y in a[1..];
    }
  }

  lemma {:induction false} InsertAscends(x: nat, s: seq<nat>)
    requires Ascending(s)
    ensures Ascending(Insert(x, s))
  {
    if s != [] && x > s[0] {
      InsertAscends(x, s[1..]);
      var r := Insert(x, s[1..]);
      forall i | 0 <= i < |r|
        ensures s[0] < r[i]
      {
        InsertMembers(x, s[1..], r[i]);
      }
    }
  }

  lemma {:induction false} MergeAscends(a: seq<nat>, b: seq<nat>)
    requires Ascending(b)
    ensures Ascending(Merge(a, b))
  {
    if a != [] {
      MergeAscends(a[1..], b);
      InsertAscends(a[0], Merge(a[1..], b));
    }
  }

  lemma VersionsAscend(ty: Ty)
    ensures Ascending(Versions(ty))
  {
    match ty
    case Vec(elem) => VersionsAscend(elem);
    case Struct(fields) => VersionsOfAscend(fields);
    case Opt(elem) => VersionsAscend(elem);
    case Variant(alts) => VersionsOfAscend(alts);
    case _ =>
  }

  lemma VersionsOfAscend(fs: Fields)
    ensures Ascending(VersionsOf(fs))
  {
    if fs.More? {
      VersionsOfAscend(fs.tail);
      MergeAscends(Versions(fs.head), VersionsOf(fs.tail));
    }
  }

  /** The passes list every version of the type once. */
  predicate Covers(vs: seq<nat>, ty: Ty) { Ascending(vs) && forall x :: x in Versions(ty) ==> x in vs }

  predicate CoversAll(vs: seq<nat>, fs: Fields) { Ascending(vs) && forall x :: x in VersionsOf(fs) ==> x in vs }

  lemma CoversParts(vs: seq<nat>, fs: Fields)
    requires fs.More? && CoversAll(vs, fs)
    ensures Covers(vs, fs.head) && CoversAll(vs, fs.tail)
  {
    forall x: nat
      ensures x in Versions(fs.head) || x in VersionsOf(fs.tail) ==> x in VersionsOf(fs)
    {
      MergeMembers(Versions(fs.head), VersionsOf(fs.tail), x);
    }
  }

  lemma {:induction false} CoversNth(vs: seq<nat>, fs: Fields, i: nat)
    requires i < Length(fs) && CoversAll(vs, fs)
    ensures Covers(vs, Nth(fs, i))
  {
    CoversParts(vs, fs);
    if i > 0 {
      CoversNth(vs, fs.tail, i - 1);
    }
  }

  lemma {:induction false} PackNoCompat(w: nat, x: nat, ty: Ty, v: Val)
    requires Typed(ty, v) && NoCompat(ty)
    ensures Pack(w, At(x), ty, v) == []
    decreases ty, 0
  {
    match ty
    case Vec(elem) => PackItemsNoCompat(w, x, elem, v.items);
    case Struct(fields) => PackFieldsNoCompat(w, x, fields, v.fields);
    case Opt(elem) =>
      if v.Just? {
        PackNoCompat(w, x, elem, v.v);
      }
    case Variant(alts) =>
      NoCompatNth(alts, v.index);
      PackNoCompat(w, x, Nth(alts, v.index), v.v);
    case _ =>
  }

  lemma {:induction false} PackItemsNoCompat(w: nat, x: nat, elem: Ty, items: seq<Val>)
    requires NoCompat(elem) && forall i :: 0 <= i < |items| ==> Typed(elem, items[i])
    ensures PackItems(w, At(x), elem, items) == []
    decreases elem, 1 + |items|
  {
    if items != [] {
      PackNoCompat(w, x, elem, items[0]);
      PackItemsNoCompat(w, x, elem, items[1..]);
    }
  }

  lemma {:induction false} PackFieldsNoCompat(w: nat, x: nat, fs: Fields, vs: Vals)
    requires Typeds(fs, vs) && NoCompats(fs)
    ensures PackFields(w, At(x), fs, vs) == []
    decreases fs, 0
  {
    if fs.More? {
      PackNoCompat(w, x, fs.head, vs.head);
      PackFieldsNoCompat(w, x, fs.tail, vs.tail);
    }
  }

  // ----- Exact size

  /** Bytes the sizer counts with w-byte container lengths. */
  function Counted(w: nat, sz: SizeInfo): nat { sz.total + w * sz.count }

  lemma CountedPlus(w: nat, a: SizeInfo, b: SizeInfo)
    ensures Counted(w, a.Plus(b)) == Counted(w, a) + Counted(w, b)
  {
    Distribute(w, a.count, b.count);
  }

  /** The sizer counts at least what the base pass writes, and exactly that when no
      compatible member is reached. */
  lemma {:induction false} BaseSize(w: nat, ty: Ty, v: Val)
    requires Typed(ty, v)
    ensures |Pack(w, Base, ty, v)| <= Counted(w, SizeOne(ty, v))
    ensures |Pack(w, Base, ty, v)| == Counted(w, SizeOne(ty, v)) <==> !HoldsCompat(ty, v)
    decreases ty, 0
  {
    match ty
    case Fast(kinds) => FV.SizeIsExact(kinds, v.ns);
    case Vec(elem) =>
      BaseItemsSize(w, elem, v.items);
      CountedPlus(w, SizeInfo(0, 1, |v.items|), SizeItems(elem, v.items));
    case Struct(fields) => BaseFieldsSize(w, fields, v.fields);
    case Opt(elem) =>
      if v.Just? {
        BaseSize(w, elem, v.v);
        CountedPlus(w, SizeInfo(1, 0, 0), SizeOne(elem, v.v));
      }
    case Variant(alts) =>
      BaseSize(w, Nth(alts, v.index), v.v);
      CountedPlus(w, SizeInfo(1, 0, 0), SizeOne(Nth(alts, v.index), v.v));
    case Compat(_, _) => CompatSize(w, ty, v);
    case _ =>
  }

  lemma CompatSize(w: nat, ty: Ty, v: Val)
    requires ty.Compat? && Typed(ty, v)
    ensures Counted(w, SizeOne(ty, v)) == 1 + if v.Just? then Counted(w, SizeOne(ty.elem, v.v)) else 0
    ensures Counted(w, SizeOne(ty, v)) >= 1
  {
    if v.Just? {
      CountedPlus(w, SizeInfo(1, 0, 0), SizeOne(ty.elem, v.v));
    }
  }

  lemma {:induction false} BaseItemsSize(w: nat, elem: Ty, items: seq<Val>)
    requires forall i :: 0 <= i < |items| ==> Typed(elem, items[i])
    ensures |PackItems(w, Base, elem, items)| <= Counted(w, SizeItems(elem, items))
    ensures |PackItems(w, Base, elem, items)| == Counted(w, SizeItems(elem, items)) <==> !HoldsCompatItems(elem, items)
    decreases elem, 1 + |items|
  {
    if items != [] {
      BaseSize(w, elem, items[0]);
      BaseItemsSize(w, elem, items[1..]);
      CountedPlus(w, SizeOne(elem, items[0]), SizeItems(elem, items[1..]));
    }
  }

  lemma {:induction false} BaseFieldsSize(w: nat, fs: Fields, vals: Vals)
    requires Typeds(fs, vals)
    ensures |PackFields(w, Base, fs, vals)| <= Counted(w, SizeFields(fs, vals))
    ensures |PackFields(w, Base, fs, vals)| == Counted(w, SizeFields(fs, vals)) <==> !HoldsCompatFields(fs, vals)
    decreases fs, 0
  {
    if fs.More? {
      BaseSize(w, fs.head, vals.head);
      BaseFieldsSize(w, fs.tail, vals.tail);
      CountedPlus(w, SizeOne(fs.head, vals.head), SizeFields(fs.tail, vals.tail));
    }
  }

  /** Over all passes the sizer counts at least what is written, and exactly that
      when no set compatible member reaches another. */
  lemma {:induction false} SizeExact(w: nat, vs: seq<nat>, ty: Ty, v: Val)
    requires Typed(ty, v) && Covers(vs, ty)
    ensures var written := |Pack(w, Base, ty, v)| + Total(vs, PackLen(w, ty, v));
            written <= Counted(w, SizeOne(ty, v)) && (written == Counted(w, SizeOne(ty, v)) <==> Shallow(ty, v))
    decreases ty, 1
  {
    match ty
    case Vec(elem) => VecSizeExact(w, vs, ty, v);
    case Struct(fields) =>
      SizeFieldsExact(w, vs, fields, v.fields);
      TotalSame(vs, PackLen(w, ty, v), FieldsLen(w, fields, v.fields));
    case Opt(_) => OptSizeExact(w, vs, ty, v);
    case Variant(_) => VariantSizeExact(w, vs, ty, v);
    case Compat(_, _) => CompatSizeExact(w, vs, ty, v);
    case _ =>
      TotalZero(vs, PackLen(w, ty, v));
      BaseSize(w, ty, v);
  }

  lemma VecSizeExact(w: nat, vs: seq<nat>, ty: Ty, v: Val)
    requires ty.Vec? && Typed(ty, v) && Covers(vs, ty)
    ensures var written := |Pack(w, Base, ty, v)| + Total(vs, PackLen(w, ty, v));
            written <= Counted(w, SizeOne(ty, v)) && (written == Counted(w, SizeOne(ty, v)) <==> Shallow(ty, v))
    decreases ty, 0
  {
    SizeItemsExact(w, vs, ty.elem, v.items);
    TotalSame(vs, PackLen(w, ty, v), ItemsLen(w, ty.elem, v.items));
    CountedPlus(w, SizeInfo(0, 1, |v.items|), SizeItems(ty.elem, v.items));
  }

  lemma OptSizeExact(w: nat, vs: seq<nat>, ty: Ty, v: Val)
    requires ty.Opt? && Typed(ty, v) && Covers(vs, ty)
    ensures var written := |Pack(w, Base, ty, v)| + Total(vs, PackLen(w, ty, v));
            written <= Counted(w, SizeOne(ty, v)) && (written == Counted(w, SizeOne(ty, v)) <==> Shallow(ty, v))
    decreases ty, 0
  {
    if v.Just? {
      SizeExact(w, vs, ty.elem, v.v);
      TotalSame(vs, PackLen(w, ty, v), PackLen(w, ty.elem, v.v));
      CountedPlus(w, SizeInfo(1, 0, 0), SizeOne(ty.elem, v.v));
    } else {
      TotalZero(vs, PackLen(w, ty, v));
    }
  }

  lemma VariantSizeExact(w: nat, vs: seq<nat>, ty: Ty, v: Val)
    requires ty.Variant? && Typed(ty, v) && Covers(vs, ty)
    ensures var written := |Pack(w, Base, ty, v)| + Total(vs, PackLen(w, ty, v));
            written <= Counted(w, SizeOne(ty, v)) && (written == Counted(w, SizeOne(ty, v)) <==> Shallow(ty, v))
    decreases ty, 0
  {
    var alt := Nth(ty.alts, v.index);
    CoversNth(vs, ty.alts, v.index);
    SizeExact(w, vs, alt, v.v);
    TotalSame(vs, PackLen(w, ty, v), PackLen(w, alt, v.v));
    CountedPlus(w, SizeInfo(1, 0, 0), SizeOne(alt, v.v));
  }

  /** A compatible member is written in the one pass of its version. */
  lemma CompatPasses(w: nat, vs: seq<nat>, ty: Ty, v: Val)
    requires ty.Compat? && Typed(ty, v) && Covers(vs, ty)
    ensures |Pack(w, Base, ty, v)| == 0
    ensures Total(vs, PackLen(w, ty, v)) == 1 + if v.Just? then |Pack(w, Base, ty.elem, v.v)| else 0
  {
    TotalOnce(vs, PackLen(w, ty, v), ty.version);
    assert ty.version in Versions(ty);
    assert v.Just? ==> Pack(w, At(ty.version), ty, v) == [1] + Pack(w, Base, ty.elem, v.v);
  }

  lemma CompatSizeExact(w: nat, vs: seq<nat>, ty: Ty, v: Val)
    requires ty.Compat? && Typed(ty, v) && Covers(vs, ty)
    ensures var written := |Pack(w, Base, ty, v)| + Total(vs, PackLen(w, ty, v));
            written <= Counted(w, SizeOne(ty, v)) && (written == Counted(w, SizeOne(ty, v)) <==> Shallow(ty, v))
    decreases ty, 0
  {
    CompatPasses(w, vs, ty, v);
    CompatSize(w, ty, v);
    if v.Just? {
      BaseSize(w, ty.elem, v.v);
    }
  }

  lemma VersionsNoCompat(ty: Ty)
    requires NoCompat(ty)
    ensures Versions(ty) == []
  {
    match ty
    case Vec(elem) => VersionsNoCompat(elem);
    case Struct(fields) => VersionsOfNoCompat(fields);
    case Opt(elem) => VersionsNoCompat(elem);
    case Variant(alts) => VersionsOfNoCompat(alts);
    case _ =>
  }

  lemma VersionsOfNoCompat(fs: Fields)
    requires NoCompats(fs)
    ensures VersionsOf(fs) == []
  {
    if fs.More? {
      VersionsNoCompat(fs.head);
      VersionsOfNoCompat(fs.tail);
    }
  }

  lemma {:induction false} SizeItemsExact(w: nat, vs: seq<nat>, elem: Ty, items: seq<Val>)
    requires Covers(vs, elem) && forall i :: 0 <= i < |items| ==> Typed(elem, items[i])
    ensures var written := |PackItems(w, Base, elem, items)| + Total(vs, ItemsLen(w, elem, items));
            && written <= Counted(w, SizeItems(elem, items))
            && (written == Counted(w, SizeItems(elem, items)) <==> ShallowItems(elem, items))
    decreases elem, 2 + |items|
  {
    var f := ItemsLen(w, elem, items);
    if items == [] {
      TotalZero(vs, f);
    } else {
      SizeExact(w, vs, elem, items[0]);
      SizeItemsExact(w, vs, elem, items[1..]);
      TotalAdds(vs, f, PackLen(w, elem, items[0]), ItemsLen(w, elem, items[1..]));
      CountedPlus(w, SizeOne(elem, items[0]), SizeItems(elem, items[1..]));
    }
  }

  lemma {:induction false} SizeFieldsExact(w: nat, vs: seq<nat>, fs: Fields, vals: Vals)
    requires CoversAll(vs, fs) && Typeds(fs, vals)
    ensures var written := |PackFields(w, Base, fs, vals)| + Total(vs, FieldsLen(w, fs, vals));
            && written <= Counted(w, SizeFields(fs, vals))
            && (written == Counted(w, SizeFields(fs, vals)) <==> ShallowFields(fs, vals))
    decreases fs, 0
  {
    var f := FieldsLen(w, fs, vals);
    if fs.End? {
      TotalZero(vs, f);
    } else {
      CoversParts(vs, fs);
      SizeExact(w, vs, fs.head, vals.head);
      SizeFieldsExact(w, vs, fs.tail, vals.tail);
      TotalAdds(vs, f, PackLen(w, fs.head, vals.head), FieldsLen(w, fs.tail, vals.tail));
      CountedPlus(w, SizeOne(fs.head, vals.head), SizeFields(fs.tail, vals.tail));
    }
  }

  lemma Distribute(w: int, a: int, b: int)
    ensures w * (a + b) == w * a + w * b
  {
  }
}
