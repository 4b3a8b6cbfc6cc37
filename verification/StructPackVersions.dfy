/** struct_pack's version compatibility: an older type is the newer one without
    its compatible members of later versions, and each reads the other's bytes. */
module StructPackVersions {
  import opened Bytes
  import opened Varint
  import opened StructPackModel
  import FV = FastVarint
  import opened StructPackCodec
  import opened StructPackSize
  import opened StructPack

  // ----- Older types and values

  /** Compatible types occur only as members of structs, which is where a newer
      version can add one; inside a compatible member too. */
  predicate MembersOnly(ty: Ty) {
    match ty
    case Num(_) => true
    case Var(_) => true
    case Fast(_) => true
    case Vec(elem) => MembersOnly(elem)
    case Struct(fields) => MembersOk(fields)
    case Opt(elem) => MembersOnly(elem)
    case Variant(alts) => AltsOk(alts)
    case Compat(_, _) => false
  }

  predicate MembersOk(fs: Fields) {
    match fs
    case End => true
    case More(head, tail) => MembersOnly(if head.Compat? then head.elem else head) && MembersOk(tail)
  }

  predicate AltsOk(fs: Fields) {
    match fs
    case End => true
    case More(head, tail) => MembersOnly(head) && AltsOk(tail)
  }

  predicate Newer(k: int, ty: Ty) { ty.Compat? && ty.version > k }

  /** The type as it was at version k. */
  function Erase(k: int, ty: Ty): Ty {
    match ty
    case Num(_) => ty
    case Var(_) => ty
    case Fast(_) => ty
    case Vec(elem) => Vec(Erase(k, elem))
    case Struct(fields) => Struct(EraseMembers(k, fields))
    case Opt(elem) => Opt(Erase(k, elem))
    case Variant(alts) => Variant(EraseAlts(k, alts))
    case Compat(version, elem) => Compat(version, Erase(k, elem))
  }

  function EraseMembers(k: int, fs: Fields): Fields {
    match fs
    case End => End
    case More(head, tail) =>
      if Newer(k, head) then EraseMembers(k, tail) else More(Erase(k, head), EraseMembers(k, tail))
  }

  function EraseAlts(k: int, fs: Fields): Fields {
    match fs
    case End => End
    case More(head, tail) => More(Erase(k, head), EraseAlts(k, tail))
  }

  /** The part of a value that its version-k type has. */
  function EraseVal(k: int, ty: Ty, v: Val): Val
    requires Typed(ty, v)
    decreases ty, 0
  {
    match ty
    case Num(_) => v
    case Var(_) => v
    case Fast(_) => v
    case Vec(elem) => List(EraseItems(k, elem, v.items))
    case Struct(fields) => Rec(EraseVals(k, fields, v.fields))
    case Opt(elem) => if v.Null? then Null else Just(EraseVal(k, elem, v.v))
    case Variant(alts) => Alt(v.index, EraseVal(k, Nth(alts, v.index), v.v))
    case Compat(_, elem) => if v.Null? then Null else Just(EraseVal(k, elem, v.v))
  }

  function EraseItems(k: int, elem: Ty, items: seq<Val>): (r: seq<Val>)
    requires forall i :: 0 <= i < |items| ==> Typed(elem, items[i])
    ensures |r| == |items|
    decreases elem, 1 + |items|
  {
    if items == [] then [] else [EraseVal(k, elem, items[0])] + EraseItems(k, elem, items[1..])
  }

  function EraseVals(k: int, fs: Fields, vs: Vals): Vals
    requires Typeds(fs, vs)
    decreases fs, 0
  {
    match fs
    case End => NoVals
    case More(head, tail) =>
      if Newer(k, head) then EraseVals(k, tail, vs.tail)
      else MoreVals(EraseVal(k, head, vs.head), EraseVals(k, tail, vs.tail))
  }

  /** An older value in the newer type: every newer member is null. */
  function Embed(k: int, ty: Ty, o: Val): Val
    requires Typed(Erase(k, ty), o)
    decreases ty, 0
  {
    match ty
    case Num(_) => o
    case Var(_) => o
    case Fast(_) => o
    case Vec(elem) => List(EmbedItems(k, elem, o.items))
    case Struct(fields) => Rec(EmbedVals(k, fields, o.fields))
    case Opt(elem) => if o.Null? then Null else Just(Embed(k, elem, o.v))
    case Variant(alts) =>
      EraseNth(k, alts, o.index);
      Alt(o.index, Embed(k, Nth(alts, o.index), o.v))
    case Compat(_, elem) => if o.Null? then Null else Just(Embed(k, elem, o.v))
  }

  function EmbedItems(k: int, elem: Ty, items: seq<Val>): (r: seq<Val>)
    requires forall i :: 0 <= i < |items| ==> Typed(Erase(k, elem), items[i])
    ensures |r| == |items|
    decreases elem, 1 + |items|
  {
    if items == [] then [] else [Embed(k, elem, items[0])] + EmbedItems(k, elem, items[1..])
  }

  function EmbedVals(k: int, fs: Fields, os: Vals): Vals
    requires Typeds(EraseMembers(k, fs), os)
    decreases fs, 0
  {
    match fs
    case End => NoVals
    case More(head, tail) =>
      if Newer(k, head) then MoreVals(Null, EmbedVals(k, tail, os))
      else MoreVals(Embed(k, head, os.head), EmbedVals(k, tail, os.tail))
  }

  lemma EraseLength(k: int, fs: Fields)
    ensures Length(EraseAlts(k, fs)) == Length(fs)
  {
  }

  lemma EraseNth(k: int, fs: Fields, i: nat)
    requires i < Length(EraseAlts(k, fs))
    ensures i < Length(fs) && Nth(EraseAlts(k, fs), i) == Erase(k, Nth(fs, i))
  {
    EraseLength(k, fs);
    if i > 0 {
      EraseNth(k, fs.tail, i - 1);
    }
  }

  lemma AltsNth(fs: Fields, i: nat)
    requires AltsOk(fs) && i < Length(fs)
    ensures MembersOnly(Nth(fs, i))
  {
    if i > 0 {
      AltsNth(fs.tail, i - 1);
    }
  }

  // ----- Older types and values are types and values

  lemma EraseWellFormed(k: int, ty: Ty)
    requires WellFormed(ty)
    ensures WellFormed(Erase(k, ty))
  {
    match ty
    case Vec(elem) => EraseWellFormed(k, elem);
    case Struct(fields) => EraseMembersWellFormed(k, fields);
    case Opt(elem) => EraseWellFormed(k, elem);
    case Variant(alts) =>
      EraseLength(k, alts);
      EraseAltsWellFormed(k, alts);
    case Compat(_, elem) => EraseWellFormed(k, elem);
    case _ =>
  }

  lemma EraseMembersWellFormed(k: int, fs: Fields)
    requires WellFormeds(fs)
    ensures WellFormeds(EraseMembers(k, fs))
  {
    if fs.More? {
      EraseWellFormed(k, fs.head);
      EraseMembersWellFormed(k, fs.tail);
    }
  }

  lemma EraseAltsWellFormed(k: int, fs: Fields)
    requires WellFormeds(fs)
    ensures WellFormeds(EraseAlts(k, fs))
  {
    if fs.More? {
      EraseWellFormed(k, fs.head);
      EraseAltsWellFormed(k, fs.tail);
    }
  }

  /** Erasing keeps typing and container lengths. */
  lemma {:induction false} EraseTyped(k: int, w: nat, ty: Ty, v: Val)
    requires Typed(ty, v)
    ensures Typed(Erase(k, ty), EraseVal(k, ty, v))
    ensures LengthsFit(w, ty, v) ==> LengthsFit(w, Erase(k, ty), EraseVal(k, ty, v))
    decreases ty, 0
  {
    match ty
    case Vec(elem) => EraseItemsTyped(k, w, elem, v.items);
    case Struct(fields) => EraseValsTyped(k, w, fields, v.fields);
    case Opt(elem) =>
      if v.Just? {
        EraseTyped(k, w, elem, v.v);
      }
    case Variant(alts) =>
      EraseLength(k, alts);
      EraseNth(k, alts, v.index);
      EraseTyped(k, w, Nth(alts, v.index), v.v);
    case Compat(_, elem) =>
      if v.Just? {
        EraseTyped(k, w, elem, v.v);
      }
    case _ =>
  }

  lemma {:induction false} EraseItemsTyped(k: int, w: nat, elem: Ty, items: seq<Val>)
    requires forall i :: 0 <= i < |items| ==> Typed(elem, items[i])
    ensures forall i :: 0 <= i < |items| ==> Typed(Erase(k, elem), EraseItems(k, elem, items)[i])
    ensures (forall i :: 0 <= i < |items| ==> LengthsFit(w, elem, items[i])) ==>
              forall i :: 0 <= i < |items| ==> LengthsFit(w, Erase(k, elem), EraseItems(k, elem, items)[i])
    decreases elem, 1 + |items|
  {
    if items != [] {
      EraseTyped(k, w, elem, items[0]);
      EraseItemsTyped(k, w, elem, items[1..]);
    }
  }

  lemma {:induction false} EraseValsTyped(k: int, w: nat, fs: Fields, vs: Vals)
    requires Typeds(fs, vs)
    ensures Typeds(EraseMembers(k, fs), EraseVals(k, fs, vs))
    ensures LengthsFits(w, fs, vs) ==> LengthsFits(w, EraseMembers(k, fs), EraseVals(k, fs, vs))
    decreases fs, 0
  {
    if fs.More? {
      EraseTyped(k, w, fs.head, vs.head);
      EraseValsTyped(k, w, fs.tail, vs.tail);
    }
  }

  // ----- The same bytes

  /** A pass that both versions know. */
  predicate Shared(k: int, p: Pass) { p.At? ==> p.version <= k }

  /** Every pass that both versions know packs the same bytes. */
  lemma {:induction false} ErasePack(k: int, w: nat, p: Pass, ty: Ty, v: Val)
    requires Typed(ty, v) && Shared(k, p)
    requires Typed(Erase(k, ty), EraseVal(k, ty, v))
    ensures Pack(w, p, Erase(k, ty), EraseVal(k, ty, v)) == Pack(w, p, ty, v)
    decreases ty, 0
  {
    match ty
    case Vec(elem) => ErasePackItems(k, w, p, elem, v.items);
    case Struct(fields) => ErasePackFields(k, w, p, fields, v.fields);
    case Opt(elem) =>
      if v.Just? {
        ErasePack(k, w, p, elem, v.v);
      }
    case Variant(alts) =>
      EraseNth(k, alts, v.index);
      ErasePack(k, w, p, Nth(alts, v.index), v.v);
    case Compat(_, elem) =>
      if v.Just? {
        ErasePack(k, w, Base, elem, v.v);
      }
    case _ =>
  }

  lemma {:induction false} ErasePackItems(k: int, w: nat, p: Pass, elem: Ty, items: seq<Val>)
    requires Shared(k, p) && forall i :: 0 <= i < |items| ==> Typed(elem, items[i])
    requires forall i :: 0 <= i < |items| ==> Typed(Erase(k, elem), EraseItems(k, elem, items)[i])
    ensures PackItems(w, p, Erase(k, elem), EraseItems(k, elem, items)) == PackItems(w, p, elem, items)
    decreases elem, 1 + |items|
  {
    if items != [] {
      var erased := EraseItems(k, elem, items);
      assert erased[0] == EraseVal(k, elem, items[0]) && erased[1..] == EraseItems(k, elem, items[1..]);
      ErasePack(k, w, p, elem, items[0]);
      ErasePackItems(k, w, p, elem, items[1..]);
    }
  }

  lemma {:induction false} ErasePackFields(k: int, w: nat, p: Pass, fs: Fields, vs: Vals)
    requires Typeds(fs, vs) && Shared(k, p)
    requires Typeds(EraseMembers(k, fs), EraseVals(k, fs, vs))
    ensures PackFields(w, p, EraseMembers(k, fs), EraseVals(k, fs, vs)) == PackFields(w, p, fs, vs)
    decreases fs, 0
  {
    if fs.More? {
      ErasePackFields(k, w, p, fs.tail, vs.tail);
      if Newer(k, fs.head) {
        assert Pack(w, p, fs.head, vs.head) == [];
      } else {
        ErasePack(k, w, p, fs.head, vs.head);
      }
    }
  }

  // ----- The same passes first

  /** The versions up to k of an ascending list, and those after it. */
  function UpTo(k: int, vs: seq<nat>): seq<nat> {
    if vs == [] || vs[0] > k then [] else [vs[0]] + UpTo(k, vs[1..])
  }

  function Later(k: int, vs: seq<nat>): seq<nat> {
    if vs == [] || vs[0] > k then vs else Later(k, vs[1..])
  }

  lemma {:induction false} UpToThenLater(k: int, vs: seq<nat>)
    ensures UpTo(k, vs) + Later(k, vs) == vs
    ensures NoneAbove(k, UpTo(k, vs))
  {
    if vs != [] && vs[0] <= k {
      UpToThenLater(k, vs[1..]);
      assert UpTo(k, vs) == [vs[0]] + UpTo(k, vs[1..]);
    }
  }

  lemma {:induction false} UpToMembers(k: int, vs: seq<nat>, x: nat)
    requires Ascending(vs)
    ensures x in UpTo(k, vs) <==> x in vs && x <= k
  {
    if vs != [] && vs[0] <= k {
      UpToMembers(k, vs[1..], x);
      assert x in vs <==> x == vs[0] || x in vs[1..];
      assert UpTo(k, vs) == [vs[0]] + UpTo(k, vs[1..]);
    } else if vs != [] {
      assert x in vs ==> vs[0] <= x;
    }
  }

  lemma UpToAscends(k: int, vs: seq<nat>)
    requires Ascending(vs)
    ensures Ascending(UpTo(k, vs))
  {
    UpToThenLater(k, vs);
    assert forall i :: 0 <= i < |UpTo(k, vs)| ==> UpTo(k, vs)[i] == vs[i];
  }

  lemma LastShared(k: int, vs: seq<nat>)
    requires Ascending(vs)
    ensures SameSide(LastOr(-1, UpTo(k, vs)), k, vs)
  {
    UpToThenLater(k, vs);
    UpToAscends(k, vs);
    var own := UpTo(k, vs);
    forall x | x in vs
      ensures x <= LastOr(-1, own) <==> x <= k
    {
      UpToMembers(k, vs, x);
      assert own != [] ==> own[|own| - 1] in own;
      assert x in own ==> x <= own[|own| - 1];
    }
  }

  lemma {:induction false} EraseVersions(k: int, ty: Ty, x: nat)
    requires MembersOnly(ty)
    ensures x in Versions(Erase(k, ty)) <==> x in Versions(ty) && x <= k
  {
    match ty
    case Vec(elem) => EraseVersions(k, elem, x);
    case Struct(fields) => EraseMembersVersions(k, fields, x);
    case Opt(elem) => EraseVersions(k, elem, x);
    case Variant(alts) => EraseAltsVersions(k, alts, x);
    case _ =>
  }

  lemma {:induction false} EraseMembersVersions(k: int, fs: Fields, x: nat)
    requires MembersOk(fs)
    ensures x in VersionsOf(EraseMembers(k, fs)) <==> x in VersionsOf(fs) && x <= k
  {
    if fs.More? {
      MergeMembers(Versions(fs.head), VersionsOf(fs.tail), x);
      MergeMembers(Versions(Erase(k, fs.head)), VersionsOf(EraseMembers(k, fs.tail)), x);
      EraseMembersVersions(k, fs.tail, x);
      if fs.head.Compat? {
        assert x in Versions(fs.head) <==> x == fs.head.version;
      } else {
        EraseVersions(k, fs.head, x);
      }
    }
  }

  lemma {:induction false} EraseAltsVersions(k: int, fs: Fields, x: nat)
    requires AltsOk(fs)
    ensures x in VersionsOf(EraseAlts(k, fs)) <==> x in VersionsOf(fs) && x <= k
  {
    if fs.More? {
      MergeMembers(Versions(fs.head), VersionsOf(fs.tail), x);
      MergeMembers(Versions(Erase(k, fs.head)), VersionsOf(EraseAlts(k, fs.tail)), x);
      EraseAltsVersions(k, fs.tail, x);
      EraseVersions(k, fs.head, x);
    }
  }

  lemma HasMember(s: seq<nat>)
    ensures s == [] || exists x :: x in s
  {
    if s != [] {
      assert s[0] in s;
    }
  }

  lemma {:induction false} AscendingUnique(a: seq<nat>, b: seq<nat>)
    requires Ascending(a) && Ascending(b) && forall x :: x in a <==> x in b
    ensures a == b
  {
    if a != [] && b != [] {
      assert a[0] in a && b[0] in b;
      assert a[0] in b && b[0] in a;
      assert a[0] == b[0];
      forall x: nat
        ensures x in a[1..] <==> x in b[1..]
      {
        assert x in a <==> x == a[0] || x in a[1..];
        assert x in b <==> x == b[0] || x in b[1..];
      }
      AscendingUnique(a[1..], b[1..]);
    } else {
      HasMember(a);
      HasMember(b);
    }
  }

  /** The older type makes the first of the newer type's passes. */
  lemma OlderPassesFirst(k: int, ty: Ty)
    requires MembersOnly(ty)
    ensures Versions(Erase(k, ty)) == UpTo(k, Versions(ty))
  {
    VersionsAscend(ty);
    VersionsAscend(Erase(k, ty));
    UpToAscends(k, Versions(ty));
    forall x: nat
      ensures x in Versions(Erase(k, ty)) <==> x in UpTo(k, Versions(ty))
    {
      EraseVersions(k, ty, x);
      UpToMembers(k, Versions(ty), x);
    }
    AscendingUnique(Versions(Erase(k, ty)), UpTo(k, Versions(ty)));
  }

  lemma {:induction false} PackVersionsConcat(w: nat, a: seq<nat>, b: seq<nat>, ty: Ty, v: Val)
    requires Typed(ty, v)
    ensures PackVersions(w, a + b, ty, v) == PackVersions(w, a, ty, v) + PackVersions(w, b, ty, v)
  {
    if a == [] {
      assert a + b == b;
    } else {
      assert (a + b)[1..] == a[1..] + b;
      PackVersionsConcat(w, a[1..], b, ty, v);
    }
  }

  lemma {:induction false} ErasePackVersions(k: int, w: nat, vs: seq<nat>, ty: Ty, v: Val)
    requires Typed(ty, v) && Typed(Erase(k, ty), EraseVal(k, ty, v)) && NoneAbove(k, vs)
    ensures PackVersions(w, vs, Erase(k, ty), EraseVal(k, ty, v)) == PackVersions(w, vs, ty, v)
  {
    if vs != [] {
      assert vs[0] in vs;
      assert forall x :: x in vs[1..] ==> x in vs;
      ErasePack(k, w, At(vs[0]), ty, v);
      ErasePackVersions(k, w, vs[1..], ty, v);
    }
  }

  /** The newer payload starts with the older one; the rest is the later passes. */
  lemma PayloadSplits(k: int, w: nat, ty: Ty, v: Val)
    requires Typed(ty, v) && Typed(Erase(k, ty), EraseVal(k, ty, v)) && MembersOnly(ty)
    ensures Payload(w, ty, v)
         == Payload(w, Erase(k, ty), EraseVal(k, ty, v)) + PackVersions(w, Later(k, Versions(ty)), ty, v)
  {
    var older, o := Erase(k, ty), EraseVal(k, ty, v);
    var later := PackVersions(w, Later(k, Versions(ty)), ty, v);
    ErasePack(k, w, Base, ty, v);
    PassesSplit(k, w, ty, v);
    var base, own := Pack(w, Base, ty, v), PackVersions(w, Versions(older), older, o);
    AppendTwice(base, own, later);
    assert Payload(w, ty, v) == base + (own + later);
    assert Payload(w, older, o) == base + own;
  }

  lemma PassesSplit(k: int, w: nat, ty: Ty, v: Val)
    requires Typed(ty, v) && Typed(Erase(k, ty), EraseVal(k, ty, v)) && MembersOnly(ty)
    ensures PackVersions(w, Versions(ty), ty, v)
         == PackVersions(w, Versions(Erase(k, ty)), Erase(k, ty), EraseVal(k, ty, v))
            + PackVersions(w, Later(k, Versions(ty)), ty, v)
  {
    var vs := Versions(ty);
    UpToThenLater(k, vs);
    OlderPassesFirst(k, ty);
    ErasePackVersions(k, w, UpTo(k, vs), ty, v);
    PackVersionsConcat(w, UpTo(k, vs), Later(k, vs), ty, v);
  }

  // ----- An older reader

  /** Bytes of the newer type decode under the older one to the shared members,
      those inside set compatible members null as in the round trip. */
  lemma OlderReadsNewer(id: TypeId, k: int, ty: Ty, v: Val, tail: seq<byte>)
    requires IdOk(id) && WellFormed(ty) && MembersOnly(ty) && Typed(ty, v) && NeededSize(id, ty, v) < TWO64
    ensures WellFormed(Erase(k, ty))
    ensures var older := Erase(k, ty);
            ReadsAs(Deserialize(id, older, Default(older), Serialize(id, ty, v) + tail), older, EraseVal(k, ty, v))
  {
    EraseWellFormed(k, ty);
    NeededSizeIsExact(id, ty, v);
    InfoOk(id, ty, v);
    WidthFits(id, ty, v);
    OlderReadsBuffer(id, k, ty, v, RuntimeInfo(id, ty, v), tail);
  }

  lemma OlderReadsBuffer(id: TypeId, k: int, ty: Ty, v: Val, info: Info, tail: seq<byte>)
    requires IdOk(id) && WellFormed(Erase(k, ty)) && MembersOnly(ty) && Typed(ty, v) && InfoFits(id, ty, info)
    requires LengthsFit(WidthOf(info.widthCode), ty, v)
    requires HasCompat(ty) ==> |Header(id, ty, info)| + |Payload(WidthOf(info.widthCode), ty, v)| <= DataLen(info)
    ensures var older, bytes := Erase(k, ty), Header(id, ty, info) + Payload(WidthOf(info.widthCode), ty, v);
            ReadsAs(Deserialize(id, older, Default(older), bytes + tail), older, EraseVal(k, ty, v))
  {
    var w := WidthOf(info.widthCode);
    var head, body := Header(id, ty, info), Payload(w, ty, v);
    DeserializeHeader(id, ty, Erase(k, ty), Default(Erase(k, ty)), info, body + tail);
    OlderReadsPayload(k, w, ty, v, Reader(|head|, body + tail, DataLen(info), false), tail);
    AppendTwice(head, body, tail);
  }

  lemma OlderReadsPayload(k: int, w: nat, ty: Ty, v: Val, rd: Reader, tail: seq<byte>)
    requires WellFormed(Erase(k, ty)) && MembersOnly(ty) && Typed(ty, v) && LengthsFit(w, ty, v)
    requires rd.rest == Payload(w, ty, v) + tail
    requires HasCompat(ty) ==> rd.now + |Payload(w, ty, v)| <= rd.dataLen
    ensures ReadsAs(UnpackAll(w, Erase(k, ty), Default(Erase(k, ty)), rd), Erase(k, ty), EraseVal(k, ty, v))
  {
    EraseTyped(k, w, ty, v);
    PayloadSplits(k, w, ty, v);
    OlderHasCompat(k, ty);
    var own := Payload(w, Erase(k, ty), EraseVal(k, ty, v));
    var later := PackVersions(w, Later(k, Versions(ty)), ty, v);
    AppendTwice(own, later, tail);
    PayloadRoundTrip(w, Erase(k, ty), EraseVal(k, ty, v), rd, later + tail);
  }

  lemma OlderHasCompat(k: int, ty: Ty)
    requires MembersOnly(ty)
    ensures HasCompat(Erase(k, ty)) ==> HasCompat(ty)
  {
    OlderPassesFirst(k, ty);
  }

  // ----- A newer reader

  predicate AllZero(bs: seq<byte>) { forall i :: 0 <= i < |bs| ==> bs[i] == 0 }

  /** From here to the end of the data there are only zeros. */
  predicate Padded(rd: Reader) {
    rd.now < rd.dataLen ==> rd.dataLen - rd.now <= |rd.rest| && AllZero(rd.rest[..rd.dataLen - rd.now])
  }

  /** What a version pass over padding leaves: nothing was read but zeros, and any
      failure is marked as legal. */
  predicate Idle(code: Errc, rd: Reader, after: Reader) {
    && Padded(after) && after.dataLen == rd.dataLen && (code != Ok ==> after.exhausted)
    && (rd.now >= rd.dataLen ==> after.now == rd.now && after.rest == rd.rest)
  }

  lemma PaddedSkip(rd: Reader)
    requires Padded(rd) && rd.now < rd.dataLen
    ensures |rd.rest| >= 1 && rd.rest[0] == 0 && Padded(rd.Skip(1))
  {
    assert rd.rest[0] == rd.rest[..rd.dataLen - rd.now][0];
    assert rd.now + 1 < rd.dataLen ==>
      rd.rest[1..][..rd.dataLen - rd.now - 1] == rd.rest[..rd.dataLen - rd.now][1..];
  }

  /** Past the data, or over zeros, a version pass leaves every target as it was. */
  lemma {:induction false} PastEnd(w: nat, x: nat, ty: Ty, target: Val, rd: Reader)
    requires WellFormed(ty) && Padded(rd)
    ensures var r := Unpack(w, At(x), ty, target, rd); r.val == target && Idle(r.code, rd, r.rd)
    decreases ty, 1
  {
    match ty
    case Vec(elem) =>
      if target.List? {
        PastEndEach(w, x, elem, target.items, rd);
      }
    case Struct(fields) =>
      if target.Rec? {
        PastEndFields(w, x, fields, target.fields, rd);
      }
    case Opt(elem) =>
      if target.Just? {
        PastEnd(w, x, elem, target.v, rd);
      }
    case Variant(alts) =>
      if target.Alt? && target.index < Length(alts) {
        WellFormedNth(alts, target.index);
        PastEnd(w, x, Nth(alts, target.index), target.v, rd);
      }
    case Compat(version, _) =>
      if x == version && rd.now < rd.dataLen {
        PaddedSkip(rd);
      }
    case _ =>
  }

  lemma {:induction false} PastEndEach(w: nat, x: nat, elem: Ty, items: seq<Val>, rd: Reader)
    requires WellFormed(elem) && Padded(rd)
    ensures var r := UnpackEach(w, At(x), elem, items, rd); r.items == items && Idle(r.code, rd, r.rd)
    decreases elem, 2 + |items|
  {
    if items != [] {
      PastEnd(w, x, elem, items[0], rd);
      PastEndEach(w, x, elem, items[1..], Unpack(w, At(x), elem, items[0], rd).rd);
    }
  }

  lemma {:induction false} PastEndFields(w: nat, x: nat, fs: Fields, targets: Vals, rd: Reader)
    requires WellFormeds(fs) && Padded(rd)
    ensures var r := UnpackFields(w, At(x), fs, targets, rd); r.vals == targets && Idle(r.code, rd, r.rd)
    decreases fs, 0
  {
    if fs.More? && targets.MoreVals? {
      PastEnd(w, x, fs.head, targets.head, rd);
      PastEndFields(w, x, fs.tail, targets.tail, Unpack(w, At(x), fs.head, targets.head, rd).rd);
    }
  }

  lemma {:induction false} PastEndVersions(w: nat, vs: seq<nat>, ty: Ty, target: Val, rd: Reader)
    requires WellFormed(ty) && Padded(rd)
    ensures var r := UnpackVersions(w, vs, ty, target, rd); r.code == Ok && r.val == target && Idle(r.code, rd, r.rd)
  {
    if vs != [] {
      PastEnd(w, vs[0], ty, target, rd);
      PastEndVersions(w, vs[1..], ty, target, Unpack(w, At(vs[0]), ty, target, rd).rd);
    }
  }

  /** Embedding an older value sets no newer member, and erasing undoes it. */
  lemma {:induction false} EmbedInverse(k: int, w: nat, ty: Ty, o: Val)
    requires Typed(Erase(k, ty), o) && MembersOnly(ty)
    ensures Typed(ty, Embed(k, ty, o)) && EraseVal(k, ty, Embed(k, ty, o)) == o
    ensures Keep(k, ty, Embed(k, ty, o)) == Sent(ty, Embed(k, ty, o))
    ensures LengthsFit(w, Erase(k, ty), o) ==> LengthsFit(w, ty, Embed(k, ty, o))
    decreases ty, 0
  {
    match ty
    case Vec(elem) => EmbedItemsInverse(k, w, elem, o.items);
    case Struct(fields) => EmbedValsInverse(k, w, fields, o.fields);
    case Opt(elem) =>
      if o.Just? {
        EmbedInverse(k, w, elem, o.v);
      }
    case Variant(alts) =>
      EraseNth(k, alts, o.index);
      AltsNth(alts, o.index);
      EmbedInverse(k, w, Nth(alts, o.index), o.v);
    case _ =>
  }

  lemma {:induction false} EmbedItemsInverse(k: int, w: nat, elem: Ty, items: seq<Val>)
    requires MembersOnly(elem) && forall i :: 0 <= i < |items| ==> Typed(Erase(k, elem), items[i])
    ensures forall i :: 0 <= i < |items| ==> Typed(elem, EmbedItems(k, elem, items)[i])
    ensures EraseItems(k, elem, EmbedItems(k, elem, items)) == items
    ensures KeepItems(k, elem, EmbedItems(k, elem, items)) == SentItems(elem, EmbedItems(k, elem, items))
    ensures (forall i :: 0 <= i < |items| ==> LengthsFit(w, Erase(k, elem), items[i])) ==>
              forall i :: 0 <= i < |items| ==> LengthsFit(w, elem, EmbedItems(k, elem, items)[i])
    decreases elem, 1 + |items|
  {
    if items != [] {
      EmbedInverse(k, w, elem, items[0]);
      EmbedItemsInverse(k, w, elem, items[1..]);
      var embedded := EmbedItems(k, elem, items);
      assert embedded == [Embed(k, elem, items[0])] + EmbedItems(k, elem, items[1..]);
      assert embedded[0] == Embed(k, elem, items[0]) && embedded[1..] == EmbedItems(k, elem, items[1..]);
      assert items == [items[0]] + items[1..];
    }
  }

  lemma {:induction false} EmbedValsInverse(k: int, w: nat, fs: Fields, os: Vals)
    requires Typeds(EraseMembers(k, fs), os) && MembersOk(fs)
    ensures Typeds(fs, EmbedVals(k, fs, os)) && EraseVals(k, fs, EmbedVals(k, fs, os)) == os
    ensures Keeps(k, fs, EmbedVals(k, fs, os)) == SentFields(fs, EmbedVals(k, fs, os))
    ensures LengthsFits(w, EraseMembers(k, fs), os) ==> LengthsFits(w, fs, EmbedVals(k, fs, os))
    decreases fs, 0
  {
    if fs.More? {
      if Newer(k, fs.head) {
        EmbedValsInverse(k, w, fs.tail, os);
      } else {
        EmbedValsInverse(k, w, fs.tail, os.tail);
        if fs.head.Compat? {
          EmbedCompatInverse(k, w, fs.head, os.head);
        } else {
          EmbedInverse(k, w, fs.head, os.head);
        }
      }
    }
  }

  lemma EmbedCompatInverse(k: int, w: nat, ty: Ty, o: Val)
    requires ty.Compat? && ty.version <= k && MembersOnly(ty.elem) && Typed(Erase(k, ty), o)
    ensures Typed(ty, Embed(k, ty, o)) && EraseVal(k, ty, Embed(k, ty, o)) == o
    ensures Keep(k, ty, Embed(k, ty, o)) == Sent(ty, Embed(k, ty, o))
    ensures LengthsFit(w, Erase(k, ty), o) ==> LengthsFit(w, ty, Embed(k, ty, o))
    decreases ty, 0
  {
    if o.Just? {
      EmbedInverse(k, w, ty.elem, o.v);
    }
  }

  /** Bytes of the older type decode under the newer one with every newer member
      null.  Where the sizer counted more than was written, that holds when the
      difference is zeros; where it did not, whatever follows is left unread. */
  lemma NewerReadsOlder(id: TypeId, k: int, ty: Ty, o: Val, pad: seq<byte>, tail: seq<byte>)
    requires IdOk(id) && WellFormed(ty) && MembersOnly(ty) && Typed(Erase(k, ty), o)
    requires NeededSize(id, Erase(k, ty), o) < TWO64
    requires AllZero(pad) && |Serialize(id, Erase(k, ty), o)| + |pad| == NeededSize(id, Erase(k, ty), o)
    ensures var r := Deserialize(id, ty, Default(ty), Serialize(id, Erase(k, ty), o) + (pad + tail));
            ReadsAs(r, ty, Embed(k, ty, o)) && (Shallow(Erase(k, ty), o) ==> pad == [] && r.rd.rest == tail)
  {
    var older := Erase(k, ty);
    var info, v := RuntimeInfo(id, older, o), Embed(k, ty, o);
    NeededSizeIsExact(id, older, o);
    InfoOk(id, older, o);
    WidthFits(id, older, o);
    EmbedInverse(k, WidthOf(info.widthCode), ty, o);
    SerializedParts(id, older, o, info);
    NewerReadsBuffer(id, k, ty, v, info, pad, tail);
    assert EraseVal(k, ty, v) == o;
    assert Serialize(id, older, o) == Header(id, older, info) + Payload(WidthOf(info.widthCode), older, o);
  }

  /** The newer value has no newer member set. */
  lemma NewerReadsBuffer(id: TypeId, k: int, ty: Ty, v: Val, info: Info, pad: seq<byte>, tail: seq<byte>)
    requires IdOk(id) && WellFormed(ty) && MembersOnly(ty) && InfoFits(id, Erase(k, ty), info) && AllZero(pad)
    requires Typed(ty, v) && Keep(k, ty, v) == Sent(ty, v) && Typed(Erase(k, ty), EraseVal(k, ty, v))
    requires LengthsFit(WidthOf(info.widthCode), ty, v)
    requires var older := Erase(k, ty);
             var bytes := Header(id, older, info) + Payload(WidthOf(info.widthCode), older, EraseVal(k, ty, v));
             DataLen(info) == if HasCompat(older) then |bytes| + |pad| else 0
    ensures var older := Erase(k, ty);
            var bytes := Header(id, older, info) + Payload(WidthOf(info.widthCode), older, EraseVal(k, ty, v));
            var r := Deserialize(id, ty, Default(ty), bytes + (pad + tail));
            ReadsAs(r, ty, v) && (pad == [] ==> r.rd.rest == tail)
  {
    var w := WidthOf(info.widthCode);
    var older, o := Erase(k, ty), EraseVal(k, ty, v);
    var head, body := Header(id, older, info), Payload(w, older, o);
    DeserializeHeader(id, older, ty, Default(ty), info, body + (pad + tail));
    NewerReadsPayload(k, w, ty, v, Reader(|head|, body + (pad + tail), DataLen(info), false), pad, tail);
    AppendTwice(head, body, pad + tail);
  }

  lemma NewerReadsPayload(k: int, w: nat, ty: Ty, v: Val, rd: Reader, pad: seq<byte>, tail: seq<byte>)
    requires WellFormed(ty) && MembersOnly(ty) && AllZero(pad)
    requires Typed(ty, v) && Keep(k, ty, v) == Sent(ty, v) && Typed(Erase(k, ty), EraseVal(k, ty, v))
    requires LengthsFit(w, ty, v)
    requires rd.rest == Payload(w, Erase(k, ty), EraseVal(k, ty, v)) + (pad + tail)
    requires var size := |Payload(w, Erase(k, ty), EraseVal(k, ty, v))| + |pad|;
             rd.dataLen == if HasCompat(Erase(k, ty)) then rd.now + size else 0
    ensures var r := UnpackAll(w, ty, Default(ty), rd); ReadsAs(r, ty, v) && (pad == [] ==> r.rd.rest == tail)
  {
    var vs := Versions(ty);
    var own, later := UpTo(k, vs), Later(k, vs);
    ErasePack(k, w, Base, ty, v);
    OlderPassesFirst(k, ty);
    UpToThenLater(k, vs);
    ErasePackVersions(k, w, own, ty, v);
    var base, shared := Pack(w, Base, ty, v), PackVersions(w, own, ty, v);
    var end := SharedRead(k, w, ty, v, rd, base, shared, pad + tail);
    PadAhead(end, pad, tail);
    PastEndVersions(w, later, ty, Sent(ty, v), end);
  }

  lemma PadAhead(rd: Reader, pad: seq<byte>, tail: seq<byte>)
    requires AllZero(pad) && rd.rest == pad + tail && rd.dataLen <= rd.now + |pad|
    ensures Padded(rd)
  {
    if rd.now < rd.dataLen {
      var n := rd.dataLen - rd.now;
      assert rd.rest[..n] == pad[..n];
    }
  }

  /** The passes both versions know, read under the newer type. */
  lemma SharedRead(k: int, w: nat, ty: Ty, v: Val, rd: Reader, base: seq<byte>, shared: seq<byte>, rest: seq<byte>)
    returns (end: Reader)
    requires WellFormed(ty) && Typed(ty, v) && Keep(k, ty, v) == Sent(ty, v) && LengthsFit(w, ty, v)
    requires base == Pack(w, Base, ty, v) && shared == PackVersions(w, UpTo(k, Versions(ty)), ty, v)
    requires rd.rest == base + shared + rest
    requires UpTo(k, Versions(ty)) != [] ==> rd.now + |base| + |shared| <= rd.dataLen
    ensures UnpackAll(w, ty, Default(ty), rd) == UnpackVersions(w, Later(k, Versions(ty)), ty, Sent(ty, v), end)
    ensures end == Past(rd, base + shared, rest)
  {
    var vs := Versions(ty);
    var own, later := UpTo(k, vs), Later(k, vs);
    SplitReads(Base, rd, base, shared, rest);
    PassRoundTrip(w, Base, ty, v, rd, shared + rest);
    var rd1 := Past(rd, base, shared + rest);
    SharedAreNext(k, ty);
    VersionsRoundTrip(w, -1, own, later, ty, v, rd1, rest);
    VersionsAscend(ty);
    LastShared(k, vs);
    KeepSame(LastOr(-1, own), k, ty, v);
    UpToThenLater(k, vs);
    end := Past(rd1, shared, rest);
  }

  lemma SharedAreNext(k: int, ty: Ty)
    ensures NextVersions(-1, UpTo(k, Versions(ty)), Versions(ty))
  {
    var vs := Versions(ty);
    var own := UpTo(k, vs);
    VersionsAscend(ty);
    UpToAscends(k, vs);
    UpToThenLater(k, vs);
    forall x | x in vs && own != [] && x <= own[|own| - 1]
      ensures x in own
    {
      assert own[|own| - 1] in own;
      UpToMembers(k, vs, x);
    }
  }

  // ----- Why newer versions need larger numbers

  lemma DefaultTyped(ty: Ty)
    requires WellFormed(ty)
    ensures Typed(ty, Default(ty))
  {
    match ty
    case Struct(fields) => DefaultsTyped(fields);
    case Variant(alts) => DefaultTyped(alts.head);
    case Fast(kinds) =>
      forall i | 0 <= i < |kinds|
        ensures FV.Fits(kinds[i], FV.Zeros(|kinds|)[i])
      {
        assert FV.KindOk(kinds[i]);
      }
    case _ =>
  }

  lemma DefaultsTyped(fs: Fields)
    requires WellFormeds(fs)
    ensures Typeds(fs, Defaults(fs))
  {
    if fs.More? {
      DefaultTyped(fs.head);
      DefaultsTyped(fs.tail);
    }
  }

  /** A struct with a new member of version a and a member of version b that the
      older struct keeps. */
  function Pair(a: nat, ta: Ty, b: nat, tb: Ty): Ty { Struct(More(Compat(a, ta), More(Compat(b, tb), End))) }

  function Kept(b: nat, tb: Ty): Ty { Struct(More(Compat(b, Erase(b, tb)), End)) }

  function PairVal(va: Val, vb: Val): Val { Rec(MoreVals(va, MoreVals(vb, NoVals))) }

  predicate MemberOf(t: Ty, v: Val) { v.Null? || (v.Just? && Typed(t, v.v)) }

  predicate PairOk(ta: Ty, tb: Ty) { WellFormed(ta) && MembersOnly(ta) && WellFormed(tb) && MembersOnly(tb) }

  lemma PairTyped(a: nat, ta: Ty, va: Val, b: nat, tb: Ty, vb: Val)
    requires PairOk(ta, tb) && MemberOf(ta, va) && MemberOf(tb, vb)
    ensures WellFormed(Pair(a, ta, b, tb)) && Typed(Pair(a, ta, b, tb), PairVal(va, vb)) && WellFormed(Kept(b, tb))
    ensures Typed(Compat(b, tb), vb)
  {
    assert Typed(Compat(a, ta), va) && Typed(Compat(b, tb), vb);
    assert WellFormed(Compat(a, ta)) && WellFormed(Compat(b, tb));
    assert WellFormeds(More(Compat(b, tb), End)) && Typeds(More(Compat(b, tb), End), MoreVals(vb, NoVals));
    EraseWellFormed(b, tb);
    assert WellFormed(Compat(b, Erase(b, tb))) && WellFormeds(More(Compat(b, Erase(b, tb)), End));
  }

  /** The older reader gets the kept member out of the newer writer's buffer. */
  predicate ReadsKept(id: TypeId, a: nat, ta: Ty, va: Val, b: nat, tb: Ty, vb: Val)
    requires PairOk(ta, tb) && MemberOf(ta, va) && MemberOf(tb, vb)
  {
    PairTyped(a, ta, va, b, tb, vb);
    var r := Deserialize(id, Kept(b, tb), Default(Kept(b, tb)), Serialize(id, Pair(a, ta, b, tb), PairVal(va, vb)));
    ReadsAs(r, Kept(b, tb), Rec(MoreVals(EraseVal(b, Compat(b, tb), vb), NoVals)))
  }

  predicate Sendable(id: TypeId, a: nat, ta: Ty, va: Val, b: nat, tb: Ty, vb: Val)
    requires PairOk(ta, tb)
  {
    && MemberOf(ta, va) && MemberOf(tb, vb)
    && (PairTyped(a, ta, va, b, tb, vb); NeededSize(id, Pair(a, ta, b, tb), PairVal(va, vb)) < TWO64)
  }

  ghost predicate AlwaysReadsKept(id: TypeId, a: nat, ta: Ty, b: nat, tb: Ty)
    requires PairOk(ta, tb)
  {
    forall va, vb :: Sendable(id, a, ta, va, b, tb, vb) ==> ReadsKept(id, a, ta, va, b, tb, vb)
  }

  lemma LargerVersionReads(id: TypeId, a: nat, ta: Ty, va: Val, b: nat, tb: Ty, vb: Val)
    requires IdOk(id) && PairOk(ta, tb) && Sendable(id, a, ta, va, b, tb, vb) && a > b
    ensures ReadsKept(id, a, ta, va, b, tb, vb)
  {
    var ty, v := Pair(a, ta, b, tb), PairVal(va, vb);
    var last, lastVal := More(Compat(b, tb), End), MoreVals(vb, NoVals);
    PairTyped(a, ta, va, b, tb, vb);
    assert MembersOk(End) && MembersOk(last) && MembersOnly(ty);
    assert EraseMembers(b, End) == End && Erase(b, Compat(b, tb)) == Compat(b, Erase(b, tb));
    assert EraseMembers(b, last) == More(Compat(b, Erase(b, tb)), End);
    assert Erase(b, ty) == Kept(b, tb);
    assert EraseVals(b, End, NoVals) == NoVals;
    assert EraseVals(b, last, lastVal) == MoreVals(EraseVal(b, Compat(b, tb), vb), NoVals);
    assert EraseVal(b, ty, v) == Rec(EraseVals(b, last, lastVal));
    OlderReadsNewer(id, b, ty, v, []);
    assert Serialize(id, ty, v) + [] == Serialize(id, ty, v);
  }

  lemma OneVersion(x: nat)
    ensures Merge([x], []) == [x]
  {
    assert [x][1..] == [];
    assert Merge([x][1..], []) == [];
  }

  lemma LastVersions(b: nat, tb: Ty)
    ensures VersionsOf(More(Compat(b, tb), End)) == [b] && Versions(Struct(More(Compat(b, tb), End))) == [b]
  {
    OneVersion(b);
    assert Versions(Compat(b, tb)) == [b] && VersionsOf(End) == [];
  }

  lemma PairVersions(a: nat, ta: Ty, b: nat, tb: Ty)
    requires a <= b
    ensures Versions(Pair(a, ta, b, tb)) == if a == b then [a] else [a, b]
  {
    LastVersions(b, tb);
    assert Versions(Compat(a, ta)) == [a] && [a][1..] == [];
    assert Merge([a][1..], [b]) == [b];
    assert Merge([a], [b]) == Insert(a, [b]);
  }

  /** With the new member null, the first byte of the version passes is its mark. */
  lemma NewMarkFirst(w: nat, a: nat, ta: Ty, b: nat, tb: Ty, vb: Val)
    requires a <= b && PairOk(ta, tb) && MemberOf(tb, vb) && Typed(Pair(a, ta, b, tb), PairVal(Null, vb))
    ensures var bytes := Payload(w, Pair(a, ta, b, tb), PairVal(Null, vb)); |bytes| >= 1 && bytes[0] == 0
  {
    var ty, v := Pair(a, ta, b, tb), PairVal(Null, vb);
    var last, lastVal := More(Compat(b, tb), End), MoreVals(vb, NoVals);
    assert Typed(Compat(a, ta), Null) && Typeds(last, lastVal);
    assert Pack(w, Base, Compat(a, ta), Null) == [] && Pack(w, Base, Compat(b, tb), vb) == [];
    assert PackFields(w, Base, End, NoVals) == [];
    assert PackFields(w, Base, last, lastVal) == [];
    assert Pack(w, Base, ty, v) == [];
    assert Pack(w, At(a), Compat(a, ta), Null) == [0];
    assert Pack(w, At(a), ty, v) == [0] + PackFields(w, At(a), last, lastVal);
    PairVersions(a, ta, b, tb);
    var vs := Versions(ty);
    assert PackVersions(w, vs, ty, v) == Pack(w, At(a), ty, v) + PackVersions(w, vs[1..], ty, v);
  }

  lemma KeptReadsMark(w: nat, b: nat, tb: Ty, rd: Reader)
    requires WellFormed(Kept(b, tb)) && rd.now < rd.dataLen && |rd.rest| >= 1 && rd.rest[0] == 0
    ensures UnpackAll(w, Kept(b, tb), Default(Kept(b, tb)), rd).val == Rec(MoreVals(Null, NoVals))
  {
    var ty, t := Kept(b, tb), Compat(b, Erase(b, tb));
    var target := Rec(MoreVals(Null, NoVals));
    assert Default(t) == Null && Defaults(End) == NoVals && Default(ty) == target;
    assert WellFormed(t);
    KeptPass(w, Base, t, rd);
    KeptPass(w, At(b), t, rd);
    LastVersions(b, Erase(b, tb));
    var vs := Versions(ty);
    assert vs[1..] == [];
    assert UnpackVersions(w, vs[1..], ty, target, rd.Skip(1)).val == target;
  }

  lemma KeptPass(w: nat, p: Pass, t: Ty, rd: Reader)
    requires WellFormed(t) && WellFormed(Struct(More(t, End)))
    ensures var r := Unpack(w, p, t, Null, rd);
            r.code == Ok ==>
              Unpack(w, p, Struct(More(t, End)), Rec(MoreVals(Null, NoVals)), rd)
              == Result(Ok, Rec(MoreVals(r.val, NoVals)), r.rd)
  {
    var r := Unpack(w, p, t, Null, rd);
    assert UnpackFields(w, p, End, NoVals, r.rd) == Results(Ok, NoVals, r.rd);
  }

  /** A version not above the kept one is read as the kept one. */
  lemma SmallerVersionMisread(id: TypeId, a: nat, ta: Ty, b: nat, tb: Ty, vb: Val)
    requires IdOk(id) && PairOk(ta, tb) && Sendable(id, a, ta, Null, b, tb, vb) && vb.Just? && a <= b
    ensures !ReadsKept(id, a, ta, Null, b, tb, vb)
  {
    var ty, v := Pair(a, ta, b, tb), PairVal(Null, vb);
    PairTyped(a, ta, Null, b, tb, vb);
    PairVersions(a, ta, b, tb);
    var info := RuntimeInfo(id, ty, v);
    NeededSizeIsExact(id, ty, v);
    InfoOk(id, ty, v);
    MisreadBuffer(id, a, ta, b, tb, vb, info);
    SetIsSent(Compat(b, Erase(b, tb)), EraseVal(b, Compat(b, tb), vb));
  }

  lemma SetIsSent(t: Ty, v: Val)
    requires t.Compat? && v.Just?
    ensures var ty, val := Struct(More(t, End)), Rec(MoreVals(v, NoVals));
            Typed(ty, val) ==> Sent(ty, val) != Rec(MoreVals(Null, NoVals))
  {
    var fs, vs := More(t, End), MoreVals(v, NoVals);
    if Typeds(fs, vs) {
      assert Sent(t, v).Just? && SentFields(fs, vs) == MoreVals(Sent(t, v), SentFields(End, NoVals));
    }
  }

  lemma MisreadBuffer(id: TypeId, a: nat, ta: Ty, b: nat, tb: Ty, vb: Val, info: Info)
    requires IdOk(id) && PairOk(ta, tb) && MemberOf(tb, vb) && a <= b && Typed(Pair(a, ta, b, tb), PairVal(Null, vb))
    requires WellFormed(Kept(b, tb)) && InfoFits(id, Pair(a, ta, b, tb), info)
    requires var ty, v := Pair(a, ta, b, tb), PairVal(Null, vb);
             DataLen(info) >= |Header(id, ty, info)| + |Payload(WidthOf(info.widthCode), ty, v)|
    ensures var ty, v := Pair(a, ta, b, tb), PairVal(Null, vb);
            Deserialize(id, Kept(b, tb), Default(Kept(b, tb)), Header(id, ty, info)
              + Payload(WidthOf(info.widthCode), ty, v)).val
            == Rec(MoreVals(Null, NoVals))
  {
    var ty, v := Pair(a, ta, b, tb), PairVal(Null, vb);
    var w := WidthOf(info.widthCode);
    var head, body := Header(id, ty, info), Payload(w, ty, v);
    NewMarkFirst(w, a, ta, b, tb, vb);
    DeserializeHeader(id, ty, Kept(b, tb), Default(Kept(b, tb)), info, body);
    KeptReadsMark(w, b, tb, Reader(|head|, body, DataLen(info), false));
  }

  /** The older reader gets the kept member of every value if and only if the new
      member has the larger version. */
  lemma KeptMemberReadIff(id: TypeId, a: nat, ta: Ty, b: nat, tb: Ty)
    requires IdOk(id) && PairOk(ta, tb) && Sendable(id, a, ta, Null, b, tb, Just(Default(tb)))
    ensures AlwaysReadsKept(id, a, ta, b, tb) <==> a > b
  {
    if a > b {
      forall va, vb | Sendable(id, a, ta, va, b, tb, vb)
        ensures ReadsKept(id, a, ta, va, b, tb, vb)
      {
        LargerVersionReads(id, a, ta, va, b, tb, vb);
      }
    } else {
      DefaultTyped(tb);
      SmallerVersionMisread(id, a, ta, b, tb, Just(Default(tb)));
    }
  }

  // ----- Why the difference between asked for and written matters

  /** The version-a value in the newer pair. */
  function PairOf(a: nat, ta: Ty, o: Val): Val
    requires Typed(Erase(a, Compat(a, ta)), o)
  {
    PairVal(Embed(a, Compat(a, ta), o), Null)
  }

  lemma PairErases(a: nat, ta: Ty, c: nat, tc: Ty, o: Val)
    requires PairOk(ta, tc) && a < c && Typed(Erase(a, Compat(a, ta)), o)
    ensures var ty, older := Pair(a, ta, c, tc), Kept(a, ta);
            && WellFormed(ty) && MembersOnly(ty) && Erase(a, ty) == older && Typed(older, Rec(MoreVals(o, NoVals)))
            && Embed(a, ty, Rec(MoreVals(o, NoVals))) == PairOf(a, ta, o)
  {
    var last := More(Compat(c, tc), End);
    assert WellFormed(Compat(a, ta)) && WellFormed(Compat(c, tc)) && WellFormeds(last);
    assert MembersOk(End) && MembersOk(last);
    assert EraseMembers(a, End) == End && EraseMembers(a, last) == End;
    assert Typeds(End, NoVals) && EmbedVals(a, End, NoVals) == NoVals;
    assert EmbedVals(a, last, NoVals) == MoreVals(Null, NoVals);
  }

  /** A newer pass that finds the reader short of its data and at its end. */
  lemma ShortPass(w: nat, a: nat, ta: Ty, c: nat, tc: Ty, x: Val, rd: Reader)
    requires WellFormed(Pair(a, ta, c, tc)) && a < c && rd.rest == [] && rd.now < rd.dataLen && !rd.exhausted
    ensures UnpackVersions(w, [c], Pair(a, ta, c, tc), PairVal(x, Null), rd).code == NoBufferSpace
  {
    var last := More(Compat(c, tc), End);
    assert WellFormeds(last) && WellFormed(Compat(c, tc)) && WellFormed(Compat(a, ta));
    assert Unpack(w, At(c), Compat(a, ta), x, rd) == Result(Ok, x, rd);
    assert Unpack(w, At(c), Compat(c, tc), Null, rd) == Result(NoBufferSpace, Null, rd);
    assert UnpackFields(w, At(c), last, MoreVals(Null, NoVals), rd)
      == Results(NoBufferSpace, MoreVals(Null, NoVals), rd);
    assert Unpack(w, At(c), Pair(a, ta, c, tc), PairVal(x, Null), rd).code == NoBufferSpace;
  }

  lemma LaterOfPair(a: nat, ta: Ty, c: nat, tc: Ty)
    requires a < c
    ensures UpTo(a, Versions(Pair(a, ta, c, tc))) == [a] && Later(a, Versions(Pair(a, ta, c, tc))) == [c]
  {
    PairVersions(a, ta, c, tc);
    var vs := [a, c];
    assert vs[1..] == [c];
    assert UpTo(a, vs[1..]) == [] && Later(a, vs[1..]) == [c];
  }

  lemma ShortBuffer(id: TypeId, a: nat, ta: Ty, c: nat, tc: Ty, o: Val, info: Info)
    requires IdOk(id) && PairOk(ta, tc) && a < c && Typed(Erase(a, Compat(a, ta)), o)
    requires Typed(Kept(a, ta), Rec(MoreVals(o, NoVals))) && InfoFits(id, Kept(a, ta), info)
    requires LengthsFit(WidthOf(info.widthCode), Kept(a, ta), Rec(MoreVals(o, NoVals)))
    requires var older, all := Kept(a, ta), Rec(MoreVals(o, NoVals));
             |Header(id, older, info)| + |Payload(WidthOf(info.widthCode), older, all)| < DataLen(info)
    ensures WellFormed(Pair(a, ta, c, tc))
    ensures var ty, older, all := Pair(a, ta, c, tc), Kept(a, ta), Rec(MoreVals(o, NoVals));
            var bytes := Header(id, older, info) + Payload(WidthOf(info.widthCode), older, all);
            Deserialize(id, ty, Default(ty), bytes).code == NoBufferSpace
  {
    var ty, older, all := Pair(a, ta, c, tc), Kept(a, ta), Rec(MoreVals(o, NoVals));
    var w := WidthOf(info.widthCode);
    PairErases(a, ta, c, tc, o);
    EmbedInverse(a, w, ty, all);
    var v := PairOf(a, ta, o);
    var head, body := Header(id, older, info), Payload(w, older, all);
    DeserializeHeader(id, older, ty, Default(ty), info, body);
    LaterOfPair(a, ta, c, tc);
    OlderPassesFirst(a, ty);
    ErasePack(a, w, Base, ty, v);
    UpToThenLater(a, Versions(ty));
    ErasePackVersions(a, w, [a], ty, v);
    var base, shared := Pack(w, Base, ty, v), PackVersions(w, [a], ty, v);
    assert body == base + shared && base + shared + [] == body;
    var end := SharedRead(a, w, ty, v, Reader(|head|, body, DataLen(info), false), base, shared, []);
    var x := Sent(Compat(a, ta), Embed(a, Compat(a, ta), o));
    assert Sent(ty, v) == PairVal(x, Null) by {
      assert SentFields(More(Compat(c, tc), End), MoreVals(Null, NoVals)) == MoreVals(Null, NoVals);
    }
    ShortPass(w, a, ta, c, tc, x, end);
  }

  /** With nothing after the written bytes, the newer reader of a struct that gains
      a member accepts the older buffer if and only if the sizer counted no more
      than was written. */
  lemma UnpaddedReadIff(id: TypeId, a: nat, ta: Ty, c: nat, tc: Ty, o: Val)
    requires IdOk(id) && PairOk(ta, tc) && a < c && Typed(Erase(a, Compat(a, ta)), o)
    requires Typed(Kept(a, ta), Rec(MoreVals(o, NoVals)))
    requires NeededSize(id, Kept(a, ta), Rec(MoreVals(o, NoVals))) < TWO64
    ensures WellFormed(Pair(a, ta, c, tc))
    ensures var ty, older, all := Pair(a, ta, c, tc), Kept(a, ta), Rec(MoreVals(o, NoVals));
            Deserialize(id, ty, Default(ty), Serialize(id, older, all)).code
            == if Shallow(older, all) then Ok else NoBufferSpace
  {
    var ty, older, all := Pair(a, ta, c, tc), Kept(a, ta), Rec(MoreVals(o, NoVals));
    PairErases(a, ta, c, tc, o);
    NeededSizeIsExact(id, older, all);
    if Shallow(older, all) {
      NewerReadsOlder(id, a, ty, all, [], []);
      assert Serialize(id, older, all) + ([] + []) == Serialize(id, older, all);
    } else {
      LastVersions(a, Erase(a, ta));
      InfoOk(id, older, all);
      WidthFits(id, older, all);
      SerializedParts(id, older, all, RuntimeInfo(id, older, all));
      ShortBuffer(id, a, ta, c, tc, o, RuntimeInfo(id, older, all));
    }
  }
}
