/** struct_pack's sizer, packer and unpacker as they run: accumulators, a writer
    that appends, and a reader whose cursor moves. */
module StructPackMachine {
  import opened Bits
  import opened Bytes
  import opened Varint
  import opened Zigzag
  import opened StructPackModel
  import FV = FastVarint
  import opened StructPackCodec
  import opened StructPackSize
  import opened StructPack

  // ----- Sizer

  lemma PlusAssociates(a: SizeInfo, b: SizeInfo, c: SizeInfo)
    ensures a.Plus(b).Plus(c) == a.Plus(b.Plus(c))
  {
  }

  /** calculate_one_size, with the element loop of containers. */
  method CalculateOneSize(ty: Ty, v: Val) returns (ret: SizeInfo)
    requires Typed(ty, v)
    ensures ret == SizeOne(ty, v)
    decreases ty, 0
  {
    ret := SizeInfo(0, 0, 0);
    match ty
    case Num(w) => ret := SizeInfo(w, 0, 0);
    case Var(kind) =>
      var size := CalculateVarintSize(if kind.signed then SintCode(kind.bits, v.n) else v.n);
      ret := SizeInfo(size, 0, 0);
    case Fast(kinds) => ret := SizeInfo(FV.SizeOf(kinds, v.ns), 0, 0);
    case Vec(elem) =>
      ret := SizeInfo(0, 1, |v.items|);
      for i := 0 to |v.items|
        invariant ret.Plus(SizeItems(elem, v.items[i..])) == SizeOne(ty, v)
      {
        var one := CalculateOneSize(elem, v.items[i]);
        assert v.items[i..][1..] == v.items[i + 1..];
        PlusAssociates(ret, one, SizeItems(elem, v.items[i + 1..]));
        ret := ret.Plus(one);
      }
    case Struct(fields) => ret := CalculatePayloadSize(fields, v.fields);
    case Opt(elem) =>
      ret := SizeInfo(1, 0, 0);
      if v.Just? {
        var one := CalculateOneSize(elem, v.v);
        ret := ret.Plus(one);
      }
    case Variant(alts) =>
      var one := CalculateOneSize(Nth(alts, v.index), v.v);
      ret := SizeInfo(1, 0, 0).Plus(one);
    case Compat(_, elem) =>
      ret := SizeInfo(1, 0, 0);
      if v.Just? {
        var one := CalculateOneSize(elem, v.v);
        ret := ret.Plus(one);
      }
  }

  method CalculatePayloadSize(fs: Fields, vs: Vals) returns (ret: SizeInfo)
    requires Typeds(fs, vs)
    ensures ret == SizeFields(fs, vs)
    decreases fs, 0
  {
    ret := SizeInfo(0, 0, 0);
    if fs.More? {
      var one := CalculateOneSize(fs.head, vs.head);
      var rest := CalculatePayloadSize(fs.tail, vs.tail);
      ret := one.Plus(rest);
    }
  }

  // ----- Packer

  lemma Assoc(a: seq<byte>, b: seq<byte>, c: seq<byte>)
    ensures a + b + c == a + (b + c)
  {
  }

  class Packer {
    var out: seq<byte>

    constructor ()
      ensures out == []
    {
      out := [];
    }

    method Write(bs: seq<byte>)
      modifies this
      ensures out == old(out) + bs
    {
      out := out + bs;
    }

    /** serialize_one. */
    method SerializeOne(w: nat, p: Pass, ty: Ty, v: Val)
      requires Typed(ty, v)
      modifies this
      ensures out == old(out) + Pack(w, p, ty, v)
      decreases ty, 0
    {
      match ty
      case Num(width) =>
        if p.Base? {
          Write(LittleEndian(v.n, width));
        }
      case Var(kind) =>
        if p.Base? {
          WriteVarint(kind, v.n);
        }
      case Fast(kinds) =>
        if p.Base? {
          var bs := FV.SerializeFastVarint(kinds, v.ns);
          Write(bs);
        }
      case Vec(elem) => SerializeVec(w, p, elem, v.items);
      case Struct(fields) => SerializeMany(w, p, fields, v.fields);
      case Opt(elem) =>
        if p.Base? {
          assert Pack(w, p, ty, v) == if v.Null? then [0] else [1] + Pack(w, Base, elem, v.v);
          SerializePresent(w, elem, v);
        } else if v.Just? {
          assert Pack(w, p, ty, v) == Pack(w, p, elem, v.v);
          SerializeOne(w, p, elem, v.v);
        }
      case Variant(alts) =>
        if p.Base? {
          SerializeIndexed(w, v.index % 256, Nth(alts, v.index), v.v);
        } else {
          assert Pack(w, p, ty, v) == Pack(w, p, Nth(alts, v.index), v.v);
          SerializeOne(w, p, Nth(alts, v.index), v.v);
        }
      case Compat(version, elem) =>
        if p == At(version) {
          SerializePresent(w, elem, v);
        }
    }

    method WriteVarint(kind: VarKind, n: int)
      requires if kind.signed then InRange(kind.bits, n) else n >= 0
      modifies this
      ensures out == old(out) + VarBytes(kind, n)
    {
      var bs := SerializeVarint(if kind.signed then SintCode(kind.bits, n) else n);
      Write(bs);
    }

    /** A presence byte and, if it is set, the value. */
    method SerializePresent(w: nat, elem: Ty, v: Val)
      requires v.Null? || (v.Just? && Typed(elem, v.v))
      modifies this
      ensures out == old(out) + if v.Null? then [0] else [1] + Pack(w, Base, elem, v.v)
      decreases elem, 2
    {
      if v.Null? {
        Write([0]);
      } else {
        Write([1]);
        SerializeOne(w, Base, elem, v.v);
        Assoc(old(out), [1], Pack(w, Base, elem, v.v));
      }
    }

    /** The index byte of a variant and its value. */
    method SerializeIndexed(w: nat, index: byte, alt: Ty, v: Val)
      requires Typed(alt, v)
      modifies this
      ensures out == old(out) + ([index] + Pack(w, Base, alt, v))
      decreases alt, 1
    {
      Write([index]);
      SerializeOne(w, Base, alt, v);
      Assoc(old(out), [index], Pack(w, Base, alt, v));
    }

    /** A container: its length in the base pass, then its elements. */
    method SerializeVec(w: nat, p: Pass, elem: Ty, items: seq<Val>)
      requires forall i :: 0 <= i < |items| ==> Typed(elem, items[i])
      modifies this
      ensures out == old(out) + ((if p.Base? then LittleEndian(|items|, w) else []) + PackItems(w, p, elem, items))
      decreases elem, 2
    {
      if p.Base? {
        Write(LittleEndian(|items|, w));
      }
      SerializeItems(w, p, elem, items);
      Assoc(old(out), LittleEndian(|items|, w), PackItems(w, p, elem, items));
    }

    /** The element loop of a container. */
    method SerializeItems(w: nat, p: Pass, elem: Ty, items: seq<Val>)
      requires forall i :: 0 <= i < |items| ==> Typed(elem, items[i])
      modifies this
      ensures out == old(out) + PackItems(w, p, elem, items)
      decreases elem, 1
    {
      for i := 0 to |items|
        invariant out + PackItems(w, p, elem, items[i..]) == old(out) + PackItems(w, p, elem, items)
      {
        assert items[i..][1..] == items[i + 1..];
        Assoc(out, Pack(w, p, elem, items[i]), PackItems(w, p, elem, items[i + 1..]));
        SerializeOne(w, p, elem, items[i]);
      }
    }

    method SerializeMany(w: nat, p: Pass, fs: Fields, vs: Vals)
      requires Typeds(fs, vs)
      modifies this
      ensures out == old(out) + PackFields(w, p, fs, vs)
      decreases fs, 0
    {
      if fs.More? {
        SerializeOne(w, p, fs.head, vs.head);
        SerializeMany(w, p, fs.tail, vs.tail);
      }
    }

    /** serialize: metainfo, the base pass, one pass a version. */
    method Serialize(id: TypeId, ty: Ty, v: Val)
      requires Typed(ty, v)
      modifies this
      ensures out == old(out) + StructPack.Serialize(id, ty, v)
    {
      var info := RuntimeInfo(id, ty, v);
      var w := WidthOf(info.widthCode);
      var head := Header(id, ty, info);
      Write(head);
      SerializeOne(w, Base, ty, v);
      SerializePasses(w, Versions(ty), ty, v);
      Assoc(old(out) + head, Pack(w, Base, ty, v), PackVersions(w, Versions(ty), ty, v));
      Assoc(old(out), head, Payload(w, ty, v));
    }

    method SerializePasses(w: nat, vs: seq<nat>, ty: Ty, v: Val)
      requires Typed(ty, v)
      modifies this
      ensures out == old(out) + PackVersions(w, vs, ty, v)
    {
      for i := 0 to |vs|
        invariant out + PackVersions(w, vs[i..], ty, v) == old(out) + PackVersions(w, vs, ty, v)
      {
        assert vs[i..][1..] == vs[i + 1..];
        Assoc(out, Pack(w, At(vs[i]), ty, v), PackVersions(w, vs[i + 1..], ty, v));
        SerializeOne(w, At(vs[i]), ty, v);
      }
    }
  }

  // ----- Unpacker

  class Unpacker {
    const buf: seq<byte>
    var now: nat
    var dataLen: nat
    var exhausted: bool

    ghost predicate Valid()
      reads this
    {
      now <= |buf|
    }

    ghost function State(): Reader
      requires Valid()
      reads this
    {
      Reader(now, buf[now..], dataLen, exhausted)
    }

    ghost predicate Fresh()
      reads this
    {
      now == 0 && dataLen == 0 && !exhausted
    }

    constructor (bs: seq<byte>)
      ensures Valid() && buf == bs && Fresh()
    {
      buf, now, dataLen, exhausted := bs, 0, 0, false;
    }

    /** memory_reader::read. */
    method Read(n: nat) returns (ok: bool, bs: seq<byte>)
      requires Valid()
      modifies this`now
      ensures Valid() && ok == (n <= |old(State()).rest|)
      ensures ok ==> bs == old(State()).rest[..n] && State() == old(State()).Skip(n)
      ensures !ok ==> State() == old(State())
    {
      ok, bs := false, [];
      if |buf| - now >= n {
        ok, bs := true, buf[now..now + n];
        now := now + n;
      }
    }

    method ReadVarint(kind: VarKind, target: Val) returns (code: Errc, val: Val)
      requires Valid() && 0 < kind.bits <= 64
      modifies this`now
      ensures Valid() && Result(code, val, State()) == ReadVar(kind, target, old(State()))
    {
      DecodeUsed(buf[now..], 0);
      var d := DeserializeVarint(buf, now);
      now := now + d.used;
      match d
      case Value(v, _) => return Ok, Int(if kind.signed then SintValue(kind.bits, v) else v % Pow2(kind.bits));
      case Truncated(_) => return NoBufferSpace, target;
      case TooLong(_) => return InvalidBuffer, target;
    }

    method ReadGroup(kinds: seq<FV.Kind>, target: Val) returns (code: Errc, val: Val)
      requires Valid()
      modifies this`now
      ensures Valid() && Result(code, val, State()) == ReadFast(kinds, target, old(State()))
    {
      if !target.Nums? || |target.ns| != |kinds| {
        return Ok, target;
      }
      FV.GroupLeavesSuffix(kinds, target.ns, buf[now..]);
      var r := FV.DeserializeFastVarint(kinds, target.ns, buf[now..]);
      now := |buf| - |r.rest|;
      return r.code, Nums(r.vs);
    }

    /** deserialize_one. */
    method DeserializeOne(w: nat, p: Pass, ty: Ty, target: Val) returns (code: Errc, val: Val)
      requires Valid() && WellFormed(ty)
      modifies this`now, this`exhausted
      ensures Valid() && Result(code, val, State()) == Unpack(w, p, ty, target, old(State()))
      decreases ty, 1
    {
      code, val := Ok, target;
      match ty
      case Num(width) =>
        if p.Base? {
          var ok, bs := Read(width);
          if !ok { return NoBufferSpace, target; }
          val := Int(FromLittleEndian(bs));
        }
      case Var(kind) =>
        if p.Base? {
          code, val := ReadVarint(kind, target);
        }
      case Fast(kinds) =>
        if p.Base? {
          code, val := ReadGroup(kinds, target);
        }
      case Vec(elem) =>
        if p.Base? {
          code, val := DeserializeVec(w, ty, target);
        } else if target.List? {
          var items;
          code, items := DeserializeEach(w, p, elem, target.items);
          val := List(items);
        }
      case Struct(fields) =>
        if target.Rec? {
          var vals;
          code, vals := DeserializeMany(w, p, fields, target.fields);
          val := Rec(vals);
        }
      case Opt(elem) =>
        if p.Base? {
          code, val := DeserializePresent(w, elem, target);
        } else if target.Just? {
          var inner, v := DeserializeOne(w, p, elem, target.v);
          val := Just(v);
        }
      case Variant(alts) =>
        if p.Base? {
          var ok, bs := Read(1);
          if !ok { return NoBufferSpace, target; }
          if bs[0] >= Length(alts) { return InvalidBuffer, target; }
          WellFormedNth(alts, bs[0]);
          var alt := Nth(alts, bs[0]);
          var inner, v := DeserializeOne(w, Base, alt, Default(alt));
          val := Alt(bs[0], v);
        } else if target.Alt? && target.index < Length(alts) {
          WellFormedNth(alts, target.index);
          var inner, v := DeserializeOne(w, p, Nth(alts, target.index), target.v);
          val := Alt(target.index, v);
        }
      case Compat(version, elem) =>
        if p == At(version) {
          if now >= dataLen {
            exhausted := true;
            return NoBufferSpace, target;
          }
          code, val := DeserializePresent(w, elem, target);
        }
    }

    method DeserializePresent(w: nat, elem: Ty, target: Val) returns (code: Errc, val: Val)
      requires Valid() && WellFormed(elem)
      modifies this`now, this`exhausted
      ensures Valid() && Result(code, val, State()) == UnpackPresent(w, elem, target, old(State()))
      decreases elem, 2
    {
      var ok, bs := Read(1);
      if !ok { return NoBufferSpace, target; }
      if bs[0] == 0 { return Ok, target; }
      var inner, v := DeserializeOne(w, Base, elem, Default(elem));
      return Ok, Just(v);
    }

    /** A container: the length, then one copy or a loop that appends elements. */
    method DeserializeVec(w: nat, ty: Ty, target: Val) returns (code: Errc, val: Val)
      requires Valid() && ty.Vec? && WellFormed(ty)
      modifies this`now, this`exhausted
      ensures Valid() && Result(code, val, State()) == UnpackVec(w, ty, target, old(State()))
      decreases ty, 0
    {
      var elem := ty.elem;
      var ok, bs := Read(w);
      if !ok { return NoBufferSpace, target; }
      var n := FromLittleEndian(bs);
      if n == 0 { return Ok, target; }
      if elem.Num? {
        ghost var rd1 := State();
        var fits, body := Read(n * elem.w);
        if !fits { return NoBufferSpace, target; }
        CopyPrefix(elem.w, n, rd1.rest);
        return Ok, List(CopyNums(elem.w, n, body));
      }
      var items;
      code, items := DeserializeNew(w, elem, n);
      val := List(items);
    }

    method DeserializeNew(w: nat, elem: Ty, n: nat) returns (code: Errc, items: seq<Val>)
      requires Valid() && WellFormed(elem)
      modifies this`now, this`exhausted
      ensures Valid() && Items(code, items, State()) == UnpackNew(w, elem, n, old(State()))
      decreases elem, 2
    {
      items := [];
      for i := 0 to n
        invariant Valid()
        invariant UnpackNew(w, elem, n, old(State())) == Prepended(items, UnpackNew(w, elem, n - i, State()))
      {
        NewStep(w, elem, items, n - i, State());
        var v;
        code, v := DeserializeOne(w, Base, elem, Default(elem));
        items := items + [v];
        if code != Ok { return; }
      }
      code := Ok;
    }

    method DeserializeEach(w: nat, p: Pass, elem: Ty, targets: seq<Val>) returns (code: Errc, items: seq<Val>)
      requires Valid() && WellFormed(elem)
      modifies this`now, this`exhausted
      ensures Valid() && Items(code, items, State()) == UnpackEach(w, p, elem, targets, old(State()))
      decreases elem, 2
    {
      items := targets;
      for i := 0 to |targets|
        invariant Valid() && |items| == |targets| && items[i..] == targets[i..]
        invariant UnpackEach(w, p, elem, targets, old(State()))
                == Prepended(items[..i], UnpackEach(w, p, elem, targets[i..], State()))
      {
        EachStep(w, p, elem, items, targets, i, old(State()), State());
        var v;
        code, v := DeserializeOne(w, p, elem, items[i]);
        items := items[i := v];
        if code != Ok { return; }
      }
      code := Ok;
    }

    method DeserializeMany(w: nat, p: Pass, fs: Fields, targets: Vals) returns (code: Errc, vals: Vals)
      requires Valid() && WellFormeds(fs)
      modifies this`now, this`exhausted
      ensures Valid() && Results(code, vals, State()) == UnpackFields(w, p, fs, targets, old(State()))
      decreases fs, 0
    {
      if fs.End? || targets.NoVals? { return Ok, targets; }
      var v;
      code, v := DeserializeOne(w, p, fs.head, targets.head);
      if code != Ok { return code, MoreVals(v, targets.tail); }
      var rest;
      code, rest := DeserializeMany(w, p, fs.tail, targets.tail);
      vals := MoreVals(v, rest);
    }

    /** deserialize_metainfo. */
    method ReadMetainfo(id: TypeId) returns (code: Errc, widthCode: nat)
      requires Valid() && Fresh()
      modifies this`now, this`dataLen
      ensures Valid() && code == ReadHead(id, buf).code && widthCode == ReadHead(id, buf).widthCode
      ensures State() == HeadReader(id, buf)
    {
      var ok, bs := Read(4);
      if !ok { return NoBufferSpace, 0; }
      var types := FromLittleEndian(bs);
      if types / 2 != id.hash / 2 { return InvalidBuffer, 0; }
      if types % 2 == 0 { return Ok, 0; }
      ok, bs := Read(1);
      if !ok { return NoBufferSpace, 0; }
      assert bs[0] == buf[4] && now == 5;
      code, widthCode := ReadAnnounced(id, bs[0]);
    }

    /** The data length and the type literal that the metainfo byte announces. */
    method ReadAnnounced(id: TypeId, metainfo: byte) returns (code: Errc, widthCode: nat)
      requires Valid() && dataLen == 0
      modifies this`now, this`dataLen
      ensures var h := ReadMeta(id, metainfo, old(State()).rest);
              && Valid() && code == h.code && widthCode == h.widthCode
              && State() == Reader(|buf| - |h.rest|, h.rest, h.dataLen, exhausted)
    {
      ghost var rest := State().rest;
      var n := LenBytes(metainfo % 4);
      var ok, bs := Read(n);
      if !ok { return NoBufferSpace, 0; }
      var len := FromLittleEndian(bs);
      assert State().rest == rest[n..];
      if metainfo / 4 % 2 == 1 {
        ok, bs := Read(|id.literal|);
        if !ok { return NoBufferSpace, 0; }
        assert bs == rest[n..n + |id.literal|] && State().rest == rest[n + |id.literal|..];
        if bs != id.literal { return HashConflict, 0; }
      }
      dataLen := len;
      return Ok, metainfo / 8 % 4;
    }

    /** deserialize_compatibles. */
    method DeserializePasses(w: nat, vs: seq<nat>, ty: Ty, target: Val) returns (code: Errc, val: Val)
      requires Valid() && WellFormed(ty)
      modifies this`now, this`exhausted
      ensures Valid() && Result(code, val, State()) == UnpackVersions(w, vs, ty, target, old(State()))
    {
      val := target;
      for i := 0 to |vs|
        invariant Valid()
        invariant UnpackVersions(w, vs, ty, target, old(State())) == UnpackVersions(w, vs[i..], ty, val, State())
      {
        assert vs[i..][1..] == vs[i + 1..];
        code, val := DeserializeOne(w, At(vs[i]), ty, val);
        if code != Ok {
          code := if exhausted then Ok else code;
          return;
        }
      }
      code := Ok;
    }

    /** deserialize. */
    method Deserialize(id: TypeId, ty: Ty, target: Val) returns (code: Errc, val: Val)
      requires Valid() && Fresh() && WellFormed(ty)
      modifies this
      ensures Valid() && Result(code, val, State()) == StructPack.Deserialize(id, ty, target, buf)
    {
      var widthCode;
      code, widthCode := ReadMetainfo(id);
      if code != Ok { return code, target; }
      var w := WidthOf(widthCode);
      code, val := DeserializeOne(w, Base, ty, target);
      if code == Ok {
        code, val := DeserializePasses(w, Versions(ty), ty, val);
      }
    }
  }

  ghost function HeadReader(id: TypeId, bs: seq<byte>): Reader {
    var h := ReadHead(id, bs);
    Reader(|bs| - |h.rest|, h.rest, h.dataLen, false)
  }

  /** One element more of a version pass over a container. */
  lemma EachStep(w: nat, p: Pass, elem: Ty, items: seq<Val>, targets: seq<Val>, i: nat, start: Reader, rd: Reader)
    requires WellFormed(elem) && i < |items| == |targets| && items[i..] == targets[i..]
    requires UnpackEach(w, p, elem, targets, start) == Prepended(items[..i], UnpackEach(w, p, elem, targets[i..], rd))
    ensures var r := Unpack(w, p, elem, items[i], rd);
            var next := items[i := r.val];
            && next[i + 1..] == targets[i + 1..]
            && UnpackEach(w, p, elem, targets, start)
               == if r.code != Ok then Items(r.code, next, r.rd)
                  else Prepended(next[..i + 1], UnpackEach(w, p, elem, targets[i + 1..], r.rd))
  {
    var r := Unpack(w, p, elem, items[i], rd);
    var rest := UnpackEach(w, p, elem, targets[i + 1..], r.rd).items;
    SlicesOfUpdate(items, targets, i, r.val, rest);
  }

  lemma SlicesOfUpdate(items: seq<Val>, targets: seq<Val>, i: nat, v: Val, rest: seq<Val>)
    requires i < |items| == |targets| && items[i..] == targets[i..]
    ensures items[i] == targets[i..][0] && targets[i..][1..] == targets[i + 1..]
    ensures items[i := v][i + 1..] == targets[i + 1..]
    ensures items[i := v] == items[..i] + ([v] + targets[i..][1..])
    ensures items[i := v][..i + 1] + rest == items[..i] + ([v] + rest)
  {
    assert items[i] == items[i..][0] && items[i + 1..] == items[i..][1..];
    assert targets[i..][1..] == targets[i + 1..];
    assert items[i := v][..i + 1] == items[..i] + [v];
  }

  lemma NewStep(w: nat, elem: Ty, items: seq<Val>, n: nat, rd: Reader)
    requires WellFormed(elem) && n > 0
    ensures var r := Unpack(w, Base, elem, Default(elem), rd);
            Prepended(items, UnpackNew(w, elem, n, rd))
            == if r.code != Ok then Items(r.code, items + [r.val], r.rd)
               else Prepended(items + [r.val], UnpackNew(w, elem, n - 1, r.rd))
  {
    var r := Unpack(w, Base, elem, Default(elem), rd);
    var rest := UnpackNew(w, elem, n - 1, r.rd).items;
    assert items + ([r.val] + rest) == items + [r.val] + rest;
  }

  function Prepended(items: seq<Val>, r: Items): Items { Items(r.code, items + r.items, r.rd) }

  lemma {:induction false} CopyPrefix(width: nat, n: nat, bs: seq<byte>)
    requires n * width <= |bs|
    ensures CopyNums(width, n, bs[..n * width]) == CopyNums(width, n, bs)
  {
    if n > 0 {
      assert n * width == width + (n - 1) * width;
      assert bs[..n * width][..width] == bs[..width];
      assert bs[..n * width][width..] == bs[width..][..(n - 1) * width];
      CopyPrefix(width, n - 1, bs[width..]);
    }
  }
}
