/** struct_pack's payload: packer and unpacker of one value, pass by pass.

    The packer walks the value once for everything but compatible members, then
    once for each version number, emitting only the compatible members of that
    version.  The unpacker makes the same passes over the target object. */
module StructPackCodec {
  import opened Bits
  import opened Bytes
  import opened Varint
  import opened Zigzag
  import opened StructPackModel
  import FV = FastVarint

  datatype Pass = Base | At(version: nat)

  // ----- Packing

  function VarBytes(kind: VarKind, n: int): seq<byte>
    requires if kind.signed then InRange(kind.bits, n) else n >= 0
  {
    if kind.signed then SintBytes(kind.bits, n) else Encoded(n)
  }

  /** serialize_one with w-byte container lengths. */
  function Pack(w: nat, p: Pass, ty: Ty, v: Val): seq<byte>
    requires Typed(ty, v)
    decreases ty, 0
  {
    match ty
    case Num(width) => if p.Base? then LittleEndian(v.n, width) else []
    case Var(kind) => if p.Base? then VarBytes(kind, v.n) else []
    case Fast(kinds) => if p.Base? then FV.Serialized(kinds, v.ns) else []
    case Vec(elem) =>
      (if p.Base? then LittleEndian(|v.items|, w) else []) + PackItems(w, p, elem, v.items)
    case Struct(fields) => PackFields(w, p, fields, v.fields)
    case Opt(elem) =>
      (if p.Base? then [if v.Just? then 1 else 0] else []) + (if v.Just? then Pack(w, p, elem, v.v) else [])
    case Variant(alts) =>
      (if p.Base? then [v.index % 256] else []) + Pack(w, p, Nth(alts, v.index), v.v)
    case Compat(version, elem) =>
      if p != At(version) then []
      else if v.Null? then [0]
      else [1] + Pack(w, Base, elem, v.v)
  }

  function PackItems(w: nat, p: Pass, elem: Ty, items: seq<Val>): seq<byte>
    requires forall i :: 0 <= i < |items| ==> Typed(elem, items[i])
    decreases elem, 1 + |items|
  {
    if items == [] then [] else Pack(w, p, elem, items[0]) + PackItems(w, p, elem, items[1..])
  }

  function PackFields(w: nat, p: Pass, fs: Fields, vs: Vals): seq<byte>
    requires Typeds(fs, vs)
    decreases fs, 0
  {
    match fs
    case End => []
    case More(head, tail) => Pack(w, p, head, vs.head) + PackFields(w, p, tail, vs.tail)
  }

  // ----- Unpacking

  /** The reader: bytes consumed, bytes left, the end of the data as the header
      gives it, and the mark that compatible members ran out. */
  datatype Reader = Reader(now: nat, rest: seq<byte>, dataLen: nat, exhausted: bool)
  {
    function Skip(n: nat): Reader
      requires n <= |rest|
    {
      this.(now := now + n, rest := rest[n..])
    }
  }

  /** What deserialize_one leaves behind: code, target object and reader. */
  datatype Result = Result(code: Errc, val: Val, rd: Reader)
  datatype Results = Results(code: Errc, vals: Vals, rd: Reader)
  datatype Items = Items(code: Errc, items: seq<Val>, rd: Reader)

  function ReadNum(width: nat, target: Val, rd: Reader): Result {
    if |rd.rest| < width then Result(NoBufferSpace, target, rd)
    else Result(Ok, Int(FromLittleEndian(rd.rest[..width])), rd.Skip(width))
  }

  lemma DecodeUsed(bs: seq<byte>, k: nat)
    requires k <= |bs|
    ensures DecodeFrom(bs, k).used <= |bs|
    decreases |bs| - k
  {
  }

  function ReadVar(kind: VarKind, target: Val, rd: Reader): Result
    requires 0 < kind.bits <= 64
  {
    DecodeUsed(rd.rest, 0);
    var d := Varint.Decode(rd.rest);
    match d
    case Value(v, used) =>
      Result(Ok, Int(if kind.signed then SintValue(kind.bits, v) else v % Pow2(kind.bits)), rd.Skip(used))
    case Truncated(used) => Result(NoBufferSpace, target, rd.Skip(used))
    case TooLong(used) => Result(InvalidBuffer, target, rd.Skip(used))
  }

  /** A fast varint group. */
  function ReadFast(kinds: seq<FV.Kind>, target: Val, rd: Reader): Result {
    if !target.Nums? || |target.ns| != |kinds| then Result(Ok, target, rd)
    else
      FV.GroupLeavesSuffix(kinds, target.ns, rd.rest);
      var r := FV.Deserialized(kinds, target.ns, rd.rest);
      Result(r.code, Nums(r.vs), rd.Skip(|rd.rest| - |r.rest|))
  }

  /** The elements of a trivially copyable container, copied in one go. */
  function CopyNums(width: nat, n: nat, bs: seq<byte>): seq<Val>
    requires n * width <= |bs|
  {
    if n == 0 then [] else
      assert n * width == width + (n - 1) * width;
      [Int(FromLittleEndian(bs[..width]))] + CopyNums(width, n - 1, bs[width..])
  }

  /** deserialize_one.  Faithful in what it ignores: the code of the value inside
      an optional, a variant or a compatible member is dropped, and an empty
      container, an absent optional and the compatible members of other passes
      leave the target untouched. */
  function Unpack(w: nat, p: Pass, ty: Ty, target: Val, rd: Reader): Result
    requires WellFormed(ty)
    decreases ty, 1
  {
    match ty
    case Num(width) => if p.Base? then ReadNum(width, target, rd) else Result(Ok, target, rd)
    case Var(kind) => if p.Base? then ReadVar(kind, target, rd) else Result(Ok, target, rd)
    case Fast(kinds) => if p.Base? then ReadFast(kinds, target, rd) else Result(Ok, target, rd)
    case Vec(elem) =>
      if p.Base? then UnpackVec(w, ty, target, rd)
      else if !target.List? then Result(Ok, target, rd)
      else
        var r := UnpackEach(w, p, elem, target.items, rd);
        Result(r.code, List(r.items), r.rd)
    case Struct(fields) =>
      if !target.Rec? then Result(Ok, target, rd)
      else
        var r := UnpackFields(w, p, fields, target.fields, rd);
        Result(r.code, Rec(r.vals), r.rd)
    case Opt(elem) =>
      if p.Base? then UnpackPresent(w, elem, target, rd)
      else if !target.Just? then Result(Ok, target, rd)
      else
        var r := Unpack(w, p, elem, target.v, rd);
        Result(Ok, Just(r.val), r.rd)
    case Variant(alts) =>
      if p.Base? then
        if |rd.rest| < 1 then Result(NoBufferSpace, target, rd)
        else if rd.rest[0] >= Length(alts) then Result(InvalidBuffer, target, rd.Skip(1))
        else
          WellFormedNth(alts, rd.rest[0]);
          var alt := Nth(alts, rd.rest[0]);
          var r := Unpack(w, Base, alt, Default(alt), rd.Skip(1));
          Result(Ok, Alt(rd.rest[0], r.val), r.rd)
      else if !target.Alt? || target.index >= Length(alts) then Result(Ok, target, rd)
      else
        WellFormedNth(alts, target.index);
        var r := Unpack(w, p, Nth(alts, target.index), target.v, rd);
        Result(Ok, Alt(target.index, r.val), r.rd)
    case Compat(version, elem) =>
      if p != At(version) then Result(Ok, target, rd)
      else if rd.now >= rd.dataLen then Result(NoBufferSpace, target, rd.(exhausted := true))
      else UnpackPresent(w, elem, target, rd)
  }

  /** A presence byte and, if it is set, a value. */
  function UnpackPresent(w: nat, elem: Ty, target: Val, rd: Reader): Result
    requires WellFormed(elem)
    decreases elem, 2
  {
    if |rd.rest| < 1 then Result(NoBufferSpace, target, rd)
    else if rd.rest[0] == 0 then Result(Ok, target, rd.Skip(1))
    else
      var r := Unpack(w, Base, elem, Default(elem), rd.Skip(1));
      Result(Ok, Just(r.val), r.rd)
  }

  /** A container: its length, then its elements. */
  function UnpackVec(w: nat, ty: Ty, target: Val, rd: Reader): Result
    requires ty.Vec? && WellFormed(ty)
    decreases ty, 0
  {
    if |rd.rest| < w then Result(NoBufferSpace, target, rd)
    else
      var elem := ty.elem;
      var n := FromLittleEndian(rd.rest[..w]);
      var rd1 := rd.Skip(w);
      if n == 0 then Result(Ok, target, rd1)
      else if elem.Num? then
        if |rd1.rest| < n * elem.w then Result(NoBufferSpace, target, rd1)
        else Result(Ok, List(CopyNums(elem.w, n, rd1.rest)), rd1.Skip(n * elem.w))
      else
        var r := UnpackNew(w, elem, n, rd1);
        Result(r.code, List(r.items), r.rd)
  }

  /** n elements appended one by one, each unpacked into a fresh default. */
  function UnpackNew(w: nat, elem: Ty, n: nat, rd: Reader): Items
    requires WellFormed(elem)
    decreases elem, 2 + n
  {
    if n == 0 then Items(Ok, [], rd)
    else
      var r := Unpack(w, Base, elem, Default(elem), rd);
      if r.code != Ok then Items(r.code, [r.val], r.rd)
      else
        var rest := UnpackNew(w, elem, n - 1, r.rd);
        Items(rest.code, [r.val] + rest.items, rest.rd)
  }

  /** A version pass over the elements that are already there. */
  function UnpackEach(w: nat, p: Pass, elem: Ty, items: seq<Val>, rd: Reader): Items
    requires WellFormed(elem)
    decreases elem, 2 + |items|
  {
    if items == [] then Items(Ok, [], rd)
    else
      var r := Unpack(w, p, elem, items[0], rd);
      if r.code != Ok then Items(r.code, [r.val] + items[1..], r.rd)
      else
        var rest := UnpackEach(w, p, elem, items[1..], r.rd);
        Items(rest.code, [r.val] + rest.items, rest.rd)
  }

  function UnpackFields(w: nat, p: Pass, fs: Fields, targets: Vals, rd: Reader): Results
    requires WellFormeds(fs)
    decreases fs, 0
  {
    match fs
    case End => Results(Ok, targets, rd)
    case More(head, tail) =>
      if targets.NoVals? then Results(Ok, targets, rd)
      else
        var r := Unpack(w, p, head, targets.head, rd);
        if r.code != Ok then Results(r.code, MoreVals(r.val, targets.tail), r.rd)
        else
          var rest := UnpackFields(w, p, tail, targets.tail, r.rd);
          Results(rest.code, MoreVals(r.val, rest.vals), rest.rd)
  }

  lemma {:induction false} WellFormedNth(fs: Fields, i: nat)
    requires WellFormeds(fs) && i < Length(fs)
    ensures WellFormed(Nth(fs, i))
  {
    if i > 0 {
      WellFormedNth(fs.tail, i - 1);
    }
  }

  // ----- Round trip of one pass

  /** The target before and after the pass that unpacks what the same pass packed. */
  function Before(p: Pass, ty: Ty, v: Val): Val
    requires Typed(ty, v)
  {
    if p.Base? then Default(ty) else Keep(p.version - 1, ty, v)
  }

  function After(p: Pass, ty: Ty, v: Val): Val
    requires Typed(ty, v)
  {
    if p.Base? then Keep(-1, ty, v) else Keep(p.version, ty, v)
  }

  function BeforeFields(p: Pass, fs: Fields, vs: Vals): Vals
    requires Typeds(fs, vs)
  {
    if p.Base? then Defaults(fs) else Keeps(p.version - 1, fs, vs)
  }

  function AfterFields(p: Pass, fs: Fields, vs: Vals): Vals
    requires Typeds(fs, vs)
  {
    if p.Base? then Keeps(-1, fs, vs) else Keeps(p.version, fs, vs)
  }

  /** The reader stands at the packed bytes, and the header's data length covers them. */
  predicate Reads(p: Pass, rd: Reader, packed: seq<byte>, tail: seq<byte>) {
    rd.rest == packed + tail && (p.At? ==> rd.now + |packed| <= rd.dataLen)
  }

  function Past(rd: Reader, packed: seq<byte>, tail: seq<byte>): Reader {
    rd.(now := rd.now + |packed|, rest := tail)
  }

  lemma SplitReads(p: Pass, rd: Reader, a: seq<byte>, b: seq<byte>, tail: seq<byte>)
    requires Reads(p, rd, a + b, tail)
    ensures Reads(p, rd, a, b + tail) && Reads(p, Past(rd, a, b + tail), b, tail)
    ensures Past(Past(rd, a, b + tail), b, tail) == Past(rd, a + b, tail)
    ensures |a| <= |rd.rest| && rd.rest[..|a|] == a && rd.Skip(|a|) == Past(rd, a, b + tail)
  {
    assert a + b + tail == a + (b + tail);
  }

  lemma NumRoundTrip(width: nat, n: int, target: Val, rd: Reader, tail: seq<byte>)
    requires 0 <= n < Pow256(width) && rd.rest == LittleEndian(n, width) + tail
    ensures ReadNum(width, target, rd) == Result(Ok, Int(n), Past(rd, LittleEndian(n, width), tail))
  {
    LittleEndianRoundTrip(n, width);
    assert rd.rest[..width] == LittleEndian(n, width) && rd.rest[width..] == tail;
  }

  predicate InVarRange(kind: VarKind, n: int) {
    0 < kind.bits <= 64 &&
    if kind.signed then InRange(kind.bits, n) else 0 <= n < Pow2(kind.bits)
  }

  lemma VarRoundTrip(kind: VarKind, n: int, target: Val, rd: Reader, tail: seq<byte>)
    requires InVarRange(kind, n) && rd.rest == VarBytes(kind, n) + tail
    ensures ReadVar(kind, target, rd) == Result(Ok, Int(n), Past(rd, VarBytes(kind, n), tail))
  {
    var v := VarCode(kind, n);
    VarDecodes(kind, n, tail);
    ReadVarAt(kind, target, rd, VarBytes(kind, n), tail, v);
  }

  /** The number a varint member is sent as. */
  function VarCode(kind: VarKind, n: int): nat
    requires InVarRange(kind, n)
  {
    if kind.signed then SintCode(kind.bits, n) else n
  }

  lemma VarDecodes(kind: VarKind, n: int, tail: seq<byte>)
    requires InVarRange(kind, n)
    ensures VarCode(kind, n) < TWO64 && VarBytes(kind, n) == Encoded(VarCode(kind, n))
    ensures Varint.Decode(VarBytes(kind, n) + tail) == Value(VarCode(kind, n), |VarBytes(kind, n)|)
    ensures n == if kind.signed then SintValue(kind.bits, VarCode(kind, n)) else VarCode(kind, n) % Pow2(kind.bits)
  {
    if kind.signed {
      SintCodeFits(kind.bits, n);
      SintRoundTrip(kind.bits, n, tail);
    } else {
      WordBound(kind.bits);
      DecodeEncoded(n, tail);
      DivModUnique(n, Pow2(kind.bits), 0, n);
    }
  }

  lemma ReadVarAt(kind: VarKind, target: Val, rd: Reader, packed: seq<byte>, tail: seq<byte>, v: nat)
    requires 0 < kind.bits <= 64
    requires rd.rest == packed + tail && Varint.Decode(rd.rest) == Value(v, |packed|)
    ensures ReadVar(kind, target, rd)
         == Result(Ok, Int(if kind.signed then SintValue(kind.bits, v) else v % Pow2(kind.bits)),
           Past(rd, packed, tail))
  {
    assert rd.rest[|packed|..] == tail;
  }

  lemma {:induction false} KeepNoCompat(k: int, ty: Ty, v: Val)
    requires Typed(ty, v) && NoCompat(ty)
    ensures Keep(k, ty, v) == v
    decreases ty, 0
  {
    match ty
    case Vec(elem) => KeepItemsNoCompat(k, elem, v.items);
    case Struct(fields) => KeepsNoCompat(k, fields, v.fields);
    case Opt(elem) =>
      if v.Just? {
        KeepNoCompat(k, elem, v.v);
      }
    case Variant(alts) =>
      NoCompatNth(alts, v.index);
      KeepNoCompat(k, Nth(alts, v.index), v.v);
    case _ =>
  }

  lemma {:induction false} KeepItemsNoCompat(k: int, elem: Ty, items: seq<Val>)
    requires NoCompat(elem) && forall i :: 0 <= i < |items| ==> Typed(elem, items[i])
    ensures KeepItems(k, elem, items) == items
    decreases elem, 1 + |items|
  {
    if items != [] {
      KeepNoCompat(k, elem, items[0]);
      KeepItemsNoCompat(k, elem, items[1..]);
    }
  }

  lemma {:induction false} KeepsNoCompat(k: int, fs: Fields, vs: Vals)
    requires Typeds(fs, vs) && NoCompats(fs)
    ensures Keeps(k, fs, vs) == vs
    decreases fs, 0
  {
    if fs.More? {
      KeepNoCompat(k, fs.head, vs.head);
      KeepsNoCompat(k, fs.tail, vs.tail);
    }
  }

  lemma {:induction false} NoCompatNth(fs: Fields, i: nat)
    requires NoCompats(fs) && i < Length(fs)
    ensures NoCompat(Nth(fs, i))
  {
    if i > 0 {
      NoCompatNth(fs.tail, i - 1);
    }
  }

  lemma {:induction false} CopyRoundTrip(w: nat, width: nat, items: seq<Val>, tail: seq<byte>)
    requires forall i :: 0 <= i < |items| ==> Typed(Num(width), items[i])
    ensures |PackItems(w, Base, Num(width), items)| == |items| * width
    ensures CopyNums(width, |items|, PackItems(w, Base, Num(width), items) + tail) == items
  {
    if items != [] {
      CopyRoundTrip(w, width, items[1..], tail);
      LittleEndianRoundTrip(items[0].n, width);
      var own := LittleEndian(items[0].n, width);
      var next := PackItems(w, Base, Num(width), items[1..]);
      var all := PackItems(w, Base, Num(width), items) + tail;
      assert Pack(w, Base, Num(width), items[0]) == own;
      assert all == own + (next + tail);
      assert all[..width] == own && all[width..] == next + tail;
      assert |items| * width == width + (|items| - 1) * width;
    }
  }

  lemma VecRoundTrip(w: nat, p: Pass, ty: Ty, v: Val, rd: Reader, tail: seq<byte>)
    requires ty.Vec? && WellFormed(ty) && Typed(ty, v) && LengthsFit(w, ty, v)
    requires Reads(p, rd, Pack(w, p, ty, v), tail)
    ensures Unpack(w, p, ty, Before(p, ty, v), rd) == Result(Ok, After(p, ty, v), Past(rd, Pack(w, p, ty, v), tail))
    decreases ty, 0
  {
    var elem := ty.elem;
    var body := PackItems(w, p, elem, v.items);
    if p.Base? {
      var len := LittleEndian(|v.items|, w);
      SplitReads(p, rd, len, body, tail);
      LittleEndianRoundTrip(|v.items|, w);
      var rd1 := Past(rd, len, body + tail);
      if v.items == [] {
      } else if elem.Num? {
        CopyRoundTrip(w, elem.w, v.items, tail);
        KeepItemsNoCompat(-1, elem, v.items);
        assert rd1.rest[|body|..] == tail;
      } else {
        NewRoundTrip(w, elem, v.items, rd1, tail);
      }
    } else {
      EachRoundTrip(w, p, elem, v.items, rd, tail);
    }
  }

  lemma FastRoundTrip(kinds: seq<FV.Kind>, ns: seq<int>, rd: Reader, tail: seq<byte>)
    requires kinds != [] && FV.GroupOk(kinds, ns) && rd.rest == FV.Serialized(kinds, ns) + tail
    ensures ReadFast(kinds, Nums(FV.Zeros(|kinds|)), rd)
            == Result(Ok, Nums(ns), Past(rd, FV.Serialized(kinds, ns), tail))
  {
    FV.GroupRoundTrip(kinds, ns, tail);
  }

  lemma ScalarRoundTrip(w: nat, p: Pass, ty: Ty, v: Val, rd: Reader, tail: seq<byte>)
    requires (ty.Num? || ty.Var? || ty.Fast?) && WellFormed(ty) && Typed(ty, v)
    requires Reads(p, rd, Pack(w, p, ty, v), tail)
    ensures Unpack(w, p, ty, Before(p, ty, v), rd) == Result(Ok, After(p, ty, v), Past(rd, Pack(w, p, ty, v), tail))
  {
    if p.At? {
      assert Pack(w, p, ty, v) == [] && [] + tail == tail;
    } else if ty.Num? {
      NumRoundTrip(ty.w, v.n, Int(0), rd, tail);
      assert Unpack(w, p, ty, Int(0), rd) == ReadNum(ty.w, Int(0), rd);
    } else if ty.Var? {
      VarRoundTrip(ty.kind, v.n, Int(0), rd, tail);
      assert Unpack(w, p, ty, Int(0), rd) == ReadVar(ty.kind, Int(0), rd);
    } else {
      FastRoundTrip(ty.kinds, v.ns, rd, tail);
      assert Unpack(w, p, ty, Default(ty), rd) == ReadFast(ty.kinds, Default(ty), rd);
    }
  }

  lemma PresentRoundTrip(w: nat, elem: Ty, v: Val, rd: Reader, tail: seq<byte>)
    requires WellFormed(elem) && Typed(elem, v) && LengthsFit(w, elem, v)
    requires rd.rest == [1] + Pack(w, Base, elem, v) + tail
    ensures UnpackPresent(w, elem, Null, rd)
            == Result(Ok, Just(Keep(-1, elem, v)), Past(rd, [1] + Pack(w, Base, elem, v), tail))
    decreases elem, 2
  {
    var body := Pack(w, Base, elem, v);
    SplitReads(Base, rd, [1], body, tail);
    PassRoundTrip(w, Base, elem, v, Past(rd, [1], body + tail), tail);
  }

  /** One pass of the unpacker undoes the same pass of the packer, for every type
      and value: it turns the target the earlier passes left into the next one
      and stops exactly at the end of what was packed. */
  lemma PassRoundTrip(w: nat, p: Pass, ty: Ty, v: Val, rd: Reader, tail: seq<byte>)
    requires WellFormed(ty) && Typed(ty, v) && LengthsFit(w, ty, v)
    requires Reads(p, rd, Pack(w, p, ty, v), tail)
    ensures Unpack(w, p, ty, Before(p, ty, v), rd) == Result(Ok, After(p, ty, v), Past(rd, Pack(w, p, ty, v), tail))
    decreases ty, 1
  {
    match ty
    case Num(_) => ScalarRoundTrip(w, p, ty, v, rd, tail);
    case Var(_) => ScalarRoundTrip(w, p, ty, v, rd, tail);
    case Fast(_) => ScalarRoundTrip(w, p, ty, v, rd, tail);
    case Vec(_) => VecRoundTrip(w, p, ty, v, rd, tail);
    case Struct(fields) => FieldsRoundTrip(w, p, fields, v.fields, rd, tail);
    case Opt(_) => OptRoundTrip(w, p, ty, v, rd, tail);
    case Variant(_) => VariantRoundTrip(w, p, ty, v, rd, tail);
    case Compat(_, _) => CompatRoundTrip(w, p, ty, v, rd, tail);
  }

  lemma OptRoundTrip(w: nat, p: Pass, ty: Ty, v: Val, rd: Reader, tail: seq<byte>)
    requires ty.Opt? && WellFormed(ty) && Typed(ty, v) && LengthsFit(w, ty, v)
    requires Reads(p, rd, Pack(w, p, ty, v), tail)
    ensures Unpack(w, p, ty, Before(p, ty, v), rd) == Result(Ok, After(p, ty, v), Past(rd, Pack(w, p, ty, v), tail))
    decreases ty, 0
  {
    if v.Null? {
      assert p.Base? ==> rd.rest[1..] == tail;
      assert p.At? ==> [] + tail == tail;
    } else if p.Base? {
      PresentRoundTrip(w, ty.elem, v.v, rd, tail);
    } else {
      assert Pack(w, p, ty, v) == Pack(w, p, ty.elem, v.v);
      PassRoundTrip(w, p, ty.elem, v.v, rd, tail);
    }
  }

  lemma VariantRoundTrip(w: nat, p: Pass, ty: Ty, v: Val, rd: Reader, tail: seq<byte>)
    requires ty.Variant? && WellFormed(ty) && Typed(ty, v) && LengthsFit(w, ty, v)
    requires Reads(p, rd, Pack(w, p, ty, v), tail)
    ensures Unpack(w, p, ty, Before(p, ty, v), rd) == Result(Ok, After(p, ty, v), Past(rd, Pack(w, p, ty, v), tail))
    decreases ty, 0
  {
    var alt := Nth(ty.alts, v.index);
    var body := Pack(w, p, alt, v.v);
    WellFormedNth(ty.alts, v.index);
    if p.Base? {
      SplitReads(p, rd, [v.index], body, tail);
      PassRoundTrip(w, p, alt, v.v, Past(rd, [v.index], body + tail), tail);
    } else {
      assert Pack(w, p, ty, v) == body;
      PassRoundTrip(w, p, alt, v.v, rd, tail);
    }
  }

  lemma CompatRoundTrip(w: nat, p: Pass, ty: Ty, v: Val, rd: Reader, tail: seq<byte>)
    requires ty.Compat? && WellFormed(ty) && Typed(ty, v) && LengthsFit(w, ty, v)
    requires Reads(p, rd, Pack(w, p, ty, v), tail)
    ensures Unpack(w, p, ty, Before(p, ty, v), rd) == Result(Ok, After(p, ty, v), Past(rd, Pack(w, p, ty, v), tail))
    decreases ty, 0
  {
    if p != At(ty.version) {
      assert [] + tail == tail;
    } else if v.Null? {
      assert rd.rest[1..] == tail;
    } else {
      PresentRoundTrip(w, ty.elem, v.v, rd, tail);
    }
  }

  lemma {:induction false} NewRoundTrip(w: nat, elem: Ty, items: seq<Val>, rd: Reader, tail: seq<byte>)
    requires WellFormed(elem)
    requires forall i :: 0 <= i < |items| ==> Typed(elem, items[i]) && LengthsFit(w, elem, items[i])
    requires rd.rest == PackItems(w, Base, elem, items) + tail
    ensures UnpackNew(w, elem, |items|, rd)
         == Items(Ok, KeepItems(-1, elem, items), Past(rd, PackItems(w, Base, elem, items), tail))
    decreases elem, 2 + |items|
  {
    if items == [] {
      assert [] + tail == tail;
    } else {
      var own, next := Pack(w, Base, elem, items[0]), PackItems(w, Base, elem, items[1..]);
      SplitReads(Base, rd, own, next, tail);
      PassRoundTrip(w, Base, elem, items[0], rd, next + tail);
      NewRoundTrip(w, elem, items[1..], Past(rd, own, next + tail), tail);
    }
  }

  lemma {:induction false} EachRoundTrip(w: nat, p: Pass, elem: Ty, items: seq<Val>, rd: Reader, tail: seq<byte>)
    requires WellFormed(elem) && p.At?
    requires forall i :: 0 <= i < |items| ==> Typed(elem, items[i]) && LengthsFit(w, elem, items[i])
    requires Reads(p, rd, PackItems(w, p, elem, items), tail)
    ensures UnpackEach(w, p, elem, KeepItems(p.version - 1, elem, items), rd)
         == Items(Ok, KeepItems(p.version, elem, items), Past(rd, PackItems(w, p, elem, items), tail))
    decreases elem, 2 + |items|
  {
    if items == [] {
      assert [] + tail == tail;
    } else {
      var own, next := Pack(w, p, elem, items[0]), PackItems(w, p, elem, items[1..]);
      SplitReads(p, rd, own, next, tail);
      PassRoundTrip(w, p, elem, items[0], rd, next + tail);
      var rd1 := Past(rd, own, next + tail);
      EachRoundTrip(w, p, elem, items[1..], rd1, tail);
      UnpackEachStep(w, p, elem, Keep(p.version - 1, elem, items[0]), KeepItems(p.version - 1, elem, items[1..]),
        rd, rd1);
    }
  }

  lemma UnpackEachStep(w: nat, p: Pass, elem: Ty, first: Val, others: seq<Val>, rd: Reader, rd1: Reader)
    requires WellFormed(elem)
    requires Unpack(w, p, elem, first, rd).code == Ok && Unpack(w, p, elem, first, rd).rd == rd1
    ensures var rest := UnpackEach(w, p, elem, others, rd1);
            UnpackEach(w, p, elem, [first] + others, rd)
              == Items(rest.code, [Unpack(w, p, elem, first, rd).val] + rest.items, rest.rd)
  {
    assert ([first] + others)[1..] == others;
  }

  lemma FieldsRoundTrip(w: nat, p: Pass, fs: Fields, vs: Vals, rd: Reader, tail: seq<byte>)
    requires WellFormeds(fs) && Typeds(fs, vs) && LengthsFits(w, fs, vs)
    requires Reads(p, rd, PackFields(w, p, fs, vs), tail)
    ensures UnpackFields(w, p, fs, BeforeFields(p, fs, vs), rd)
         == Results(Ok, AfterFields(p, fs, vs), Past(rd, PackFields(w, p, fs, vs), tail))
    decreases fs, 0
  {
    if fs.End? {
      assert [] + tail == tail;
    } else {
      var own, next := Pack(w, p, fs.head, vs.head), PackFields(w, p, fs.tail, vs.tail);
      SplitReads(p, rd, own, next, tail);
      PassRoundTrip(w, p, fs.head, vs.head, rd, next + tail);
      FieldsRoundTrip(w, p, fs.tail, vs.tail, Past(rd, own, next + tail), tail);
    }
  }
}
