/** Packet framing and PacketThrottler: batching frames into socket buffers. */
module PacketThrottler {
  import opened Bytes
  import opened Bits
  import opened Varint
  import opened StructPackModel
  import opened StructPack

  // ----- Frames

  const LENGTH_SIZE := 4
  const HEADER_SIZE := 8

  /** Packet type, error code and serialised body. */
  datatype Packet = Packet(kind: nat, error: nat, body: seq<byte>)

  function FrameSize(p: Packet): nat { LENGTH_SIZE + HEADER_SIZE + |p.body| }

  /** A packet the 16- and 32-bit header fields can describe. */
  predicate Framable(p: Packet) { p.kind < 0x1_0000 && p.error < 0x1_0000 && FrameSize(p) < TWO32 }

  function HeaderBytes(p: Packet): (h: seq<byte>)
    ensures |h| == HEADER_SIZE
  {
    LittleEndian(p.kind, 2) + LittleEndian(p.error, 2) + LittleEndian(|p.body|, 4)
  }

  function Frame(p: Packet): (f: seq<byte>)
    ensures |f| == FrameSize(p)
  {
    LittleEndian(HEADER_SIZE + |p.body|, LENGTH_SIZE) + HeaderBytes(p) + p.body
  }

  function Frames(ps: seq<Packet>): seq<byte> {
    if ps == [] then [] else Frame(ps[0]) + Frames(ps[1..])
  }

  /** The receiver: a length prefix, then a header and body of that length. */
  datatype Parsed = Parsed(packet: Packet, rest: seq<byte>) | Incomplete

  function Parse(bs: seq<byte>): (r: Parsed)
    ensures r.Parsed? ==> |r.rest| < |bs|
  {
    if |bs| < LENGTH_SIZE then Incomplete
    else
      var n := FromLittleEndian(bs[..4]);
      if n < HEADER_SIZE || |bs| < 4 + n then Incomplete
      else Parsed(Packet(FromLittleEndian(bs[4..6]), FromLittleEndian(bs[6..8]), bs[12..4 + n]), bs[4 + n..])
  }

  function ParseAll(bs: seq<byte>): seq<Packet>
    decreases |bs|
  {
    match Parse(bs)
    case Incomplete => []
    case Parsed(p, rest) => [p] + ParseAll(rest)
  }

  lemma FrameSlices(len: seq<byte>, kind: seq<byte>, error: seq<byte>, size: seq<byte>, body: seq<byte>,
    rest: seq<byte>)
    requires |len| == 4 && |kind| == 2 && |error| == 2 && |size| == 4
    ensures var bs := len + (kind + error + size) + body + rest;
            && bs[..4] == len && bs[4..6] == kind && bs[6..8] == error
            && bs[12..12 + |body|] == body && bs[12 + |body|..] == rest
  {
  }

  lemma ParseFrame(p: Packet, rest: seq<byte>)
    requires Framable(p)
    ensures Parse(Frame(p) + rest) == Parsed(p, rest)
  {
    assert Pow256(2) == 0x1_0000 && Pow256(4) == TWO32;
    LittleEndianRoundTrip(HEADER_SIZE + |p.body|, 4);
    LittleEndianRoundTrip(p.kind, 2);
    LittleEndianRoundTrip(p.error, 2);
    FrameSlices(LittleEndian(HEADER_SIZE + |p.body|, 4), LittleEndian(p.kind, 2), LittleEndian(p.error, 2),
                LittleEndian(|p.body|, 4), p.body, rest);
  }

  predicate AllFramable(ps: seq<Packet>) { forall i :: 0 <= i < |ps| ==> Framable(ps[i]) }

  /** Length-prefix parsing recovers the packets of a stream of frames. */
  lemma {:induction false} ParseFrames(ps: seq<Packet>)
    requires AllFramable(ps)
    ensures ParseAll(Frames(ps)) == ps
  {
    if ps != [] {
      ParseFrame(ps[0], Frames(ps[1..]));
      ParseFrames(ps[1..]);
    }
  }

  lemma {:induction false} FramesConcat(a: seq<Packet>, b: seq<Packet>)
    ensures Frames(a + b) == Frames(a) + Frames(b)
  {
    if a == [] {
      assert a + b == b;
    } else {
      assert (a + b)[1..] == a[1..] + b;
      FramesConcat(a[1..], b);
    }
  }

  lemma FramesOne(p: Packet)
    ensures Frames([p]) == Frame(p)
  {
    assert [p][1..] == [];
    assert Frame(p) + [] == Frame(p);
  }

  /** A value sent as a packet comes back as what is sent of it.  The body is as
      long as the sizer asks for; what the packer leaves unwritten may hold
      anything. */
  lemma PacketRoundTrip(kind: nat, error: nat, id: TypeId, ty: Ty, v: Val, pad: seq<byte>, rest: seq<byte>)
    requires IdOk(id) && WellFormed(ty) && Typed(ty, v) && NeededSize(id, ty, v) < TWO64
    requires |Serialize(id, ty, v)| + |pad| == NeededSize(id, ty, v)
    requires Framable(Packet(kind, error, Serialize(id, ty, v) + pad))
    ensures var p := Packet(kind, error, Serialize(id, ty, v) + pad);
            && FrameSize(p) == LENGTH_SIZE + HEADER_SIZE + NeededSize(id, ty, v)
            && Parse(Frame(p) + rest) == Parsed(p, rest)
            && ReadsAs(Deserialize(id, ty, Default(ty), p.body), ty, v)
  {
    ParseFrame(Packet(kind, error, Serialize(id, ty, v) + pad), rest);
    RoundTrip(id, ty, v, pad);
  }

  // ----- One session

  /** The throttle data of a session: none, a null buffer, or a buffer. */
  datatype Slot = Absent | NoBuffer | Buffer(bytes: seq<byte>)

  /** A session: its slot, the buffers sent, how often a null buffer was sent; and
      the history of accepted packets, by sent buffer and in the open one. */
  datatype Conn = Conn(slot: Slot, sent: seq<seq<byte>>, nullSends: nat, groups: seq<seq<Packet>>, open: seq<Packet>)

  const NewConn := Conn(Absent, [], 0, [], [])

  /** SendPacket: the buffer goes to the stream and the pointer becomes null. */
  function Send(c: Conn): Conn {
    if c.slot.Buffer? then Conn(NoBuffer, c.sent + [c.slot.bytes], c.nullSends, c.groups + [c.open], [])
    else c.(slot := NoBuffer, nullSends := c.nullSends + 1)
  }

  function Append(c: Conn, p: Packet): Conn
    requires c.slot.Buffer?
  {
    c.(slot := Buffer(c.slot.bytes + Frame(p)), open := c.open + [p])
  }

  /** StorePacket: append, or send what is there and start another buffer.  The
      second component is the size overflow exception. */
  function Store(cap: nat, c: Conn, p: Packet, alloc: bool): (Conn, bool)
    requires c.slot.Buffer?
  {
    if |c.slot.bytes| + FrameSize(p) <= cap then (Append(c, p), false)
    else if !alloc then (Send(c), false)
    else
      var next := Send(c).(slot := Buffer([]));
      if FrameSize(p) <= cap then (Append(next, p), false) else (next, true)
  }

  /** PostPacket; first and again say whether the two allocations succeed. */
  function Posted(cap: nat, c: Conn, p: Packet, immediate: bool, first: bool, again: bool): Conn {
    if !c.slot.Buffer? && !first then c.(slot := Absent)
    else
      var ready := if c.slot.Buffer? then c else c.(slot := Buffer([]));
      var (stored, overflow) := Store(cap, ready, p, again);
      if overflow || !immediate then stored else Send(stored).(slot := Absent)
  }

  function Flushed(c: Conn): Conn { if c.slot == Absent then c else Send(c).(slot := Absent) }

  function Cleaned(c: Conn): Conn { c.(slot := Absent, open := []) }

  function Flat<T>(xss: seq<seq<T>>): seq<T> { if xss == [] then [] else Flat(xss[..|xss| - 1]) + xss[|xss| - 1] }

  function Accepted(c: Conn): seq<Packet> { Flat(c.groups) + c.open }

  function Pending(c: Conn): seq<byte> { if c.slot.Buffer? then c.slot.bytes else [] }

  /** Every buffer sent or pending is whole frames within the capacity. */
  ghost predicate Inv(cap: nat, c: Conn) {
    && |c.sent| == |c.groups|
    && (forall k :: 0 <= k < |c.sent| ==> c.sent[k] == Frames(c.groups[k]) && |c.sent[k]| <= cap)
    && Pending(c) == Frames(c.open) && |Pending(c)| <= cap
    && (!c.slot.Buffer? ==> c.open == [])
  }

  lemma AppendKeeps(cap: nat, c: Conn, p: Packet)
    requires Inv(cap, c) && c.slot.Buffer? && |c.slot.bytes| + FrameSize(p) <= cap
    ensures Inv(cap, Append(c, p))
  {
    FramesConcat(c.open, [p]);
    FramesOne(p);
  }

  lemma SendKeeps(cap: nat, c: Conn)
    requires Inv(cap, c)
    ensures Inv(cap, Send(c)) && Accepted(Send(c)) == Accepted(c)
  {
    if c.slot.Buffer? {
      assert (c.groups + [c.open])[..|c.groups|] == c.groups;
    }
  }

  datatype Event =
    | Post(packet: Packet, immediate: bool, first: bool, again: bool)
    | Flush
    | CleanUp

  function Step(cap: nat, c: Conn, e: Event): Conn {
    match e
    case Post(p, immediate, first, again) => Posted(cap, c, p, immediate, first, again)
    case Flush => Flushed(c)
    case CleanUp => Cleaned(c)
  }

  /** Does a post get its packet into a buffer? */
  predicate Taken(cap: nat, c: Conn, e: Event) {
    && e.Post? && (c.slot.Buffer? || e.first)
    && (|Pending(c)| + FrameSize(e.packet) <= cap || (e.again && FrameSize(e.packet) <= cap))
  }

  lemma StoreKeeps(cap: nat, c: Conn, p: Packet, alloc: bool)
    requires Inv(cap, c) && c.slot.Buffer?
    ensures Inv(cap, Store(cap, c, p, alloc).0)
    ensures Accepted(Store(cap, c, p, alloc).0)
         == Accepted(c) + if |c.slot.bytes| + FrameSize(p) <= cap || (alloc && FrameSize(p) <= cap) then [p] else []
  {
    if |c.slot.bytes| + FrameSize(p) <= cap {
      AppendKeeps(cap, c, p);
    } else {
      SendKeeps(cap, c);
      var next := Send(c).(slot := Buffer([]));
      assert Accepted(next) == Accepted(c);
      if alloc && FrameSize(p) <= cap {
        AppendKeeps(cap, next, p);
        assert Accepted(Append(next, p)) == Flat(next.groups) + ([] + [p]);
      }
    }
  }

  /** Every step keeps the buffers whole; a post adds its packet at the end of
      what is accepted if it is taken, a clean-up drops exactly the open packets. */
  lemma StepKeeps(cap: nat, c: Conn, e: Event)
    requires Inv(cap, c)
    ensures Inv(cap, Step(cap, c, e))
    ensures !e.CleanUp? ==> Accepted(Step(cap, c, e)) == Accepted(c) + if Taken(cap, c, e) then [e.packet] else []
    ensures e.CleanUp? ==> Accepted(c) == Accepted(Step(cap, c, e)) + c.open
  {
    match e
    case Post(p, immediate, first, again) => PostKeeps(cap, c, p, immediate, first, again);
    case Flush =>
      SendKeeps(cap, c);
      assert Accepted(c) + [] == Accepted(c);
    case CleanUp => assert Flat(c.groups) + [] == Flat(c.groups);
  }

  lemma PostKeeps(cap: nat, c: Conn, p: Packet, immediate: bool, first: bool, again: bool)
    requires Inv(cap, c)
    ensures Inv(cap, Posted(cap, c, p, immediate, first, again))
    ensures Accepted(Posted(cap, c, p, immediate, first, again))
         == Accepted(c) + if Taken(cap, c, Post(p, immediate, first, again)) then [p] else []
  {
    if c.slot.Buffer? || first {
      var ready := if c.slot.Buffer? then c else c.(slot := Buffer([]));
      SlotChange(cap, c, Buffer([]));
      assert Pending(ready) == Pending(c);
      StoreKeeps(cap, ready, p, again);
      var stored := Store(cap, ready, p, again).0;
      SendKeeps(cap, stored);
      SlotChange(cap, Send(stored), Absent);
    } else {
      assert Accepted(c) + [] == Accepted(c);
    }
  }

  /** An empty slot may change its kind. */
  lemma SlotChange(cap: nat, c: Conn, slot: Slot)
    requires Inv(cap, c) && (slot.Buffer? ==> slot.bytes == [])
    ensures !c.slot.Buffer? ==> Inv(cap, c.(slot := slot)) && Accepted(c.(slot := slot)) == Accepted(c)
  {
  }

  /** Where one taken packet goes: behind what is pending if both fit a buffer,
      else into a buffer of its own behind it. */
  function Placed(cap: nat, c: Conn, p: Packet): seq<seq<byte>> {
    if |Pending(c)| + FrameSize(p) <= cap then [Pending(c) + Frame(p)] else [Pending(c), Frame(p)]
  }

  /** An Immediate post leaves nothing pending, and no entry unless the packet
      overflows a fresh buffer; a packet that is taken has gone out, at the end of
      the last buffer sent. */
  lemma ImmediateIsSent(cap: nat, c: Conn, p: Packet, first: bool, again: bool)
    ensures var after := Posted(cap, c, p, true, first, again);
            && Pending(after) == []
            && (after.slot == Absent <==> !((c.slot.Buffer? || first) && again && FrameSize(p) > cap))
            && (Taken(cap, c, Post(p, true, first, again)) ==> after.sent == c.sent + Placed(cap, c, p))
  {
    assert Pending(Posted(cap, c, p, true, first, again)) == [];
    assert c.sent + [Pending(c)] + [Frame(p)] == c.sent + [Pending(c), Frame(p)];
    assert [] + Frame(p) == Frame(p);
  }

  /** A flush sends what is pending, in a buffer of its own, and leaves no entry. */
  lemma FlushIsComplete(cap: nat, c: Conn)
    requires Inv(cap, c)
    ensures var after := Flushed(c);
            && after.slot == Absent && after.open == [] && Accepted(after) == Accepted(c)
            && after.sent == c.sent + if c.slot.Buffer? then [Pending(c)] else []
  {
    SendKeeps(cap, c);
    assert c.sent + [] == c.sent;
  }

  /** A Throttle post that is taken waits: only what no longer has room beside it
      is sent. */
  lemma ThrottledWaits(cap: nat, c: Conn, p: Packet, first: bool, again: bool)
    requires Taken(cap, c, Post(p, false, first, again))
    ensures var after, placed := Posted(cap, c, p, false, first, again), Placed(cap, c, p);
            && after.slot == Buffer(placed[|placed| - 1])
            && after.sent == c.sent + placed[..|placed| - 1]
  {
    assert [] + Frame(p) == Frame(p);
    assert Placed(cap, c, p)[..|Placed(cap, c, p)| - 1]
        == if |Pending(c)| + FrameSize(p) <= cap then [] else [Pending(c)];
    assert c.sent + [] == c.sent;
  }

  // ----- Whole runs

  function Run(cap: nat, c: Conn, es: seq<Event>): Conn
    decreases |es|
  {
    if es == [] then c else Run(cap, Step(cap, c, es[0]), es[1..])
  }

  /** Posts and flushes where allocation succeeds and every packet fits a buffer. */
  predicate Smooth(cap: nat, es: seq<Event>) {
    forall i :: 0 <= i < |es| ==>
      !es[i].CleanUp? && (es[i].Post?
        ==> es[i].first && es[i].again && FrameSize(es[i].packet) <= cap && Framable(es[i].packet))
  }

  function PostedIn(es: seq<Event>): seq<Packet> {
    if es == [] then [] else (if es[0].Post? then [es[0].packet] else []) + PostedIn(es[1..])
  }

  /** No slot keeps a null buffer, so none is ever sent. */
  lemma StepSendsBuffers(cap: nat, c: Conn, e: Event)
    requires c.slot != NoBuffer && (e.Post? ==> e.first && e.again)
    ensures Step(cap, c, e).slot != NoBuffer && Step(cap, c, e).nullSends == c.nullSends
  {
  }

  lemma {:induction false} RunKeeps(cap: nat, c: Conn, es: seq<Event>)
    requires Inv(cap, c) && Smooth(cap, es) && c.slot != NoBuffer
    ensures Inv(cap, Run(cap, c, es)) && Run(cap, c, es).nullSends == c.nullSends
    ensures Accepted(Run(cap, c, es)) == Accepted(c) + PostedIn(es)
    decreases |es|
  {
    if es == [] {
      assert Accepted(c) + [] == Accepted(c);
    } else {
      var next := Step(cap, c, es[0]);
      StepKeeps(cap, c, es[0]);
      StepSendsBuffers(cap, c, es[0]);
      RunKeeps(cap, next, es[1..]);
      var own := if es[0].Post? then [es[0].packet] else [];
      assert Accepted(next) == Accepted(c) + own;
      Assoc(Accepted(c), own, PostedIn(es[1..]));
    }
  }

  lemma Assoc(a: seq<Packet>, b: seq<Packet>, c: seq<Packet>)
    ensures a + b + c == a + (b + c)
  {
  }

  lemma {:induction false} SentFrames(sent: seq<seq<byte>>, groups: seq<seq<Packet>>)
    requires |sent| == |groups| && forall k :: 0 <= k < |sent| ==> sent[k] == Frames(groups[k])
    ensures Flat(sent) == Frames(Flat(groups))
  {
    if sent != [] {
      var n := |sent| - 1;
      SentFrames(sent[..n], groups[..n]);
      FramesConcat(Flat(groups[..n]), groups[n]);
    }
  }

  lemma InvMeansFrames(cap: nat, c: Conn)
    requires Inv(cap, c)
    ensures Flat(c.sent) + Pending(c) == Frames(Accepted(c))
  {
    SentFrames(c.sent, c.groups);
    FramesConcat(Flat(c.groups), c.open);
  }

  lemma {:induction false} PostedFramable(cap: nat, es: seq<Event>)
    requires Smooth(cap, es)
    ensures AllFramable(PostedIn(es))
  {
    if es != [] {
      PostedFramable(cap, es[1..]);
    }
  }

  /** Batching preserves the stream: the bytes sent plus the pending buffer are the
      posted frames in order, every buffer is whole frames and within capacity,
      no null buffer is sent, and the receiver's parse gives the packets back. */
  lemma StreamPreserved(cap: nat, es: seq<Event>)
    requires Smooth(cap, es)
    ensures var c := Run(cap, NewConn, es);
            && Flat(c.sent) + Pending(c) == Frames(PostedIn(es))
            && ParseAll(Flat(c.sent) + Pending(c)) == PostedIn(es)
            && |c.sent| == |c.groups|
            && (forall k :: 0 <= k < |c.sent| ==> c.sent[k] == Frames(c.groups[k]) && |c.sent[k]| <= cap)
            && |Pending(c)| <= cap && c.nullSends == 0
  {
    RunKeeps(cap, NewConn, es);
    var c := Run(cap, NewConn, es);
    assert Accepted(c) == PostedIn(es);
    InvMeansFrames(cap, c);
    PostedFramable(cap, es);
    ParseFrames(PostedIn(es));
  }

  // ----- Null buffers

  /** The post has a buffer that its frame does not fit, and no other to go on with. */
  predicate LeavesNull(cap: nat, c: Conn, e: Event) {
    e.Post? && (c.slot.Buffer? || e.first) && |Pending(c)| + FrameSize(e.packet) > cap && !e.again
  }

  /** The exact step: a null buffer is sent by an Immediate post that is left with
      one and by a flush that finds one, and kept by a Throttle post. */
  lemma NullSendStep(cap: nat, c: Conn, e: Event)
    ensures var r := Step(cap, c, e);
            && r.nullSends == c.nullSends
              + (if (LeavesNull(cap, c, e) && e.immediate) || (e.Flush? && c.slot.NoBuffer?) then 1 else 0)
            && (r.slot.NoBuffer? <==> LeavesNull(cap, c, e) && !e.immediate)
  {
  }

  /** No post of the run that is left without a buffer is Immediate or has a flush
      as the next event. */
  predicate SparesNull(cap: nat, c: Conn, es: seq<Event>)
    decreases |es|
  {
    es == [] ||
    (&& (LeavesNull(cap, c, es[0]) ==> !es[0].immediate && (|es| > 1 ==> !es[1].Flush?))
     && SparesNull(cap, Step(cap, c, es[0]), es[1..]))
  }

  lemma {:induction false} NullSendsOnlyGrow(cap: nat, c: Conn, es: seq<Event>)
    ensures c.nullSends <= Run(cap, c, es).nullSends
    decreases |es|
  {
    if es != [] {
      NullSendStep(cap, c, es[0]);
      NullSendsOnlyGrow(cap, Step(cap, c, es[0]), es[1..]);
    }
  }

  lemma {:induction false} NullSendsFrom(cap: nat, c: Conn, es: seq<Event>)
    ensures Run(cap, c, es).nullSends == c.nullSends <==>
              SparesNull(cap, c, es) && !(c.slot.NoBuffer? && es != [] && es[0].Flush?)
    decreases |es|
  {
    if es != [] {
      var next := Step(cap, c, es[0]);
      NullSendStep(cap, c, es[0]);
      NullSendsFrom(cap, next, es[1..]);
      NullSendsOnlyGrow(cap, next, es[1..]);
      assert |es| > 1 ==> es[1] == es[1..][0];
    }
  }

  /** A run from a fresh session sends no null buffer if and only if none of its
      posts that are left without a buffer is Immediate or followed by a flush:
      a later post or a clean-up in between prevents it. */
  lemma NoNullSendIff(cap: nat, es: seq<Event>)
    ensures Run(cap, NewConn, es).nullSends == 0 <==> SparesNull(cap, NewConn, es)
  {
    NullSendsFrom(cap, NewConn, es);
  }

  // ----- Any run

  /** The packets of the posts that are taken, since the last clean-up dropped some. */
  function TakenIn(cap: nat, c: Conn, es: seq<Event>): seq<Packet>
    decreases |es|
  {
    if es == [] then []
    else (if Taken(cap, c, es[0]) then [es[0].packet] else []) + TakenIn(cap, Step(cap, c, es[0]), es[1..])
  }

  lemma {:induction false} AnyRunKeeps(cap: nat, c: Conn, es: seq<Event>)
    requires Inv(cap, c)
    ensures Inv(cap, Run(cap, c, es))
    ensures (forall i :: 0 <= i < |es| ==> !es[i].CleanUp?)
            ==> Accepted(Run(cap, c, es)) == Accepted(c) + TakenIn(cap, c, es)
    decreases |es|
  {
    if es == [] {
      assert Accepted(c) + [] == Accepted(c);
    } else {
      var next := Step(cap, c, es[0]);
      StepKeeps(cap, c, es[0]);
      AnyRunKeeps(cap, next, es[1..]);
      var own := if Taken(cap, c, es[0]) then [es[0].packet] else [];
      Assoc(Accepted(c), own, TakenIn(cap, next, es[1..]));
    }
  }

  /** Whatever allocations fail and whatever is too large: bytes sent plus pending
      are the frames of the accepted packets, which without clean-ups are the
      packets of the posts that were taken, in order. */
  lemma AnyStreamIsFrames(cap: nat, es: seq<Event>)
    ensures var c := Run(cap, NewConn, es);
            && Flat(c.sent) + Pending(c) == Frames(Accepted(c))
            && ((forall i :: 0 <= i < |es| ==> !es[i].CleanUp?) ==> Accepted(c) == TakenIn(cap, NewConn, es))
  {
    assert Accepted(NewConn) == [];
    AnyRunKeeps(cap, NewConn, es);
    InvMeansFrames(cap, Run(cap, NewConn, es));
    assert [] + TakenIn(cap, NewConn, es) == TakenIn(cap, NewConn, es);
  }

  // ----- The class

  /** SerializePacket into a buffer with some room: the frame, or only its size. */
  method SerializePacket(p: Packet, room: nat) returns (ok: bool, frame: seq<byte>, size: nat)
    ensures size == FrameSize(p) && (ok <==> size <= room) && (ok ==> frame == Frame(p))
  {
    size, frame := LENGTH_SIZE + HEADER_SIZE + |p.body|, [];
    ok := size <= room;
    if ok {
      frame := LittleEndian(size - LENGTH_SIZE, LENGTH_SIZE);
      frame := frame + (LittleEndian(p.kind, 2) + LittleEndian(p.error, 2) + LittleEndian(|p.body|, 4));
      frame := frame + p.body;
    }
  }

  class PacketThrottler {
    const capacity: nat
    /** _throttle_data, and the buffers each session's stream was given. */
    var slots: map<nat, Slot>
    var wire: map<nat, seq<seq<byte>>>
    ghost var conns: map<nat, Conn>

    ghost function At(id: nat): Conn
      reads this
    {
      if id in conns then conns[id] else NewConn
    }

    /** The fields are those of the sessions' own histories. */
    ghost predicate Tracks(id: nat)
      reads this
    {
      && At(id).slot == (if id in slots then slots[id] else Absent)
      && At(id).sent == (if id in wire then wire[id] else [])
      && (id in slots ==> slots[id] != Absent)
      && |Pending(At(id))| <= capacity
    }

    ghost predicate Valid()
      reads this
    {
      forall id :: Tracks(id)
    }

    /** Nobody else's session changed. */
    twostate predicate Others(id: nat)
      reads this
    {
      forall x :: x != id ==> At(x) == old(At(x))
    }

    constructor (cap: nat)
      ensures Valid() && capacity == cap && forall id :: At(id) == NewConn
    {
      capacity := cap;
      slots, wire, conns := map[], map[], map[];
    }

    method SetSlot(id: nat, slot: Slot, ghost c: Conn)
      requires Valid() && c.slot == slot && c.sent == At(id).sent && |Pending(c)| <= capacity
      modifies this
      ensures Valid() && Others(id) && At(id) == c && wire == old(wire)
      ensures slots == if slot == Absent then old(slots) - {id} else old(slots)[id := slot]
    {
      slots := if slot == Absent then slots - {id} else slots[id := slot];
      conns := conns[id := c];
      forall x: nat
        ensures Tracks(x)
      {
        assert old(Tracks(x)) && old(Tracks(id));
      }
    }

    method SendPacket(id: nat)
      requires Valid() && id in slots
      modifies this
      ensures Valid() && Others(id) && At(id) == Send(old(At(id))) && slots == old(slots)[id := NoBuffer]
    {
      assert Tracks(id);
      ghost var after := Send(At(id));
      if slots[id].Buffer? {
        Transmit(id, slots[id].bytes);
      }
      SetSlot(id, NoBuffer, after);
    }

    /** The stream takes a buffer. */
    method Transmit(id: nat, bytes: seq<byte>)
      requires Valid()
      modifies this`wire, this`conns
      ensures Valid() && Others(id) && At(id) == old(At(id)).(sent := old(At(id)).sent + [bytes])
    {
      wire := wire[id := (if id in wire then wire[id] else []) + [bytes]];
      conns := conns[id := At(id).(sent := At(id).sent + [bytes])];
      forall x: nat
        ensures Tracks(x)
      {
        assert old(Tracks(x)) && old(Tracks(id));
      }
    }

    method StorePacket(id: nat, p: Packet, again: bool) returns (overflow: bool)
      requires Valid() && id in slots && slots[id].Buffer? && At(id).slot.Buffer?
      modifies this
      ensures Valid() && Others(id) && slots.Keys == old(slots.Keys)
      ensures (At(id), overflow) == Store(capacity, old(At(id)), p, again)
    {
      assert Tracks(id);
      overflow := false;
      var ok, frame, size := SerializePacket(p, capacity - |slots[id].bytes|);
      if !ok {
        SendPacket(id);
        if !again {
          return;
        }
        SetSlot(id, Buffer([]), At(id).(slot := Buffer([])));
        ok, frame, size := SerializePacket(p, capacity);
        if !ok {
          return true;
        }
      }
      SetSlot(id, Buffer(slots[id].bytes + frame), Append(At(id), p));
    }

    method PostPacket(id: nat, p: Packet, immediate: bool, first: bool, again: bool) returns (overflow: bool)
      requires Valid()
      modifies this
      ensures Valid() && Others(id) && At(id) == Posted(capacity, old(At(id)), p, immediate, first, again)
      ensures overflow == ((old(At(id)).slot.Buffer? || first) && again && FrameSize(p) > capacity)
    {
      assert Tracks(id);
      overflow := false;
      if id !in slots || !slots[id].Buffer? {
        if !first {
          SetSlot(id, Absent, At(id).(slot := Absent));
          return;
        }
        SetSlot(id, Buffer([]), At(id).(slot := Buffer([])));
      }
      overflow := StorePacket(id, p, again);
      if !overflow && immediate {
        SendPacket(id);
        SetSlot(id, Absent, At(id).(slot := Absent));
      }
    }

    method CleanUp(id: nat)
      requires Valid()
      modifies this
      ensures Valid() && Others(id) && At(id) == Cleaned(old(At(id)))
    {
      SetSlot(id, Absent, Cleaned(At(id)));
    }

    /** Every session with throttle data has its buffer sent and its entry erased. */
    method ForceFlushPacket()
      requires Valid()
      modifies this
      ensures Valid() && slots == map[] && forall id :: At(id) == Flushed(old(At(id)))
    {
      var todo := slots.Keys;
      forall id: nat
        ensures id !in todo ==> At(id) == Flushed(At(id))
      {
        assert Tracks(id);
      }
      while todo != {}
        invariant todo == slots.Keys && Valid()
        invariant forall id :: At(id) == if id in todo then old(At(id)) else Flushed(old(At(id)))
        decreases |todo|
      {
        var id :| id in todo;
        assert Tracks(id);
        ghost var was := At(id);
        SendPacket(id);
        SetSlot(id, Absent, At(id).(slot := Absent));
        assert At(id) == Flushed(was);
        todo := todo - {id};
      }
    }
  }
}
