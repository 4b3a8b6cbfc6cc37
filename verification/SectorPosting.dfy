/** SectorPostingManager: the two-way index between sectors and sessions. */
module SectorPosting {

  /** owner 0 is no owner. */
  datatype SectorInfo = SectorInfo(owner: nat, listening: set<nat>)

  /** session 0 is the null session pointer. */
  datatype SessionInfo = SessionInfo(session: nat, related: set<nat>)

  datatype Index = Index(sectors: map<nat, SectorInfo>, sessions: map<nat, SessionInfo>)
  {
    /** What operator[] of the two maps finds or inserts. */
    function Sector(s: nat): SectorInfo { if s in sectors then sectors[s] else SectorInfo(0, {}) }

    function Session(id: nat): SessionInfo { if id in sessions then sessions[id] else SessionInfo(0, {}) }

    predicate Listens(id: nat, s: nat) { id in Sector(s).listening }

    predicate Owns(id: nat, s: nat) { id != 0 && Sector(s).owner == id }

    predicate Related(id: nat, s: nat) { s in Session(id).related }
  }

  const Empty := Index(map[], map[])

  // ----- What the operations do

  function Relate(ix: Index, s: nat, id: nat): Index {
    ix.(sessions := ix.sessions[id := ix.Session(id).(related := ix.Session(id).related + {s})])
  }

  function Unrelate(ix: Index, s: nat, id: nat): Index {
    ix.(sessions := ix.sessions[id := ix.Session(id).(related := ix.Session(id).related - {s})])
  }

  function Allocated(ix: Index, s: nat, id: nat): Index {
    var was := ix.Sector(s).owner;
    var freed := if was != 0 then Unrelate(ix, s, was) else ix;
    Relate(freed, s, id).(sectors := ix.sectors[s := ix.Sector(s).(owner := id)])
  }

  function WithSession(ix: Index, id: nat, session: nat): Index {
    ix.(sessions := ix.sessions[id := ix.Session(id).(session := session)])
  }

  function Listened(ix: Index, s: nat, id: nat): Index {
    Relate(ix, s, id).(sectors := ix.sectors[s := ix.Sector(s).(listening := ix.Sector(s).listening + {id})])
  }

  function Silenced(info: SectorInfo, id: nat): SectorInfo { info.(listening := info.listening - {id}) }

  function Released(info: SectorInfo, id: nat): SectorInfo {
    SectorInfo(if info.owner == id then 0 else info.owner, info.listening - {id})
  }

  function Unlistened(ix: Index, id: nat): Index {
    Index(map s | s in ix.sectors :: if ix.Related(id, s) then Silenced(ix.sectors[s], id) else ix.sectors[s],
          ix.sessions[id := ix.Session(id)])
  }

  function Unset(ix: Index, id: nat): Index {
    Index(map s | s in ix.sectors :: if ix.Related(id, s) then Released(ix.sectors[s], id) else ix.sectors[s],
          ix.sessions[id := SessionInfo(0, {})])
  }

  function OwnerAsked(ix: Index, s: nat): Index {
    Index(ix.sectors[s := ix.Sector(s)], ix.sessions[ix.Sector(s).owner := ix.Session(ix.Sector(s).owner)])
  }

  function OwnedAsked(ix: Index, id: nat): Index { ix.(sessions := ix.sessions[id := ix.Session(id)]) }

  // ----- The class

  class SectorPostingManager {
    var sectors: map<nat, SectorInfo>
    var sessions: map<nat, SessionInfo>

    ghost function State(): Index
      reads this
    {
      Index(sectors, sessions)
    }

    /** Every pointer in a related_sectors map leads to an entry of _sectors. */
    ghost predicate Valid()
      reads this
    {
      Pointers(State())
    }

    constructor ()
      ensures Valid() && State() == Empty
    {
      sectors, sessions := map[], map[];
    }

    /** What operator[] of the two maps finds or inserts. */
    function SectorAt(s: nat): SectorInfo
      reads this
    {
      if s in sectors then sectors[s] else SectorInfo(0, {})
    }

    function SessionAt(id: nat): SessionInfo
      reads this
    {
      if id in sessions then sessions[id] else SessionInfo(0, {})
    }

    method AllocateSector(s: nat, id: nat)
      requires Valid()
      modifies this
      ensures Valid() && State() == Allocated(old(State()), s, id)
    {
      PointersKept(State(), Allocate(s, id));
      var info := SectorAt(s);
      if info.owner != 0 {
        sessions := sessions[info.owner := SessionAt(info.owner).(related := SessionAt(info.owner).related - {s})];
      }
      sessions := sessions[id := SessionAt(id).(related := SessionAt(id).related + {s})];
      sectors := sectors[s := info.(owner := id)];
    }

    method LinkSession(id: nat, session: nat)
      requires Valid()
      modifies this
      ensures Valid() && State() == WithSession(old(State()), id, session)
    {
      sessions := sessions[id := SessionAt(id).(session := session)];
    }

    /** Returns the session whose pending packets the throttler drops, 0 for none. */
    method UnlinkSession(id: nat) returns (cleaned: nat)
      requires Valid()
      modifies this
      ensures Valid() && State() == WithSession(old(State()), id, 0) && cleaned == old(State()).Session(id).session
    {
      var info := SessionAt(id);
      cleaned := info.session;
      sessions := sessions[id := if info.session == 0 then info else info.(session := 0)];
    }

    method AddSectorListener(s: nat, id: nat)
      requires Valid()
      modifies this
      ensures Valid() && State() == Listened(old(State()), s, id)
    {
      PointersKept(State(), Listen(s, id));
      sessions := sessions[id := SessionAt(id).(related := SessionAt(id).related + {s})];
      sectors := sectors[s := SectorAt(s).(listening := SectorAt(s).listening + {id})];
    }

    /** The sector is not looked at: the session stops listening everywhere. */
    method RemoveSectorListener(s: nat, id: nat)
      requires Valid()
      modifies this
      ensures Valid() && State() == Unlistened(old(State()), id)
    {
      var related := SessionAt(id).related;
      sessions := sessions[id := SessionAt(id)];
      var todo := related;
      while todo != {}
        invariant sessions == old(sessions)[id := old(SessionAt(id))]
        invariant todo <= related <= sectors.Keys && sectors.Keys == old(sectors).Keys
        invariant forall x :: x in sectors ==>
          sectors[x] == if x in related - todo then Silenced(old(sectors)[x], id) else old(sectors)[x]
        decreases |todo|
      {
        var x :| x in todo;
        sectors := sectors[x := Silenced(sectors[x], id)];
        todo := todo - {x};
      }
      assert sectors == Unlistened(old(State()), id).sectors;
      PointersKept(old(State()), Unlisten(s, id));
    }

    method UnsetAll(id: nat) returns (cleaned: nat)
      requires Valid()
      modifies this
      ensures Valid() && State() == Unset(old(State()), id) && cleaned == old(State()).Session(id).session
    {
      var info := SessionAt(id);
      var todo := info.related;
      while todo != {}
        invariant sessions == old(sessions)
        invariant todo <= info.related <= sectors.Keys && sectors.Keys == old(sectors).Keys
        invariant forall x :: x in sectors ==>
          sectors[x] == if x in info.related - todo then Released(old(sectors)[x], id) else old(sectors)[x]
        decreases |todo|
      {
        var x :| x in todo;
        sectors := sectors[x := Silenced(sectors[x], id)];
        if sectors[x].owner == id {
          sectors := sectors[x := sectors[x].(owner := 0)];
        }
        todo := todo - {x};
      }
      assert sectors == Unset(old(State()), id).sectors;
      sessions := sessions[id := info.(related := {})];
      cleaned := UnlinkSession(id);
      assert sessions == old(sessions)[id := SessionInfo(0, {})];
    }

    method GetSectorOwnerSession(s: nat) returns (session: nat)
      requires Valid()
      modifies this
      ensures Valid() && State() == OwnerAsked(old(State()), s)
      ensures session == OwnerSession(old(State()), s)
    {
      sectors := sectors[s := SectorAt(s)];
      var owner := sectors[s].owner;
      sessions := sessions[owner := SessionAt(owner)];
      session := sessions[owner].session;
    }

    method GetOwnershipSectors(id: nat) returns (related: set<nat>)
      requires Valid()
      modifies this
      ensures Valid() && State() == OwnedAsked(old(State()), id) && related == old(State()).Session(id).related
    {
      sessions := sessions[id := SessionAt(id)];
      related := sessions[id].related;
    }
  }

  function OwnerSession(ix: Index, s: nat): nat { ix.Session(ix.Sector(s).owner).session }

  predicate Pointers(ix: Index) { forall id :: id in ix.sessions ==> ix.sessions[id].related <= ix.sectors.Keys }

  lemma PointersKept(ix: Index, op: Op)
    requires Pointers(ix)
    ensures Pointers(Apply(ix, op))
  {
  }

  // ----- The index invariant

  /** Both directions of the index: whatever an id listens to or owns is related
      to it, and related sectors exist. */
  ghost predicate Inv(ix: Index) {
    && Pointers(ix)
    && (forall id, s :: ix.Listens(id, s) ==> ix.Related(id, s))
    && (forall id, s :: ix.Owns(id, s) ==> ix.Related(id, s))
  }

  datatype Op =
    | Allocate(s: nat, id: nat)
    | Link(id: nat, session: nat)
    | Unlink(id: nat)
    | Listen(s: nat, id: nat)
    | Unlisten(s: nat, id: nat)
    | UnsetAll(id: nat)
    | AskOwner(s: nat)
    | AskOwned(id: nat)

  function Apply(ix: Index, op: Op): Index {
    match op
    case Allocate(s, id) => Allocated(ix, s, id)
    case Link(id, session) => WithSession(ix, id, session)
    case Unlink(id) => WithSession(ix, id, 0)
    case Listen(s, id) => Listened(ix, s, id)
    case Unlisten(_, id) => Unlistened(ix, id)
    case UnsetAll(id) => Unset(ix, id)
    case AskOwner(s) => OwnerAsked(ix, s)
    case AskOwned(id) => OwnedAsked(ix, id)
  }

  /** The owner an allocation displaces does not listen to the sector it loses. */
  predicate Safe(ix: Index, op: Op) {
    op.Allocate? ==> var was := ix.Sector(op.s).owner; was == 0 || was == op.id || !ix.Listens(was, op.s)
  }

  lemma LinkKept(ix: Index, op: Op, id: nat, s: nat)
    requires Safe(ix, op) && Pointers(ix)
    requires ix.Listens(id, s) || ix.Owns(id, s) ==> ix.Related(id, s)
    ensures Apply(ix, op).Listens(id, s) || Apply(ix, op).Owns(id, s) ==> Apply(ix, op).Related(id, s)
  {
  }

  /** Exactly the safe operations keep the index. */
  lemma StepKeepsIff(ix: Index, op: Op)
    requires Inv(ix)
    ensures Inv(Apply(ix, op)) <==> Safe(ix, op)
  {
    PointersKept(ix, op);
    if Safe(ix, op) {
      forall id: nat, s: nat
        ensures Apply(ix, op).Listens(id, s) || Apply(ix, op).Owns(id, s) ==> Apply(ix, op).Related(id, s)
      {
        LinkKept(ix, op, id, s);
      }
    } else {
      var was := ix.Sector(op.s).owner;
      assert Apply(ix, op).Listens(was, op.s) && !Apply(ix, op).Related(was, op.s);
    }
  }

  ghost predicate NoDual(ix: Index) { forall id, s, t :: ix.Owns(id, s) ==> !ix.Listens(id, t) }

  /** Where no id both owns and listens every operation is safe. */
  lemma NoDualIsSafe(ix: Index, op: Op)
    requires NoDual(ix)
    ensures Safe(ix, op)
  {
    assert op.Allocate? ==> !(ix.Owns(ix.Sector(op.s).owner, op.s) && ix.Listens(ix.Sector(op.s).owner, op.s));
  }

  function Run(ix: Index, ops: seq<Op>): Index
    decreases |ops|
  {
    if ops == [] then ix else Run(Apply(ix, ops[0]), ops[1..])
  }

  predicate SafeRun(ix: Index, ops: seq<Op>)
    decreases |ops|
  {
    ops == [] || (Safe(ix, ops[0]) && SafeRun(Apply(ix, ops[0]), ops[1..]))
  }

  lemma {:induction false} RunKeeps(ix: Index, ops: seq<Op>)
    requires Inv(ix) && SafeRun(ix, ops)
    ensures Inv(Run(ix, ops))
    decreases |ops|
  {
    if ops != [] {
      StepKeepsIff(ix, ops[0]);
      RunKeeps(Apply(ix, ops[0]), ops[1..]);
    }
  }

  ghost predicate NoDualRun(ix: Index, ops: seq<Op>)
    decreases |ops|
  {
    NoDual(ix) && (ops == [] || NoDualRun(Apply(ix, ops[0]), ops[1..]))
  }

  lemma {:induction false} NoDualRunIsSafe(ix: Index, ops: seq<Op>)
    requires NoDualRun(ix, ops)
    ensures SafeRun(ix, ops)
    decreases |ops|
  {
    if ops != [] {
      NoDualIsSafe(ix, ops[0]);
      NoDualRunIsSafe(Apply(ix, ops[0]), ops[1..]);
    }
  }

  /** After any safe run UnsetAll, which walks only the related sectors, leaves
      the id listening nowhere and owning nothing, and touches nobody else. */
  lemma UnsetAfterRun(ops: seq<Op>, id: nat)
    requires SafeRun(Empty, ops)
    ensures var ix := Run(Empty, ops);
            var after := Apply(ix, UnsetAll(id));
            && (forall s :: !after.Listens(id, s) && !after.Owns(id, s) && !after.Related(id, s))
            && after.Session(id).session == 0
            && forall other, s :: other != id ==>
                 (after.Listens(other, s) <==> ix.Listens(other, s)) && (after.Owns(other, s) <==> ix.Owns(other, s))
  {
    RunKeeps(Empty, ops);
    UnsetLeavesNothing(Run(Empty, ops), id);
  }

  lemma UnsetLeavesNothing(ix: Index, id: nat)
    requires Inv(ix)
    ensures var after := Unset(ix, id);
            && (forall s :: !after.Listens(id, s) && !after.Owns(id, s) && !after.Related(id, s))
            && after.Session(id).session == 0
            && forall other, s :: other != id ==>
                 (after.Listens(other, s) <==> ix.Listens(other, s)) && (after.Owns(other, s) <==> ix.Owns(other, s))
  {
    var after := Unset(ix, id);
    forall s: nat
      ensures !after.Listens(id, s) && !after.Owns(id, s) && !after.Related(id, s)
    {
      assert ix.Listens(id, s) ==> ix.Related(id, s);
      assert ix.Owns(id, s) ==> ix.Related(id, s);
    }
  }

  /** Without the condition it fails: an owner that also listens, displaced by
      another, listens on after UnsetAll. */
  lemma DisplacedListenerStays(s: nat, a: nat, b: nat)
    requires a != b && a != 0 && b != 0
    ensures Run(Empty, [Allocate(s, a), Listen(s, a), Allocate(s, b), UnsetAll(a)]).Listens(a, s)
  {
    var one := Apply(Empty, Allocate(s, a));
    var two := Apply(one, Listen(s, a));
    var three := Apply(two, Allocate(s, b));
    assert !three.Related(a, s) && three.Listens(a, s);
    var four := Apply(three, UnsetAll(a));
    assert four.Listens(a, s);
    assert Run(four, []) == four;
    assert Run(three, [UnsetAll(a)]) == four;
    assert Run(two, [Allocate(s, b), UnsetAll(a)]) == four;
    assert Run(one, [Listen(s, a), Allocate(s, b), UnsetAll(a)]) == four;
  }

  // ----- Owners

  /** The related sectors are exactly those the id owns. */
  ghost predicate Exact(ix: Index, id: nat) { forall s :: ix.Related(id, s) <==> ix.Owns(id, s) }

  /** The id listens only where it owns. */
  predicate OwnListen(ix: Index, op: Op, id: nat) { op.Listen? && op.id == id ==> ix.Owns(id, op.s) }

  /** Exactly those operations keep the related sectors exact. */
  lemma StepKeepsExactIff(ix: Index, op: Op, id: nat)
    requires Exact(ix, id) && id != 0
    ensures Exact(Apply(ix, op), id) <==> OwnListen(ix, op, id)
  {
    if OwnListen(ix, op, id) {
      forall s: nat
        ensures Apply(ix, op).Related(id, s) <==> Apply(ix, op).Owns(id, s)
      {
        assert ix.Related(id, s) <==> ix.Owns(id, s);
      }
    } else {
      assert Apply(ix, op).Related(id, op.s) && !Apply(ix, op).Owns(id, op.s);
    }
  }

  /** All along the run. */
  ghost predicate ExactThroughout(ix: Index, ops: seq<Op>, id: nat)
    decreases |ops|
  {
    Exact(ix, id) && (ops == [] || ExactThroughout(Apply(ix, ops[0]), ops[1..], id))
  }

  predicate OwnListens(ix: Index, ops: seq<Op>, id: nat)
    decreases |ops|
  {
    ops == [] || (OwnListen(ix, ops[0], id) && OwnListens(Apply(ix, ops[0]), ops[1..], id))
  }

  /** The related sectors of an id are its owned ones all along a run if and only
      if it never starts to listen to a sector it does not own. */
  lemma {:induction false} OwnershipIsExact(ix: Index, ops: seq<Op>, id: nat)
    requires Exact(ix, id) && id != 0
    ensures ExactThroughout(ix, ops, id) <==> OwnListens(ix, ops, id)
    ensures OwnListens(ix, ops, id) ==> Exact(Run(ix, ops), id)
    decreases |ops|
  {
    if ops != [] {
      StepKeepsExactIff(ix, ops[0], id);
      if OwnListen(ix, ops[0], id) {
        OwnershipIsExact(Apply(ix, ops[0]), ops[1..], id);
      }
    }
  }

  predicate NeverListens(id: nat, ops: seq<Op>) { forall i :: 0 <= i < |ops| ==> ops[i].Listen? ==> ops[i].id != id }

  /** In particular for an id that only ever owns. */
  lemma {:induction false} OwnerOnlyIsExact(ix: Index, ops: seq<Op>, id: nat)
    requires Exact(ix, id) && id != 0 && NeverListens(id, ops)
    ensures Exact(Run(ix, ops), id)
    decreases |ops|
  {
    if ops != [] {
      StepKeepsExactIff(ix, ops[0], id);
      OwnerOnlyIsExact(Apply(ix, ops[0]), ops[1..], id);
    }
  }

  /** A session that listened to a sector it does not own and left keeps it related. */
  lemma FormerListenerStaysRelated(s: nat, id: nat)
    ensures var ix := Run(Empty, [Listen(s, id), Unlisten(s, id)]);
            ix.Related(id, s) && !ix.Owns(id, s) && !ix.Listens(id, s)
  {
    var one := Apply(Empty, Listen(s, id));
    var two := Apply(one, Unlisten(s, id));
    assert Run(two, []) == two;
    assert Run(one, [Unlisten(s, id)]) == two;
  }

  // ----- Routing

  /** The sessions SendToSector posts to. */
  function Recipients(ix: Index, s: nat): set<nat> {
    set id | id in ix.Sector(s).listening && ix.Session(id).session != 0
  }
}
