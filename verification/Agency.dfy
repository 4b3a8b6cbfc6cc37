/** The agency's client state machine: accept, spawn answer, promotion, close,
    and the object cache the play servers keep up to date. */
module Agency {
  import opened SectorPosting
  import G = SectorGeometry

  /** Universal session ids of clients start here; server ids stay below. */
  const FIRST_CLIENT := 100_000_000_000_001

  type Fixture = G.Fixture

  /** What operator[] of a sector's cache inserts. */
  const DefaultFixture := G.Fixture(0.0, 0.0, 0.0, 0.0, 500.0, G.Up, G.In, G.Max, false, 0, 0)

  /** A client's session pointer and its user data; 0 is user data never set. */
  datatype Client = Client(session: nat, sectorId: nat, objectId: nat)

  datatype State = State(
    index: Index,
    clients: map<nat, Client>,
    objects: map<nat, nat>,
    cache: map<nat, map<nat, Fixture>>,
    nextId: nat)
  {
    function Cached(s: nat): map<nat, Fixture> { if s in cache then cache[s] else map[] }

    function CachedFixture(s: nat, obj: nat): Fixture {
      if obj in Cached(s) then Cached(s)[obj] else DefaultFixture
    }

    predicate Entered(c: nat) { c in clients && clients[c].objectId != 0 }
  }

  datatype Event =
    | Accept(initial: nat, session: nat)
    | SpawnAnswer(user: nat, sector: nat, obj: nat, fixture: Fixture)
    | Promote(obj: nat, origin: nat, target: nat, fixture: Fixture)
    | Close(id: nat)
    | Put(sector: nat, obj: nat, fixture: Fixture)
    | Remove(sector: nat, obj: nat)
    | Server(op: Op)

  // ----- What the handlers do

  function Stored(a: State, s: nat, obj: nat, fixture: Fixture): State {
    a.(cache := a.cache[s := a.Cached(s)[obj := fixture]])
  }

  function Accepted(a: State, initial: nat, session: nat): State {
    var id := a.nextId;
    var asked := OwnerAsked(a.index, initial);
    a.(nextId := id + 1,
       clients := a.clients[id := Client(session, 0, 0)],
       index := if OwnerSession(a.index, initial) == 0 then asked else WithSession(asked, id, session))
  }

  function Spawned(a: State, user: nat, s: nat, obj: nat, fixture: Fixture): State {
    var stored := Stored(a, s, obj, fixture);
    if user !in a.clients then stored
    else stored.(clients := a.clients[user := a.clients[user].(sectorId := s, objectId := obj)],
                 objects := a.objects[obj := user],
                 index := Listened(a.index, s, user))
  }

  function Moved(a: State, user: nat, s: nat): State {
    if user !in a.clients then a
    else a.(clients := a.clients[user := a.clients[user].(sectorId := s)],
            index := Listened(Unlistened(a.index, user), s, user))
  }

  function Promoted(a: State, obj: nat, origin: nat, target: nat, fixture: Fixture): State {
    var asked := a.(index := OwnerAsked(OwnerAsked(a.index, target), origin));
    if OwnerSession(a.index, target) == 0 || OwnerSession(a.index, origin) == 0 then asked
    else
      var found := asked.(cache := a.cache[origin := a.Cached(origin)]);
      if obj !in a.Cached(origin) then found
      else
        var stored := Stored(found, target, obj, fixture);
        if obj !in a.objects then stored else Moved(stored, a.objects[obj], target)
  }

  /** Where a promotion moves a client, the client's sector is the origin. */
  predicate PromotionAsserts(a: State, obj: nat, origin: nat, target: nat) {
    && OwnerSession(a.index, target) != 0 && OwnerSession(a.index, origin) != 0
    && obj in a.Cached(origin) && obj in a.objects && a.objects[obj] in a.clients
    ==> a.clients[a.objects[obj]].sectorId == origin
  }

  function Closed(a: State, id: nat): State {
    if id !in a.clients then a
    else
      var obj := a.clients[id].objectId;
      a.(clients := a.clients - {id},
         objects := if obj == 0 then a.objects else a.objects - {obj},
         index := if obj == 0 then Unset(a.index, id) else Unset(Unset(a.index, id), id))
  }

  function Handle(a: State, e: Event): State {
    match e
    case Accept(initial, session) => Accepted(a, initial, session)
    case SpawnAnswer(user, s, obj, fixture) => Spawned(a, user, s, obj, fixture)
    case Promote(obj, origin, target, fixture) => Promoted(a, obj, origin, target, fixture)
    case Close(id) => Closed(a, id)
    case Put(s, obj, fixture) => Stored(a, s, obj, fixture)
    case Remove(s, obj) => a.(cache := a.cache[s := a.Cached(s) - {obj}])
    case Server(op) => a.(index := SectorPosting.Apply(a.index, op))
  }

  /** Server operations name servers. */
  predicate ServerOp(op: Op) {
    match op
    case Unlisten(_, _) => false
    case AskOwner(_) => true
    case _ => op.id < FIRST_CLIENT
  }

  /** What a spawn answer must bring: an object of its own for a client that has
      none, or the client's own object where it already is. */
  predicate FreshSpawn(a: State, user: nat, s: nat, obj: nat) {
    user in a.clients ==>
      var c := a.clients[user];
      obj != 0 && if c.objectId == 0 then obj !in a.objects else c.objectId == obj && c.sectorId == s
  }

  predicate Allowed(a: State, e: Event) {
    match e
    case SpawnAnswer(user, s, obj, _) => FreshSpawn(a, user, s, obj)
    case Server(op) => ServerOp(op)
    case _ => true
  }

  // ----- The invariant

  /** Each entered client listens to exactly its sector, and nobody else at all. */
  ghost predicate ListensRight(a: State) {
    forall c, s :: c >= FIRST_CLIENT ==> (a.index.Listens(c, s) <==> a.Entered(c) && a.clients[c].sectorId == s)
  }

  /** Objects and sessions name each other. */
  ghost predicate ObjectsRight(a: State) {
    && (forall o :: o in a.objects ==> a.objects[o] in a.clients && a.clients[a.objects[o]].objectId == o != 0)
    && (forall c :: a.Entered(c) ==> a.clients[c].objectId in a.objects && a.objects[a.clients[c].objectId] == c)
  }

  ghost predicate IndexRight(ix: Index) {
    && Pointers(ix)
    && (forall c, s :: c >= FIRST_CLIENT && ix.Listens(c, s) ==> ix.Related(c, s))
    && (forall s :: ix.Sector(s).owner < FIRST_CLIENT)
  }

  ghost predicate Consistent(a: State) {
    && a.nextId >= FIRST_CLIENT
    && (forall c :: c in a.clients ==> FIRST_CLIENT <= c < a.nextId)
    && IndexRight(a.index) && ListensRight(a) && ObjectsRight(a)
  }

  // ----- The index under one operation

  function Step(ix: Index, op: Op): Index { SectorPosting.Apply(ix, op) }

  /** Only servers are allocated sectors. */
  predicate OwnersOnly(op: Op) { op.Allocate? ==> op.id < FIRST_CLIENT }

  lemma IndexKept(ix: Index, op: Op)
    requires IndexRight(ix) && OwnersOnly(op)
    ensures IndexRight(Step(ix, op))
  {
    PointersKept(ix, op);
    forall c: nat, s: nat
      ensures c >= FIRST_CLIENT && Step(ix, op).Listens(c, s) ==> Step(ix, op).Related(c, s)
    {
      if c >= FIRST_CLIENT {
        ListenerKept(ix, op, c, s);
      }
    }
    forall s: nat
      ensures Step(ix, op).Sector(s).owner < FIRST_CLIENT
    {
      assert ix.Sector(s).owner < FIRST_CLIENT;
    }
  }

  lemma ListenerKept(ix: Index, op: Op, c: nat, s: nat)
    requires IndexRight(ix) && c >= FIRST_CLIENT
    ensures Step(ix, op).Listens(c, s) ==> Step(ix, op).Related(c, s)
  {
    assert ix.Listens(c, s) ==> ix.Related(c, s);
    assert op.Allocate? ==> ix.Sector(op.s).owner < FIRST_CLIENT;
  }

  /** Who listens after an operation. */
  predicate Hears(ix: Index, op: Op, c: nat, s: nat) {
    match op
    case Listen(t, id) => ix.Listens(c, s) || (c == id && s == t)
    case Unlisten(_, id) => ix.Listens(c, s) && c != id
    case UnsetAll(id) => ix.Listens(c, s) && c != id
    case _ => ix.Listens(c, s)
  }

  lemma ListensAfter(ix: Index, op: Op, c: nat, s: nat)
    requires IndexRight(ix) && c >= FIRST_CLIENT
    ensures Step(ix, op).Listens(c, s) <==> Hears(ix, op, c, s)
  {
    assert ix.Listens(c, s) ==> ix.Related(c, s);
  }

  // ----- Every event keeps the invariant

  ghost predicate SameListeners(ix: Index, after: Index) {
    IndexRight(after) && forall c, s :: c >= FIRST_CLIENT ==> (after.Listens(c, s) <==> ix.Listens(c, s))
  }

  lemma ServerStep(ix: Index, op: Op)
    requires IndexRight(ix) && OwnersOnly(op)
    requires (op.Listen? || op.UnsetAll?) ==> op.id < FIRST_CLIENT
    requires !op.Unlisten?
    ensures SameListeners(ix, Step(ix, op))
  {
    IndexKept(ix, op);
    forall c: nat, s: nat | c >= FIRST_CLIENT
      ensures Step(ix, op).Listens(c, s) <==> ix.Listens(c, s)
    {
      ListensAfter(ix, op, c, s);
    }
  }

  /** Nothing but the index changed, and no client's listening. */
  lemma IndexChange(a: State, ix: Index)
    requires Consistent(a) && SameListeners(a.index, ix)
    ensures Consistent(a.(index := ix))
  {
  }

  lemma CacheChange(a: State, cache: map<nat, map<nat, Fixture>>)
    requires Consistent(a)
    ensures Consistent(a.(cache := cache))
  {
  }

  lemma AcceptKeeps(a: State, initial: nat, session: nat)
    requires Consistent(a)
    ensures Consistent(Accepted(a, initial, session))
  {
    var id := a.nextId;
    var asked := Step(a.index, AskOwner(initial));
    ServerStep(a.index, AskOwner(initial));
    ServerStep(asked, Link(id, session));
    var b := a.(index := Accepted(a, initial, session).index);
    IndexChange(a, b.index);
    Arrived(b, session);
  }

  lemma Arrived(a: State, session: nat)
    requires Consistent(a)
    ensures Consistent(a.(nextId := a.nextId + 1, clients := a.clients[a.nextId := Client(session, 0, 0)]))
  {
    var b := a.(nextId := a.nextId + 1, clients := a.clients[a.nextId := Client(session, 0, 0)]);
    assert forall c :: b.Entered(c) <==> a.Entered(c);
  }

  lemma SpawnKeeps(a: State, user: nat, s: nat, obj: nat, fixture: Fixture)
    requires Consistent(a) && FreshSpawn(a, user, s, obj)
    ensures Consistent(Spawned(a, user, s, obj, fixture))
  {
    CacheChange(a, Stored(a, s, obj, fixture).cache);
    if user in a.clients {
      IndexKept(a.index, Listen(s, user));
      var b := Spawned(a, user, s, obj, fixture);
      forall c: nat, t: nat | c >= FIRST_CLIENT
        ensures b.index.Listens(c, t) <==> b.Entered(c) && b.clients[c].sectorId == t
      {
        ListensAfter(a.index, Listen(s, user), c, t);
        assert a.index.Listens(c, t) <==> a.Entered(c) && a.clients[c].sectorId == t;
      }
      assert ObjectsRight(b);
    }
  }

  lemma MoveKeeps(a: State, user: nat, s: nat)
    requires Consistent(a) && a.Entered(user)
    ensures Consistent(Moved(a, user, s))
  {
    var left := Step(a.index, Unlisten(s, user));
    IndexKept(a.index, Unlisten(s, user));
    IndexKept(left, Listen(s, user));
    var b := Moved(a, user, s);
    forall c: nat, t: nat | c >= FIRST_CLIENT
      ensures b.index.Listens(c, t) <==> b.Entered(c) && b.clients[c].sectorId == t
    {
      ListensAfter(a.index, Unlisten(s, user), c, t);
      ListensAfter(left, Listen(s, user), c, t);
      assert a.index.Listens(c, t) <==> a.Entered(c) && a.clients[c].sectorId == t;
    }
    assert ObjectsRight(b);
  }

  lemma PromoteKeeps(a: State, obj: nat, origin: nat, target: nat, fixture: Fixture)
    requires Consistent(a)
    ensures Consistent(Promoted(a, obj, origin, target, fixture))
  {
    var once := Step(a.index, AskOwner(target));
    ServerStep(a.index, AskOwner(target));
    ServerStep(once, AskOwner(origin));
    var asked := a.(index := Step(once, AskOwner(origin)));
    IndexChange(a, asked.index);
    var found := asked.(cache := a.cache[origin := a.Cached(origin)]);
    CacheChange(asked, found.cache);
    var stored := Stored(found, target, obj, fixture);
    CacheChange(found, stored.cache);
    if obj in a.objects {
      MoveKeeps(stored, a.objects[obj], target);
    }
  }

  /** A promotion that goes through puts the object into the target's cache, where
      the origin still has it, and leaves every other cached object alone. */
  lemma PromotionCopies(a: State, obj: nat, origin: nat, target: nat, fixture: Fixture)
    requires OwnerSession(a.index, target) != 0 && OwnerSession(a.index, origin) != 0 && obj in a.Cached(origin)
    ensures var b := Promoted(a, obj, origin, target, fixture);
            && obj in b.Cached(target) && b.Cached(target)[obj] == fixture
            && obj in b.Cached(origin)
            && forall s: nat, o: nat :: !(s == target && o == obj) ==>
                 (o in b.Cached(s) <==> o in a.Cached(s)) && (o in a.Cached(s) ==> b.Cached(s)[o] == a.Cached(s)[o])
  {
  }

  lemma CloseKeeps(a: State, id: nat)
    requires Consistent(a)
    ensures Consistent(Closed(a, id))
  {
    if id in a.clients {
      var once := Step(a.index, Op.UnsetAll(id));
      IndexKept(a.index, Op.UnsetAll(id));
      IndexKept(once, Op.UnsetAll(id));
      var b := Closed(a, id);
      forall c: nat, t: nat | c >= FIRST_CLIENT
        ensures b.index.Listens(c, t) <==> b.Entered(c) && b.clients[c].sectorId == t
      {
        ListensAfter(a.index, Op.UnsetAll(id), c, t);
        ListensAfter(once, Op.UnsetAll(id), c, t);
        assert a.index.Listens(c, t) <==> a.Entered(c) && a.clients[c].sectorId == t;
      }
      assert ObjectsRight(b);
    }
  }

  lemma StepKeeps(a: State, e: Event)
    requires Consistent(a) && Allowed(a, e)
    ensures Consistent(Handle(a, e))
  {
    match e
    case Accept(initial, session) => AcceptKeeps(a, initial, session);
    case SpawnAnswer(user, s, obj, fixture) => SpawnKeeps(a, user, s, obj, fixture);
    case Promote(obj, origin, target, fixture) => PromoteKeeps(a, obj, origin, target, fixture);
    case Close(id) => CloseKeeps(a, id);
    case Put(s, obj, fixture) => CacheChange(a, Handle(a, e).cache);
    case Remove(s, obj) => CacheChange(a, Handle(a, e).cache);
    case Server(op) =>
      ServerStep(a.index, op);
      IndexChange(a, Handle(a, e).index);
  }

  /** The condition on spawn answers is exact. */
  lemma SpawnKeepsOnlyIf(a: State, user: nat, s: nat, obj: nat, fixture: Fixture)
    requires Consistent(a) && Consistent(Spawned(a, user, s, obj, fixture))
    ensures FreshSpawn(a, user, s, obj)
  {
    if user in a.clients {
      var b := Spawned(a, user, s, obj, fixture);
      var c := a.clients[user];
      ListensAfter(a.index, Listen(s, user), user, s);
      assert b.index.Listens(user, s);
      assert obj != 0;
      if c.objectId == 0 {
        assert forall other :: b.Entered(other) && b.clients[other].objectId == obj ==> other == user;
        assert forall other :: a.Entered(other) && a.clients[other].objectId == obj ==> b.Entered(other);
      } else {
        ListensAfter(a.index, Listen(s, user), user, c.sectorId);
        assert a.index.Listens(user, c.sectorId);
        assert b.index.Listens(user, c.sectorId);
        assert a.objects[c.objectId] == user;
        assert c.objectId in b.objects;
        assert b.clients[user].objectId == obj;
      }
    }
  }

  // ----- Whole runs

  function Run(a: State, es: seq<Event>): State
    decreases |es|
  {
    if es == [] then a else Run(Handle(a, es[0]), es[1..])
  }

  predicate AllowedRun(a: State, es: seq<Event>)
    decreases |es|
  {
    es == [] || (Allowed(a, es[0]) && AllowedRun(Handle(a, es[0]), es[1..]))
  }

  const Start := State(Empty, map[], map[], map[], FIRST_CLIENT)

  lemma {:induction false} RunKeeps(a: State, es: seq<Event>)
    requires Consistent(a) && AllowedRun(a, es)
    ensures Consistent(Run(a, es))
    decreases |es|
  {
    if es != [] {
      StepKeeps(a, es[0]);
      RunKeeps(Handle(a, es[0]), es[1..]);
    }
  }

  // ----- Who is linked

  /** The open clients whose accept found a session for the owner of the initial
      sector, with the session they came with; kept from the messages and that
      answer alone. */
  function Links(a: State, links: map<nat, nat>, e: Event): map<nat, nat> {
    if e.Accept? && OwnerSession(a.index, e.initial) != 0 then links[a.nextId := e.session]
    else if e.Close? then links - {e.id}
    else links
  }

  function LinksRun(a: State, links: map<nat, nat>, es: seq<Event>): map<nat, nat>
    decreases |es|
  {
    if es == [] then links else LinksRun(Handle(a, es[0]), Links(a, links, es[0]), es[1..])
  }

  function LinkOf(links: map<nat, nat>, c: nat): nat { if c in links then links[c] else 0 }

  /** Exactly the recorded clients are linked, each to the session it came with. */
  ghost predicate LinkedRight(a: State, links: map<nat, nat>) {
    && (forall c :: c >= FIRST_CLIENT ==> a.index.Session(c).session == LinkOf(links, c))
    && (forall c :: c in links ==> c in a.clients && a.clients[c].session == links[c])
  }

  /** Only linking, unlinking and unsetting an id change its session pointer. */
  lemma SessionAfter(ix: Index, op: Op, c: nat)
    requires op.Link? || op.Unlink? || op.UnsetAll? ==> op.id != c
    ensures Step(ix, op).Session(c).session == ix.Session(c).session
  {
  }

  lemma MoveKeepsLink(ix: Index, user: nat, s: nat, c: nat)
    ensures Listened(Unlistened(ix, user), s, user).Session(c).session == ix.Session(c).session
  {
    SessionAfter(ix, Unlisten(s, user), c);
    SessionAfter(Step(ix, Unlisten(s, user)), Listen(s, user), c);
  }

  lemma PromoteKeepsLink(a: State, obj: nat, origin: nat, target: nat, fixture: Fixture, c: nat)
    ensures Promoted(a, obj, origin, target, fixture).index.Session(c).session == a.index.Session(c).session
  {
    var once := Step(a.index, AskOwner(target));
    var twice := Step(once, AskOwner(origin));
    SessionAfter(a.index, AskOwner(target), c);
    SessionAfter(once, AskOwner(origin), c);
    if obj in a.objects {
      MoveKeepsLink(twice, a.objects[obj], target, c);
    }
  }

  lemma LinkKept(a: State, links: map<nat, nat>, e: Event, c: nat)
    requires Consistent(a) && Allowed(a, e) && LinkedRight(a, links) && c >= FIRST_CLIENT
    ensures Handle(a, e).index.Session(c).session == LinkOf(Links(a, links, e), c)
  {
    assert a.index.Session(c).session == LinkOf(links, c);
    match e
    case Accept(initial, session) => SessionAfter(a.index, AskOwner(initial), c);
    case SpawnAnswer(user, s, _, _) => SessionAfter(a.index, Listen(s, user), c);
    case Promote(obj, origin, target, fixture) => PromoteKeepsLink(a, obj, origin, target, fixture, c);
    case Close(id) =>
    case Put(_, _, _) =>
    case Remove(_, _) =>
    case Server(op) => SessionAfter(a.index, op, c);
  }

  lemma ClientSessionKept(a: State, links: map<nat, nat>, e: Event, c: nat)
    requires Consistent(a) && LinkedRight(a, links) && c in Links(a, links, e)
    ensures c in Handle(a, e).clients && Handle(a, e).clients[c].session == Links(a, links, e)[c]
  {
    assert c in links ==> c in a.clients && a.clients[c].session == links[c];
    assert a.nextId !in a.clients;
  }

  lemma {:induction false} RunLinks(a: State, links: map<nat, nat>, es: seq<Event>)
    requires Consistent(a) && AllowedRun(a, es) && LinkedRight(a, links)
    ensures LinkedRight(Run(a, es), LinksRun(a, links, es))
    decreases |es|
  {
    if es != [] {
      var b, after := Handle(a, es[0]), Links(a, links, es[0]);
      forall c: nat | c >= FIRST_CLIENT
        ensures b.index.Session(c).session == LinkOf(after, c)
      {
        LinkKept(a, links, es[0], c);
      }
      forall c | c in after
        ensures c in b.clients && b.clients[c].session == after[c]
      {
        ClientSessionKept(a, links, es[0], c);
      }
      StepKeeps(a, es[0]);
      RunLinks(b, after, es[1..]);
    }
  }

  /** Whatever mix of accepts, spawns, promotions, closes and server traffic came
      before: an entered client listens to its SectorId and nothing else, its
      object leads back to it, a client that is not entered or is closed listens
      nowhere. */
  lemma EveryRunIsRight(es: seq<Event>, c: nat)
    requires AllowedRun(Start, es) && c >= FIRST_CLIENT
    ensures var a := Run(Start, es);
            && (forall s :: a.index.Listens(c, s) <==> a.Entered(c) && a.clients[c].sectorId == s)
            && (a.Entered(c) ==> a.clients[c].objectId in a.objects && a.objects[a.clients[c].objectId] == c)
            && (forall o :: o in a.objects && a.objects[o] == c ==> a.Entered(c) && a.clients[c].objectId == o)
  {
    RunKeeps(Start, es);
  }

  /** And a client hears what its sector hears: it is linked, to the session it
      was accepted with, exactly while it is open and its accept found a session
      for the initial sector's owner; then a broadcast to a sector reaches it if
      and only if it has entered and that is its sector, and no broadcast reaches
      any other client. */
  lemma EveryBroadcastIsRight(es: seq<Event>, c: nat, s: nat)
    requires AllowedRun(Start, es) && c >= FIRST_CLIENT
    ensures var a, links := Run(Start, es), LinksRun(Start, map[], es);
            && (c in links ==> c in a.clients && a.clients[c].session == links[c] == a.index.Session(c).session)
            && (c !in links ==> a.index.Session(c).session == 0)
            && (c in Recipients(a.index, s) <==>
                  LinkOf(links, c) != 0 && a.Entered(c) && a.clients[c].sectorId == s)
  {
    StartConsistent();
    RunLinks(Start, map[], es);
    EveryRunIsRight(es, c);
    var a, links := Run(Start, es), LinksRun(Start, map[], es);
    assert a.index.Session(c).session == LinkOf(links, c);
    assert a.index.Listens(c, s) <==> a.Entered(c) && a.clients[c].sectorId == s;
  }

  // ----- Where the last message took an object

  /** Does a promotion get past its guards and move a client? */
  predicate Moves(a: State, e: Event) {
    && e.Promote? && OwnerSession(a.index, e.target) != 0 && OwnerSession(a.index, e.origin) != 0
    && e.obj in a.Cached(e.origin) && e.obj in a.objects
  }

  /** The sector of each object's latest spawn answer or passed promotion, kept from
      the messages alone. */
  function Tracked(a: State, seen: map<nat, nat>, e: Event): map<nat, nat> {
    if e.SpawnAnswer? && e.user in a.clients then seen[e.obj := e.sector]
    else if Moves(a, e) then seen[e.obj := e.target]
    else seen
  }

  function TrackedRun(a: State, seen: map<nat, nat>, es: seq<Event>): map<nat, nat>
    decreases |es|
  {
    if es == [] then seen else TrackedRun(Handle(a, es[0]), Tracked(a, seen, es[0]), es[1..])
  }

  /** Each client's SectorId is where the last message took its object. */
  ghost predicate Follows(a: State, seen: map<nat, nat>) {
    forall o :: FollowsAt(a, seen, o)
  }

  predicate FollowsAt(a: State, seen: map<nat, nat>, o: nat) {
    o in a.objects ==> o in seen && a.objects[o] in a.clients && a.clients[a.objects[o]].sectorId == seen[o]
  }

  lemma FollowsKeptAt(a: State, seen: map<nat, nat>, e: Event, o: nat)
    requires Consistent(a) && Allowed(a, e) && FollowsAt(a, seen, o)
    ensures FollowsAt(Handle(a, e), Tracked(a, seen, e), o)
  {
    assert o in a.objects ==> a.objects[o] in a.clients && a.clients[a.objects[o]].objectId == o;
    match e
    case SpawnAnswer(user, _, _, _) => assert a.Entered(user) ==> a.objects[a.clients[user].objectId] == user;
    case Promote(obj, _, _, _) => assert obj in a.objects ==> a.clients[a.objects[obj]].objectId == obj;
    case _ =>
  }

  lemma FollowsKept(a: State, seen: map<nat, nat>, e: Event)
    requires Consistent(a) && Allowed(a, e) && Follows(a, seen)
    ensures Follows(Handle(a, e), Tracked(a, seen, e))
  {
    forall o: nat
      ensures FollowsAt(Handle(a, e), Tracked(a, seen, e), o)
    {
      FollowsKeptAt(a, seen, e, o);
    }
  }

  lemma {:induction false} RunFollows(a: State, seen: map<nat, nat>, es: seq<Event>)
    requires Consistent(a) && AllowedRun(a, es) && Follows(a, seen)
    ensures Follows(Run(a, es), TrackedRun(a, seen, es))
    decreases |es|
  {
    if es != [] {
      FollowsKept(a, seen, es[0]);
      StepKeeps(a, es[0]);
      RunFollows(Handle(a, es[0]), Tracked(a, seen, es[0]), es[1..]);
    }
  }

  /** After any allowed run, the assertion in a promotion that moves a client holds
      if and only if its origin is where the last message took the object. */
  lemma PromotionAssertsIff(es: seq<Event>, e: Event)
    requires AllowedRun(Start, es) && Moves(Run(Start, es), e)
    ensures e.obj in TrackedRun(Start, map[], es)
    ensures PromotionAsserts(Run(Start, es), e.obj, e.origin, e.target)
            <==> e.origin == TrackedRun(Start, map[], es)[e.obj]
  {
    StartConsistent();
    RunKeeps(Start, es);
    RunFollows(Start, map[], es);
    assert FollowsAt(Run(Start, es), TrackedRun(Start, map[], es), e.obj);
  }

  /** Because the origin keeps the object cached, the same promotion order can be
      given again: a second promotion from the old origin passes every guard, is
      allowed, and trips the assertion. */
  lemma RepeatedOriginTrips(a: State, obj: nat, s: nat, t: nat, u: nat, f: Fixture)
    requires Consistent(a) && Moves(a, Promote(obj, s, t, f)) && OwnerSession(a.index, u) != 0 && s != t
    ensures var b := Handle(a, Promote(obj, s, t, f));
            && Consistent(b) && Moves(b, Promote(obj, s, u, f)) && Allowed(b, Promote(obj, s, u, f))
            && !PromotionAsserts(b, obj, s, u)
  {
    var b := Handle(a, Promote(obj, s, t, f));
    StepKeeps(a, Promote(obj, s, t, f));
    PromotionCopies(a, obj, s, t, f);
    var user := a.objects[obj];
    assert b.clients[user].sectorId == t;
    OwnerSessionKept(a, obj, s, t, f, s);
    OwnerSessionKept(a, obj, s, t, f, u);
  }

  /** A promotion does not change who owns what over which session. */
  lemma OwnerSessionKept(a: State, obj: nat, s: nat, t: nat, f: Fixture, x: nat)
    requires Consistent(a)
    ensures OwnerSession(Promoted(a, obj, s, t, f).index, x) == OwnerSession(a.index, x)
  {
    var once := OwnerAsked(a.index, t);
    OwnerAskedTwice(a.index, t, x);
    OwnerAskedTwice(once, s, x);
    if obj in a.objects {
      MoveKeepsSessions(OwnerAsked(once, s), a.objects[obj], t, x);
    }
  }

  lemma MoveKeepsSessions(ix: Index, user: nat, t: nat, x: nat)
    ensures OwnerSession(Listened(Unlistened(ix, user), t, user), x) == OwnerSession(ix, x)
  {
  }

  lemma {:induction false} RunAppend(a: State, es: seq<Event>, e: Event)
    ensures Run(a, es + [e]) == Handle(Run(a, es), e)
    ensures AllowedRun(a, es + [e]) <==> AllowedRun(a, es) && Allowed(Run(a, es), e)
    decreases |es|
  {
    if es == [] {
      assert (es + [e])[1..] == [];
    } else {
      assert (es + [e])[1..] == es[1..] + [e];
      RunAppend(Handle(a, es[0]), es[1..], e);
    }
  }

  // ----- What the caches hold

  /** The latest news of each object in each sector, kept from the messages alone:
      a put, a spawn answer or a promotion past its guards brings a fixture, a
      removal takes it away. */
  function News(a: State, news: map<(nat, nat), Fixture>, e: Event): map<(nat, nat), Fixture> {
    match e
    case Put(s, obj, fixture) => news[(s, obj) := fixture]
    case SpawnAnswer(_, s, obj, fixture) => news[(s, obj) := fixture]
    case Remove(s, obj) => news - {(s, obj)}
    case Promote(obj, origin, target, fixture) =>
      if OwnerSession(a.index, target) != 0 && OwnerSession(a.index, origin) != 0 && (origin, obj) in news
      then news[(target, obj) := fixture] else news
    case _ => news
  }

  function NewsRun(a: State, news: map<(nat, nat), Fixture>, es: seq<Event>): map<(nat, nat), Fixture>
    decreases |es|
  {
    if es == [] then news else NewsRun(Handle(a, es[0]), News(a, news, es[0]), es[1..])
  }

  predicate CachedAs(a: State, news: map<(nat, nat), Fixture>, s: nat, obj: nat) {
    && (obj in a.Cached(s) <==> (s, obj) in news)
    && (obj in a.Cached(s) ==> a.Cached(s)[obj] == news[(s, obj)])
  }

  lemma NewsKept(a: State, news: map<(nat, nat), Fixture>, e: Event, s: nat, obj: nat)
    requires CachedAs(a, news, s, obj) && (e.Promote? ==> CachedAs(a, news, e.origin, e.obj))
    ensures CachedAs(Handle(a, e), News(a, news, e), s, obj)
  {
    if e.Promote? && OwnerSession(a.index, e.target) != 0 && OwnerSession(a.index, e.origin) != 0
       && e.obj in a.Cached(e.origin) {
      PromotionCopies(a, e.obj, e.origin, e.target, e.fixture);
    }
  }

  /** After every run, allowed or not, a sector's cache holds exactly the objects
      whose latest news brought a fixture, with that fixture. */
  lemma {:induction false} RunCaches(a: State, news: map<(nat, nat), Fixture>, es: seq<Event>)
    requires forall s, obj :: CachedAs(a, news, s, obj)
    ensures forall s, obj :: CachedAs(Run(a, es), NewsRun(a, news, es), s, obj)
    decreases |es|
  {
    if es != [] {
      forall s: nat, obj: nat
        ensures CachedAs(Handle(a, es[0]), News(a, news, es[0]), s, obj)
      {
        NewsKept(a, news, es[0], s, obj);
      }
      RunCaches(Handle(a, es[0]), News(a, news, es[0]), es[1..]);
    }
  }

  /** A play server g with a session, and sectors s, t and u. */
  function ServerEvents(g: nat, session: nat, s: nat, t: nat, u: nat): seq<Event> {
    [] + [Server(Link(g, session))] + [Server(Allocate(s, g))] + [Server(Allocate(t, g))] + [Server(Allocate(u, g))]
  }

  lemma ServersReady(g: nat, session: nat, s: nat, t: nat, u: nat)
    requires 0 < g < FIRST_CLIENT && session != 0
    ensures var a := Run(Start, ServerEvents(g, session, s, t, u));
            && AllowedRun(Start, ServerEvents(g, session, s, t, u))
            && a.clients == map[] && a.objects == map[] && a.cache == map[] && a.nextId == FIRST_CLIENT
            && OwnerSession(a.index, s) != 0 && OwnerSession(a.index, t) != 0 && OwnerSession(a.index, u) != 0
            && a.index.Sector(s).owner == g && a.index.Sector(t).owner == g && a.index.Sector(u).owner == g
  {
    var e1 := [] + [Server(Link(g, session))];
    var e2 := e1 + [Server(Allocate(s, g))];
    var e3 := e2 + [Server(Allocate(t, g))];
    RunAppend(Start, [], Server(Link(g, session)));
    RunAppend(Start, e1, Server(Allocate(s, g)));
    RunAppend(Start, e2, Server(Allocate(t, g)));
    RunAppend(Start, e3, Server(Allocate(u, g)));
    var a1 := Run(Start, e1);
    assert a1.index.Session(g).session == session;
    AllocateGives(a1.index, s, g);
    AllocateGives(Run(Start, e2).index, t, g);
    AllocateGives(Run(Start, e3).index, u, g);
  }

  lemma AllocateGives(ix: Index, s: nat, g: nat)
    ensures var after := Allocated(ix, s, g);
            && after.Session(g).session == ix.Session(g).session && after.Sector(s).owner == g
            && forall x :: x != s ==> after.Sector(x).owner == ix.Sector(x).owner
  {
  }

  /** The run of two promotions from one origin, from the start. */
  lemma RepeatedOriginReachable(g: nat, session: nat, s: nat, t: nat, u: nat, client: nat, o: nat, f: Fixture)
    requires 0 < g < FIRST_CLIENT && session != 0 && o != 0 && s != t
    ensures var es := ServerEvents(g, session, s, t, u) + [Accept(s, client)] + [SpawnAnswer(FIRST_CLIENT, s, o, f)]
                      + [Promote(o, s, t, f)];
            && AllowedRun(Start, es) && Moves(Run(Start, es), Promote(o, s, u, f))
            && !PromotionAsserts(Run(Start, es), o, s, u)
  {
    var e0 := ServerEvents(g, session, s, t, u);
    var e1 := e0 + [Accept(s, client)];
    var e2 := e1 + [SpawnAnswer(FIRST_CLIENT, s, o, f)];
    ServersReady(g, session, s, t, u);
    RunAppend(Start, e0, Accept(s, client));
    RunAppend(Start, e1, SpawnAnswer(FIRST_CLIENT, s, o, f));
    RunAppend(Start, e2, Promote(o, s, t, f));
    EnteredMoves(Run(Start, e0), s, t, client, o, f);
    EnteredMoves(Run(Start, e0), s, u, client, o, f);
    StartConsistent();
    RunKeeps(Start, e2);
    RepeatedOriginTrips(Run(Start, e2), o, s, t, u, f);
  }

  lemma EnteredMoves(a: State, s: nat, t: nat, client: nat, o: nat, f: Fixture)
    requires a.clients == map[] && a.objects == map[] && a.cache == map[] && a.nextId == FIRST_CLIENT && o != 0
    requires OwnerSession(a.index, s) != 0 && OwnerSession(a.index, t) != 0 && a.index.Sector(s).owner < FIRST_CLIENT
    requires a.index.Sector(t).owner < FIRST_CLIENT
    ensures var b := Handle(Handle(a, Accept(s, client)), SpawnAnswer(FIRST_CLIENT, s, o, f));
            && FreshSpawn(Handle(a, Accept(s, client)), FIRST_CLIENT, s, o)
            && Moves(b, Promote(o, s, t, f)) && OwnerSession(b.index, t) != 0
  {
    var accepted := Handle(a, Accept(s, client));
    OwnerAskedTwice(a.index, s, s);
    OwnerAskedTwice(a.index, s, t);
    assert OwnerSession(accepted.index, s) != 0 && OwnerSession(accepted.index, t) != 0;
    assert FIRST_CLIENT in accepted.clients;
  }

  // ----- The worker and its packet handler

  /** What a close asks the sector's owner to remove. */
  datatype RemoveRequest = NoRequest | RemoveCharacter(user: nat, obj: nat, sector: nat)

  class AgencyWorker {
    const initial: nat
    const posting: SectorPostingManager
    var clients: map<nat, Client>
    var objects: map<nat, nat>
    var cache: map<nat, map<nat, Fixture>>
    var nextId: nat

    ghost function Value(): State
      reads this, posting
    {
      State(posting.State(), clients, objects, cache, nextId)
    }

    ghost predicate Valid()
      reads this, posting
    {
      Consistent(Value())
    }

    constructor (initialSector: nat)
      ensures Valid() && fresh(posting) && Value() == Start && initial == initialSector
    {
      initial := initialSector;
      posting := new SectorPostingManager();
      clients, objects, cache, nextId := map[], map[], map[], FIRST_CLIENT;
    }

    /** The accepted session gets the next id; without a play server for the
        initial sector it is closed, otherwise linked and a spawn is asked for. */
    method OnClientAccepted(session: nat) returns (id: nat, spawnAsked: bool)
      requires Valid()
      modifies this, posting
      ensures Valid() && Value() == Accepted(old(Value()), initial, session)
      ensures id == old(nextId) && (spawnAsked <==> OwnerSession(old(posting.State()), initial) != 0)
    {
      AcceptKeeps(Value(), initial, session);
      id := nextId;
      nextId := nextId + 1;
      clients := clients[id := Client(session, 0, 0)];
      var play := posting.GetSectorOwnerSession(initial);
      spawnAsked := play != 0;
      if spawnAsked {
        posting.LinkSession(id, session);
      }
    }

    method OnPlaySpawnCharacterRes(user: nat, s: nat, obj: nat, sent: Fixture, now: int)
      returns (request: RemoveRequest)
      requires Valid()
      modifies this, posting
      ensures Value() == Spawned(old(Value()), user, s, obj, sent.(lastTransform := now))
      ensures Valid() <==> FreshSpawn(old(Value()), user, s, obj)
      ensures request == if user in old(clients) then NoRequest else RemoveCharacter(user, obj, s)
    {
      var fixture := sent.(lastTransform := now);
      SpawnIff(Value(), user, s, obj, fixture);
      cache := cache[s := (if s in cache then cache[s] else map[])[obj := fixture]];
      if user !in clients {
        return RemoveCharacter(user, obj, s);
      }
      clients := clients[user := clients[user].(sectorId := s, objectId := obj)];
      objects := objects[obj := user];
      posting.AddSectorListener(s, user);
      request := NoRequest;
    }

    /** Returns whether the assertion on the client's current sector holds. */
    method OnPlayPromoteObjectReq(obj: nat, origin: nat, target: nat, fixture: Fixture) returns (asserted: bool)
      requires Valid()
      modifies this, posting
      ensures Valid() && Value() == Promoted(old(Value()), obj, origin, target, fixture)
      ensures asserted == PromotionAsserts(old(Value()), obj, origin, target)
    {
      asserted := true;
      PromoteKeeps(Value(), obj, origin, target, fixture);
      OwnerAskedTwice(posting.State(), target, origin);
      var departing := posting.GetSectorOwnerSession(target);
      var arriving := posting.GetSectorOwnerSession(origin);
      if departing == 0 || arriving == 0 {
        return;
      }
      cache := cache[origin := if origin in cache then cache[origin] else map[]];
      if obj !in cache[origin] {
        return;
      }
      cache := cache[target := (if target in cache then cache[target] else map[])[obj := fixture]];
      if obj in objects {
        asserted := clients[objects[obj]].sectorId == origin;
        MoveClient(objects[obj], origin, target);
      }
    }

    method MoveClient(user: nat, origin: nat, target: nat)
      requires posting.Valid() && user in clients
      modifies this, posting
      ensures Value() == Moved(old(Value()), user, target)
    {
      clients := clients[user := clients[user].(sectorId := target)];
      posting.RemoveSectorListener(origin, user);
      posting.AddSectorListener(target, user);
    }

    /** OnSocketSessionClosed for a client: UnsetAll, the agency's own clean-up,
        then the session leaves the active ones. */
    method OnClientClosed(id: nat) returns (request: RemoveRequest)
      requires Valid() && id in clients
      modifies this, posting
      ensures Valid() && Value() == Closed(old(Value()), id)
      ensures var c := old(clients)[id];
              request == if c.objectId == 0 then NoRequest else RemoveCharacter(id, c.objectId, c.sectorId)
    {
      CloseKeeps(Value(), id);
      var cleaned := posting.UnsetAll(id);
      var c := clients[id];
      request := NoRequest;
      if c.objectId != 0 {
        request := RemoveCharacter(id, c.objectId, c.sectorId);
        cleaned := posting.UnsetAll(id);
        objects := objects - {c.objectId};
      }
      clients := clients - {id};
    }

    /** OnPlayObjectCreatePush. */
    method OnPlayObjectCreatePush(s: nat, obj: nat, fixture: Fixture, now: int)
      requires Valid()
      modifies this
      ensures Valid() && Value() == Stored(old(Value()), s, obj, fixture.(lastTransform := now))
    {
      CacheChange(Value(), Stored(Value(), s, obj, fixture.(lastTransform := now)).cache);
      cache := cache[s := (if s in cache then cache[s] else map[])[obj := fixture.(lastTransform := now)]];
    }

    /** OnPlayObjectMovePush: the cached fixture, or a new one, takes the move and
        keeps the rest. */
    method OnPlayObjectMovePush(s: nat, obj: nat, direction: G.Direction, x: real, y: real, now: int)
      requires Valid()
      modifies this
      ensures var was := old(Value()).CachedFixture(s, obj);
              var f := was.(x := x, y := y, direction := direction, lastTransform := now);
              Valid() && Value() == Stored(old(Value()), s, obj, f)
    {
      var objs: map<nat, Fixture> := if s in cache then cache[s] else map[];
      var f := if obj in objs then objs[obj] else DefaultFixture;
      f := f.(direction := direction, x := x, y := y, lastTransform := now);
      CacheChange(Value(), Stored(Value(), s, obj, f).cache);
      cache := cache[s := objs[obj := f]];
    }

    /** OnPlayObjectRemovePush and OnPlayRemoveCharacterRes. */
    method OnPlayObjectRemovePush(s: nat, obj: nat)
      requires Valid()
      modifies this
      ensures Valid() && Value() == Handle(old(Value()), Remove(s, obj))
    {
      CacheChange(Value(), Handle(Value(), Remove(s, obj)).cache);
      cache := cache[s := (if s in cache then cache[s] else map[]) - {obj}];
    }
  }

  lemma SpawnIff(a: State, user: nat, s: nat, obj: nat, fixture: Fixture)
    requires Consistent(a)
    ensures Consistent(Spawned(a, user, s, obj, fixture)) <==> FreshSpawn(a, user, s, obj)
  {
    if FreshSpawn(a, user, s, obj) {
      SpawnKeeps(a, user, s, obj, fixture);
    }
    if Consistent(Spawned(a, user, s, obj, fixture)) {
      SpawnKeepsOnlyIf(a, user, s, obj, fixture);
    }
  }

  /** The failing spawn is reachable: a client accepted and entered that is sent a
      second answer with another sector listens to both. */
  lemma SecondSpawnBreaks(initial: nat, session: nat, s: nat, t: nat, o: nat, p: nat, f: Fixture)
    requires s != t && o != 0 && p != 0
    ensures var u := FIRST_CLIENT;
            var es := [Accept(initial, session), SpawnAnswer(u, s, o, f)];
            var b := Run(Start, es);
            var after := Handle(b, SpawnAnswer(u, t, p, f));
            && AllowedRun(Start, es) && Consistent(b) && !Consistent(after)
            && after.clients[u].sectorId == t && after.index.Listens(u, s) && after.index.Listens(u, t)
  {
    var u := FIRST_CLIENT;
    var es := [Accept(initial, session), SpawnAnswer(u, s, o, f)];
    var a := Handle(Start, es[0]);
    var rest := es[1..];
    var b := Handle(a, rest[0]);
    StartConsistent();
    StepKeeps(Start, es[0]);
    assert u in a.clients && a.clients[u] == Client(session, 0, 0) && a.objects == map[];
    StepKeeps(a, rest[0]);
    assert rest[1..] == [] && Run(b, rest[1..]) == b && Run(a, rest) == b && Run(Start, es) == b;
    assert AllowedRun(b, rest[1..]) && AllowedRun(a, rest);
    SpawnIff(b, u, t, p, f);
    var after := Handle(b, SpawnAnswer(u, t, p, f));
    assert b.index.Listens(u, s);
    ListensAfter(b.index, Listen(t, u), u, s);
    ListensAfter(b.index, Listen(t, u), u, t);
  }

  lemma StartConsistent()
    ensures Consistent(Start)
  {
  }

  lemma OwnerAskedTwice(ix: Index, s: nat, t: nat)
    ensures OwnerSession(OwnerAsked(ix, s), t) == OwnerSession(ix, t)
  {
  }
}
