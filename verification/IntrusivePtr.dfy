/** IntrusivePtr and RefCounter: handles that share a counted object. */
module IntrusivePtr {
  import opened Counting

  // ----- Handles and objects as values

  /** What a handle holds. */
  datatype Ptr = None | To(o: nat)

  /** An object's counter, how many lifetimes began (counter leaving zero), and how
      often the deleter ran on it. */
  datatype Obj = Obj(count: int, lives: nat, deaths: nat)

  datatype State = State(handles: seq<Ptr>, objs: seq<Obj>)
  {
    predicate Closed() { forall h :: 0 <= h < |handles| ==> handles[h].To? ==> handles[h].o < |objs| }
  }

  function Retained(s: State, o: nat): State
    requires o < |s.objs|
  {
    var x := s.objs[o];
    s.(objs := s.objs[o := x.(count := x.count + 1, lives := x.lives + if x.count == 0 then 1 else 0)])
  }

  /** IntrusivePtr::Release. */
  function Released(s: State, h: nat): State
    requires s.Closed() && h < |s.handles|
  {
    if s.handles[h].None? then s
    else
      var o := s.handles[h].o;
      var x := s.objs[o];
      State(s.handles[h := None],
            s.objs[o := x.(count := x.count - 1, deaths := x.deaths + if x.count - 1 == 0 then 1 else 0)])
  }

  datatype Op =
    | Make(h: nat, o: nat)
    | Copy(h: nat, from: nat)
    | Move(h: nat, from: nat)
    | Release(h: nat)

  predicate Fits(s: State, op: Op) {
    match op
    case Make(h, o) => h < |s.handles| && s.handles[h].None? && o < |s.objs|
    case Copy(h, from) => h < |s.handles| && from < |s.handles|
    case Move(h, from) => h < |s.handles| && from < |s.handles|
    case Release(h) => h < |s.handles|
  }

  /** The operations in the order the code takes its steps; a copy or move
      constructor is the assignment to a handle that holds nothing. */
  function Step(s: State, op: Op): (r: State)
    requires s.Closed() && Fits(s, op)
    ensures r.Closed() && |r.handles| == |s.handles| && |r.objs| == |s.objs|
  {
    match op
    case Make(h, o) => Retained(s.(handles := s.handles[h := To(o)]), o)
    case Copy(h, from) =>
      if s.handles[from].None? then Released(s, h)
      else
        var dropped := Released(Retained(s, s.handles[from].o), h);
        dropped.(handles := dropped.handles[h := dropped.handles[from]])
    case Move(h, from) =>
      if s.handles[from].None? then Released(s, h)
      else
        var dropped := Released(s, h);
        dropped.(handles := dropped.handles[h := dropped.handles[from]][from := None])
    case Release(h) => Released(s, h)
  }

  /** What the handles hold after each operation: a copy or a move gives the source's
      object, a move empties the source, and onto itself either empties the handle. */
  lemma StepHandles(s: State, op: Op)
    requires s.Closed() && Fits(s, op)
    ensures Step(s, op).handles ==
            match op
            case Make(h, o) => s.handles[h := To(o)]
            case Copy(h, from) => s.handles[h := if h == from then None else s.handles[from]]
            case Move(h, from) => s.handles[h := s.handles[from]][from := None]
            case Release(h) => s.handles[h := None]
  {
  }

  // ----- The invariant

  function PointsTo(o: nat): Ptr -> bool { (p: Ptr) => p == To(o) }

  function Live(s: State, o: nat): nat { Count(s.handles, PointsTo(o)) }

  /** The counter is the number of handles, and every lifetime but the one going
      on has ended in one run of the deleter. */
  predicate Right(s: State, o: nat)
    requires o < |s.objs|
  {
    var x := s.objs[o];
    x.count == Live(s, o) && x.lives == x.deaths + if x.count > 0 then 1 else 0
  }

  predicate Inv(s: State) { s.Closed() && forall o :: 0 <= o < |s.objs| ==> Right(s, o) }

  function One(b: bool): nat { if b then 1 else 0 }

  lemma LiveAfterSet(handles: seq<Ptr>, h: nat, p: Ptr, o: nat)
    requires h < |handles|
    ensures Count(handles[h := p], PointsTo(o)) + One(handles[h] == To(o))
            == Count(handles, PointsTo(o)) + One(p == To(o))
  {
    CountUpdate(handles, h, p, PointsTo(o));
  }

  lemma HandleCounts(s: State, h: nat)
    requires h < |s.handles| && s.handles[h].To?
    ensures Live(s, s.handles[h].o) > 0
  {
    CountWitness(s.handles, PointsTo(s.handles[h].o));
  }

  lemma ReleaseKeeps(s: State, h: nat)
    requires Inv(s) && h < |s.handles|
    ensures Inv(Released(s, h))
  {
    if s.handles[h].To? {
      HandleCounts(s, h);
      forall o: nat | o < |s.objs|
        ensures Right(Released(s, h), o)
      {
        assert Right(s, o);
        LiveAfterSet(s.handles, h, None, o);
      }
    }
  }

  lemma MakeKeeps(s: State, h: nat, o: nat)
    requires Inv(s) && h < |s.handles| && s.handles[h].None? && o < |s.objs|
    ensures Inv(Step(s, Make(h, o)))
  {
    forall x: nat | x < |s.objs|
      ensures Right(Step(s, Make(h, o)), x)
    {
      assert Right(s, x);
      LiveAfterSet(s.handles, h, To(o), x);
    }
  }

  /** The exact condition: a handle that holds something is not copied to itself. */
  predicate Sane(s: State, op: Op)
    requires Fits(s, op)
  {
    op.Copy? && op.h == op.from ==> s.handles[op.h].None?
  }

  lemma CopyKeeps(s: State, h: nat, from: nat)
    requires Inv(s) && h < |s.handles| && from < |s.handles| && h != from && s.handles[from].To?
    ensures Inv(Step(s, Copy(h, from)))
  {
    var o, r := s.handles[from].o, Step(s, Copy(h, from));
    HandleCounts(s, from);
    if s.handles[h].To? {
      HandleCounts(s, h);
    }
    forall x: nat | x < |s.objs|
      ensures Right(r, x)
    {
      assert Right(s, x);
      LiveAfterSet(s.handles, h, To(o), x);
      assert r.handles == s.handles[h := To(o)];
    }
  }

  lemma MoveKeeps(s: State, h: nat, from: nat)
    requires Inv(s) && h < |s.handles| && from < |s.handles| && s.handles[from].To?
    ensures Inv(Step(s, Move(h, from)))
  {
    var dropped, r := Released(s, h), Step(s, Move(h, from));
    ReleaseKeeps(s, h);
    forall x: nat | x < |s.objs|
      ensures Right(r, x)
    {
      assert Right(dropped, x);
      var p := dropped.handles[from];
      LiveAfterSet(dropped.handles, h, p, x);
      LiveAfterSet(dropped.handles[h := p], from, None, x);
    }
  }

  /** A self copy keeps the counter and loses the handle. */
  lemma SelfCopyLeaks(s: State, h: nat)
    requires Inv(s) && h < |s.handles| && s.handles[h].To?
    ensures var o := s.handles[h].o; var r := Step(s, Copy(h, h));
            r.handles[h].None? && r.objs[o].count == Live(r, o) + 1 && !Inv(r)
  {
    var o, r := s.handles[h].o, Step(s, Copy(h, h));
    assert Right(s, o);
    HandleCounts(s, h);
    LiveAfterSet(s.handles, h, None, o);
    assert r.handles == s.handles[h := None];
    assert !Right(r, o);
  }

  /** A self move is a release. */
  lemma SelfMoveReleases(s: State, h: nat)
    requires s.Closed() && h < |s.handles|
    ensures Step(s, Move(h, h)) == Released(s, h)
  {
    if s.handles[h].To? {
      var dropped := Released(s, h);
      assert dropped.handles[h := None][h := None] == dropped.handles;
    }
  }

  /** Exactly the sane operations keep the counts. */
  lemma StepKeepsIff(s: State, op: Op)
    requires Inv(s) && Fits(s, op)
    ensures Inv(Step(s, op)) <==> Sane(s, op)
  {
    match op
    case Make(h, o) => MakeKeeps(s, h, o);
    case Copy(h, from) =>
      if s.handles[from].None? {
        ReleaseKeeps(s, h);
      } else if h == from {
        SelfCopyLeaks(s, h);
      } else {
        CopyKeeps(s, h, from);
      }
    case Move(h, from) =>
      if s.handles[from].None? {
        ReleaseKeeps(s, h);
      } else {
        MoveKeeps(s, h, from);
      }
    case Release(h) => ReleaseKeeps(s, h);
  }

  // ----- Whole runs

  function Start(handles: nat, objs: nat): State {
    State(seq(handles, i => None), seq(objs, i => Obj(0, 0, 0)))
  }

  predicate SaneRun(s: State, ops: seq<Op>)
    requires s.Closed()
    decreases |ops|
  {
    ops == [] || (Fits(s, ops[0]) && Sane(s, ops[0]) && SaneRun(Step(s, ops[0]), ops[1..]))
  }

  function Run(s: State, ops: seq<Op>): State
    requires s.Closed() && SaneRun(s, ops)
    decreases |ops|
  {
    if ops == [] then s else Run(Step(s, ops[0]), ops[1..])
  }

  lemma {:induction false} RunKeeps(s: State, ops: seq<Op>)
    requires Inv(s) && SaneRun(s, ops)
    ensures Inv(Run(s, ops)) && |Run(s, ops).objs| == |s.objs|
    decreases |ops|
  {
    if ops != [] {
      StepKeepsIff(s, ops[0]);
      RunKeeps(Step(s, ops[0]), ops[1..]);
    }
  }

  /** In every run the counter of an object is the number of handles to it, the
      deleter has run once for each lifetime that is over, and never on an object
      that still has a handle. */
  lemma CounterIsExact(handles: nat, objs: nat, ops: seq<Op>, o: nat)
    requires SaneRun(Start(handles, objs), ops) && o < objs
    ensures var s := Run(Start(handles, objs), ops);
            && o < |s.objs| && s.objs[o].count == Live(s, o)
            && s.objs[o].deaths == s.objs[o].lives - if Live(s, o) > 0 then 1 else 0
  {
    var s := Start(handles, objs);
    forall x: nat | x < objs
      ensures Right(s, x)
    {
      CountNone(s.handles, PointsTo(x));
    }
    RunKeeps(s, ops);
    assert Right(Run(s, ops), o);
  }

  // ----- The classes

  class RefCounter {
    var count: int
    var deaths: nat

    constructor ()
      ensures count == 0 && deaths == 0
    {
      count, deaths := 0, 0;
    }

    method Retain() returns (r: int)
      modifies this`count
      ensures count == old(count) + 1 && r == count
    {
      count := count + 1;
      r := count;
    }

    method Release() returns (r: int)
      modifies this`count
      ensures count == old(count) - 1 && r == count
    {
      count := count - 1;
      r := count;
    }

    /** The deleter a handle carries. */
    method Delete()
      modifies this`deaths
      ensures deaths == old(deaths) + 1
    {
      deaths := deaths + 1;
    }
  }

  class Handle {
    var ptr: RefCounter?

    constructor (p: RefCounter?)
      modifies p
      ensures ptr == p && (p != null ==> p.count == old(p.count) + 1 && p.deaths == old(p.deaths))
    {
      ptr := p;
      new;
      if p != null {
        var r := p.Retain();
      }
    }

    method Release()
      modifies this, ptr
      ensures ptr == null
      ensures old(ptr) != null ==> old(ptr).count == old(ptr.count) - 1
      ensures old(ptr) != null ==> old(ptr).deaths == old(ptr.deaths) + One(old(ptr.count) == 1)
    {
      if ptr != null {
        var result := ptr.Release();
        if result == 0 {
          ptr.Delete();
        }
        ptr := null;
      }
    }

    /** Copy assignment.  From another handle the object gains one handle and the
        old object loses one; from itself the handle is lost and the count is not. */
    method CopyFrom(other: Handle)
      modifies this, ptr, other.ptr
      ensures this != other ==> ptr == other.ptr == old(other.ptr)
      ensures this == other ==> ptr == null
      ensures old(other.ptr) != null && old(ptr) == old(other.ptr) ==>
        old(other.ptr).count == old(other.ptr.count)
          && old(other.ptr).deaths == old(other.ptr.deaths) + One(old(other.ptr.count) == 0)
      ensures old(other.ptr) != null && old(ptr) != old(other.ptr) ==>
        old(other.ptr).count == old(other.ptr.count) + 1 && old(other.ptr).deaths == old(other.ptr.deaths)
      ensures old(ptr) != null && old(ptr) != old(other.ptr) ==>
        old(ptr).count == old(ptr.count) - 1 && old(ptr).deaths == old(ptr.deaths) + One(old(ptr.count) == 1)
    {
      if other.ptr == null {
        Release();
        return;
      }
      var r := other.ptr.Retain();
      Release();
      ptr := other.ptr;
    }

    /** Move assignment.  From itself it is a release. */
    method MoveFrom(other: Handle)
      modifies this, other, ptr
      ensures this != other ==> ptr == old(other.ptr)
      ensures other.ptr == null
      ensures old(ptr) != null ==> old(ptr).count == old(ptr.count) - 1
      ensures old(ptr) != null ==> old(ptr).deaths == old(ptr.deaths) + One(old(ptr.count) == 1)
    {
      if other.ptr == null {
        Release();
        return;
      }
      Release();
      ptr := other.ptr;
      other.ptr := null;
    }
  }

  // ----- Handles of a program

  /** The handles and objects of a program, beside the value that the run theorems
      are about.  Every operation on the classes is the step of that value. */
  class Program {
    const handles: seq<Handle>
    const objs: seq<RefCounter>
    ghost var state: State

    predicate Distinct() {
      && (forall i, j :: 0 <= i < j < |handles| ==> handles[i] != handles[j])
      && (forall i, j :: 0 <= i < j < |objs| ==> objs[i] != objs[j])
    }

    /** A pointer field and the handle it stands for. */
    ghost predicate Holds(i: nat)
      requires i < |handles| && i < |state.handles|
      reads this, handles
    {
      match state.handles[i]
      case None => handles[i].ptr == null
      case To(o) => o < |objs| && handles[i].ptr == objs[o]
    }

    ghost predicate Counts(o: nat)
      requires o < |objs| && o < |state.objs|
      reads this, objs
    {
      objs[o].count == state.objs[o].count && objs[o].deaths == state.objs[o].deaths
    }

    ghost predicate Valid()
      reads this, handles, objs
    {
      && Distinct() && |state.handles| == |handles| && |state.objs| == |objs| && state.Closed()
      && (forall i :: 0 <= i < |handles| ==> Holds(i))
      && (forall o :: 0 <= o < |objs| ==> Counts(o))
    }

    method Make(h: nat, o: nat)
      requires Valid() && Fits(state, Op.Make(h, o))
      modifies this, handles, objs
      ensures Valid() && state == Step(old(state), Op.Make(h, o))
    {
      var r := objs[o].Retain();
      handles[h].ptr := objs[o];
      state := Step(state, Op.Make(h, o));
      forall i | 0 <= i < |handles|
        ensures Holds(i)
      {
        assert old(Holds(i)) && (i != h ==> handles[i] != handles[h]);
      }
      forall x | 0 <= x < |objs|
        ensures Counts(x)
      {
        assert old(Counts(x)) && (x != o ==> objs[x] != objs[o]);
      }
    }

    method Release(h: nat)
      requires Valid() && h < |handles|
      modifies this, handles, objs
      ensures Valid() && state == Step(old(state), Op.Release(h))
    {
      assert Holds(h);
      handles[h].Release();
      state := Step(state, Op.Release(h));
      forall i | 0 <= i < |handles|
        ensures Holds(i)
      {
        assert old(Holds(i)) && (i != h ==> handles[i] != handles[h]);
      }
      forall o | 0 <= o < |objs|
        ensures Counts(o)
      {
        assert old(Counts(o));
      }
    }

    method Copy(h: nat, from: nat)
      requires Valid() && h < |handles| && from < |handles|
      modifies this, handles, objs
      ensures Valid() && state == Step(old(state), Op.Copy(h, from))
    {
      assert Holds(h) && Holds(from);
      handles[h].CopyFrom(handles[from]);
      state := Step(state, Op.Copy(h, from));
      forall i | 0 <= i < |handles|
        ensures Holds(i)
      {
        assert old(Holds(i)) && (i != h ==> handles[i] != handles[h]);
      }
      forall o | 0 <= o < |objs|
        ensures Counts(o)
      {
        assert old(Counts(o));
      }
    }

    method Move(h: nat, from: nat)
      requires Valid() && h < |handles| && from < |handles|
      modifies this, handles, objs
      ensures Valid() && state == Step(old(state), Op.Move(h, from))
    {
      assert Holds(h) && Holds(from);
      handles[h].MoveFrom(handles[from]);
      state := Step(state, Op.Move(h, from));
      forall i | 0 <= i < |handles|
        ensures Holds(i)
      {
        assert old(Holds(i)) && (i != h ==> handles[i] != handles[h]);
      }
      forall o | 0 <= o < |objs|
        ensures Counts(o)
      {
        assert old(Counts(o));
      }
    }
  }
}
