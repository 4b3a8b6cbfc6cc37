/** SequentialBuffer: an array that slides, grows and rewinds, as a queue. */
module SequentialBuffer {

  // ----- The indices and what they cost

  /** _capacity, _rewinding_size, _starting_index, _count, and a tally of elements pushed, erased
      and copied by growth and rewind. */
  datatype Meter = Meter(cap: nat, half: nat, start: nat, count: nat, pushed: nat, erased: nat, copied: nat)
  {
    function End(): nat { start + count }
  }

  datatype Op = Push | Recv(n: nat) | Erase(n: nat)

  predicate Legal(m: Meter, op: Op) {
    match op
    case Push => true
    case Recv(n) => m.End() + n <= m.cap
    case Erase(n) => n <= m.count
  }

  function Grown(m: Meter): Meter {
    if m.cap == m.End() then m.(cap := 2 * m.cap, half := m.cap, start := 0, copied := m.copied + m.count) else m
  }

  function Rewound(m: Meter): Meter
    requires m.End() <= m.cap
  {
    var slid := if m.start >= m.half then m.(start := 0, copied := m.copied + (m.cap - m.start)) else m;
    if slid.count == 0 then slid.(start := 0) else slid
  }

  function Step(m: Meter, op: Op): Meter
    requires m.End() <= m.cap && Legal(m, op)
  {
    match op
    case Push => var g := Grown(m); g.(count := g.count + 1, pushed := g.pushed + 1)
    case Recv(n) => m.(count := m.count + n, pushed := m.pushed + n)
    case Erase(n) => Rewound(m.(start := m.start + n, count := m.count - n, erased := m.erased + n))
  }

  /** A step that writes outside the array, or whose copy overlaps itself. */
  predicate Faults(m: Meter, op: Op) {
    match op
    case Push => Grown(m).End() >= Grown(m).cap
    case Recv(n) => false
    case Erase(n) => var start := m.start + n; m.half <= start < m.cap - start
  }

  /** What even capacities of at least two keep; the last lines are the
      potential that pays for copies. */
  predicate Sound(m: Meter) {
    && m.cap == 2 * m.half && m.half >= 1
    && m.End() <= m.cap && m.start < m.half
    && m.copied + m.start <= 2 * m.pushed + m.erased
    && m.copied + m.start + 2 * m.End() - m.cap <= 2 * m.pushed + m.erased
  }

  lemma StepKeeps(m: Meter, op: Op)
    requires Sound(m) && Legal(m, op)
    ensures !Faults(m, op) && Sound(Step(m, op))
  {
  }

  // ----- Whole runs

  /** The run from m can be made, up to and including a first fault. */
  predicate LegalRun(m: Meter, ops: seq<Op>)
    decreases |ops|
  {
    ops == [] || (m.End() <= m.cap && Legal(m, ops[0]) && (Faults(m, ops[0]) || LegalRun(Step(m, ops[0]), ops[1..])))
  }

  predicate FaultsIn(m: Meter, ops: seq<Op>)
    requires LegalRun(m, ops)
    decreases |ops|
  {
    ops != [] && (Faults(m, ops[0]) || FaultsIn(Step(m, ops[0]), ops[1..]))
  }

  function Run(m: Meter, ops: seq<Op>): Meter
    requires LegalRun(m, ops) && !FaultsIn(m, ops)
    decreases |ops|
  {
    if ops == [] then m else Run(Step(m, ops[0]), ops[1..])
  }

  lemma {:induction false} RunKeeps(m: Meter, ops: seq<Op>)
    requires Sound(m) && LegalRun(m, ops)
    ensures !FaultsIn(m, ops) && Sound(Run(m, ops))
    decreases |ops|
  {
    if ops != [] {
      StepKeeps(m, ops[0]);
      RunKeeps(Step(m, ops[0]), ops[1..]);
    }
  }

  function Fresh(cap: nat): Meter { Meter(cap, cap / 2, 0, 0, 0, 0, 0) }

  /** Amortised cost: over any run the elements copied are at most twice those
      pushed plus those erased. */
  lemma CopiesArePaidFor(cap: nat, ops: seq<Op>)
    requires cap >= 2 && cap % 2 == 0 && LegalRun(Fresh(cap), ops)
    ensures !FaultsIn(Fresh(cap), ops)
    ensures var m := Run(Fresh(cap), ops); m.copied <= 2 * m.pushed + m.erased
  {
    RunKeeps(Fresh(cap), ops);
  }

  ghost predicate NeverFaults(m: Meter) { forall ops :: LegalRun(m, ops) ==> !FaultsIn(m, ops) }

  /** Exactly the even capacities of at least two never fault. */
  lemma SafeCapacities(cap: nat)
    ensures NeverFaults(Fresh(cap)) <==> cap >= 2 && cap % 2 == 0
  {
    if cap >= 2 && cap % 2 == 0 {
      SoundNeverFaults(Fresh(cap));
    } else {
      assert cap == 0 || cap % 2 == 1;
      OthersFault(cap);
    }
  }

  lemma OthersFault(cap: nat)
    requires cap == 0 || cap % 2 == 1
    ensures !NeverFaults(Fresh(cap))
  {
    FaultyRun(cap);
  }

  lemma SoundNeverFaults(m: Meter)
    requires Sound(m)
    ensures NeverFaults(m)
  {
    forall ops | LegalRun(m, ops)
      ensures !FaultsIn(m, ops)
    {
      RunKeeps(m, ops);
    }
  }

  function FaultyOps(cap: nat): seq<Op> { if cap == 0 then [Push] else [Recv(cap / 2), Erase(cap / 2)] }

  /** An odd capacity overlaps when half of it is erased; capacity zero cannot grow. */
  lemma FaultyRun(cap: nat)
    requires cap == 0 || cap % 2 == 1
    ensures LegalRun(Fresh(cap), FaultyOps(cap)) && FaultsIn(Fresh(cap), FaultyOps(cap))
  {
    if cap > 0 {
      var m := Step(Fresh(cap), Recv(cap / 2));
      var rest := FaultyOps(cap)[1..];
      assert Faults(m, rest[0]);
      assert LegalRun(m, rest) && FaultsIn(m, rest);
    }
  }

  // ----- The class

  /** memcpy: both ranges in bounds and, in one array, apart. */
  method MemCpy<T>(dst: array<T>, src: array<T>, from: nat, n: nat)
    requires n <= dst.Length && from + n <= src.Length
    requires dst == src ==> n <= from
    modifies dst
    ensures dst[..n] == old(src[from..from + n])
  {
    for i := 0 to n
      invariant forall k :: 0 <= k < i ==> dst[k] == old(src[from + k])
      invariant forall k :: from <= k < from + n ==> src[k] == old(src[k])
    {
      dst[i] := src[from + i];
    }
  }

  class SequentialBuffer<T(0)> {
    var buffer: array<T>
    var start: nat
    var count: nat
    var rewinding: nat
    ghost var pushed: nat
    ghost var erased: nat
    ghost var copied: nat

    ghost function Metered(): Meter
      reads this, buffer
    {
      Meter(buffer.Length, rewinding, start, count, pushed, erased, copied)
    }

    ghost predicate Valid()
      reads this, buffer
    {
      Sound(Metered())
    }

    ghost function Contents(): seq<T>
      requires Valid()
      reads this, buffer
    {
      buffer[start..start + count]
    }

    constructor (capacity: nat)
      requires capacity >= 2 && capacity % 2 == 0
      ensures Valid() && fresh(buffer) && Contents() == [] && Metered() == Fresh(capacity)
    {
      buffer := new T[capacity];
      start, count, rewinding := 0, 0, capacity / 2;
      pushed, erased, copied := 0, 0, 0;
    }

    /** Part of the array; the contents when it is start..start + count. */
    ghost function Slice(from: nat, n: nat): seq<T>
      requires from + n <= buffer.Length
      reads this, buffer
    {
      buffer[from..from + n]
    }

    method Grow()
      requires buffer.Length == start + count
      modifies this
      ensures fresh(buffer) && Metered() == Grown(old(Metered()))
      ensures Slice(start, count) == old(Slice(start, count))
    {
      var bigger := new T[2 * buffer.Length];
      MemCpy(bigger, buffer, start, count);
      copied := copied + count;
      start := 0;
      buffer := bigger;
      rewinding := buffer.Length / 2;
    }

    method Append(data: T)
      requires start + count < buffer.Length
      modifies this, buffer
      ensures buffer == old(buffer) && Metered() == old(Metered()).(count := old(count) + 1, pushed := old(pushed) + 1)
      ensures Slice(start, count) == old(Slice(start, count)) + [data]
    {
      buffer[start + count] := data;
      count, pushed := count + 1, pushed + 1;
    }

    method PushBack(data: T)
      requires Valid()
      modifies this, buffer
      ensures Valid() && Contents() == old(Contents()) + [data]
      ensures Metered() == Step(old(Metered()), Push)
      ensures buffer == old(buffer) || fresh(buffer)
    {
      StepKeeps(Metered(), Push);
      if buffer.Length == start + count {
        Grow();
      }
      Append(data);
    }

    method Store(got: seq<T>)
      requires start + count + |got| <= buffer.Length
      modifies buffer
      ensures Slice(start, count + |got|) == old(Slice(start, count)) + got
    {
      var at := start + count;
      for i := 0 to |got|
        invariant buffer[..at] == old(buffer[..at])
        invariant forall k :: 0 <= k < i ==> buffer[at + k] == got[k]
      {
        buffer[at + i] := got[i];
      }
      assert buffer[start..at] == buffer[..at][start..] == old(buffer[..at])[start..];
      assert buffer[at..at + |got|] == got;
    }

    method Take(got: seq<T>)
      requires start + count + |got| <= buffer.Length
      modifies this, buffer
      ensures buffer == old(buffer)
              && Metered() == old(Metered()).(count := old(count) + |got|, pushed := old(pushed) + |got|)
      ensures Slice(start, count) == old(Slice(start, count)) + got
    {
      Store(got);
      count, pushed := count + |got|, pushed + |got|;
    }

    /** recv stores what it got after the contents and returns how much, or not
        more than zero for a closed or failed stream. */
    method RecvFromStream(got: seq<T>, result: int) returns (ret: int)
      requires Valid() && |got| == (if result > 0 then result else 0) <= buffer.Length - (start + count)
      modifies this, buffer
      ensures Valid() && Contents() == old(Contents()) + got && ret == result
      ensures Metered() == Step(old(Metered()), Recv(|got|)) && buffer == old(buffer)
    {
      StepKeeps(Metered(), Recv(|got|));
      if result > 0 {
        Take(got);
      }
      ret := result;
    }

    /** The rest of the array moves to its front. */
    method Rewind()
      requires start + count <= buffer.Length <= 2 * start
      modifies this, buffer
      ensures buffer == old(buffer)
      ensures Metered() == old(Metered()).(start := 0, copied := old(copied + (buffer.Length - start)))
      ensures Slice(0, count) == old(Slice(start, count))
    {
      ghost var n := buffer.Length - start;
      MemCpy(buffer, buffer, start, buffer.Length - start);
      assert buffer[..count] == buffer[..n][..count];
      copied := copied + n;
      start := 0;
    }

    method Slide(n: nat)
      requires n <= count && start + count <= buffer.Length == 2 * rewinding
      modifies this, buffer
      ensures buffer == old(buffer) && start + count <= buffer.Length
      ensures Metered() == Rewound(old(Metered().(start := start + n, count := count - n, erased := erased + n)))
      ensures Slice(start, count) == old(Slice(start + n, count - n))
    {
      count, start, erased := count - n, start + n, erased + n;
      if start >= rewinding {
        Rewind();
      }
      if count == 0 {
        start := 0;
      }
    }

    method EraseFront(n: nat)
      requires Valid() && n <= count
      modifies this, buffer
      ensures Valid() && Contents() == old(Contents())[n..]
      ensures Metered() == Step(old(Metered()), Erase(n)) && buffer == old(buffer)
    {
      StepKeeps(Metered(), Erase(n));
      assert Slice(start + n, count - n) == Contents()[n..];
      Slide(n);
    }

    /** operator[] on an index of the contents. */
    method At(index: nat) returns (x: T)
      requires Valid() && index < count
      ensures x == Contents()[index]
    {
      x := buffer[start + index];
    }

    function Size(): nat
      reads this
    {
      count
    }
  }

  /** The assertion in operator[]. */
  predicate IndexAsserted(m: Meter, index: nat) { index < m.End() }

  predicate InContents(m: Meter, index: nat) { index < m.count }

  /** The assertion keeps an index inside the contents exactly when nothing was
      erased since the last rewind. */
  lemma IndexGuard(m: Meter)
    ensures (forall index :: IndexAsserted(m, index) ==> InContents(m, index)) <==> m.start == 0
  {
    if m.start > 0 {
      assert IndexAsserted(m, m.count) && !InContents(m, m.count);
    }
  }

  /** From every safe capacity a run gets there: fill, grow, erase one. */
  lemma GuardFailsReachably(cap: nat)
    requires cap >= 2 && cap % 2 == 0
    ensures var ops := [Recv(cap), Push, Erase(1)];
            && LegalRun(Fresh(cap), ops) && !FaultsIn(Fresh(cap), ops)
            && var m := Run(Fresh(cap), ops); m.start == 1 && IndexAsserted(m, m.count) && !InContents(m, m.count)
  {
    var ops := [Recv(cap), Push, Erase(1)];
    var full := Step(Fresh(cap), Recv(cap));
    var grown := Step(full, Push);
    var end := Step(grown, Erase(1));
    assert ops[1..] == [Push, Erase(1)] && ops[1..][1..] == [Erase(1)] && ops[1..][1..][1..] == [];
    assert LegalRun(end, []) && LegalRun(grown, [Erase(1)]) && LegalRun(full, [Push, Erase(1)]);
    RunKeeps(Fresh(cap), ops);
    assert !FaultsIn(grown, [Erase(1)]) && !FaultsIn(full, [Push, Erase(1)]);
    assert Run(end, []) == end && Run(grown, [Erase(1)]) == end && Run(full, [Push, Erase(1)]) == end;
  }
}
