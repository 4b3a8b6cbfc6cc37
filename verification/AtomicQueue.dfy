/** The lock-free ring queue as a step system.

    Any number of threads run try_push and try_pop.  Each shared access is one
    step: the load of the own counter, the load of the other counter with the
    full/empty test, the compare-and-swap that claims a ticket, and the store
    into (or exchange with) the slot of that ticket.  Counters are unbounded
    here and every test reads them modulo 2^32, as the code does.  A counter
    load may return an earlier value; the enabling conditions bound how old. */
module AtomicQueue {
  import opened Bits
  import opened Counting

  datatype Cell<T> = Nil | Item(v: T)

  /** Where a thread stands inside try_push or try_pop. */
  datatype Thread<T> =
    | Idle
    | PushCheck(v: T, own: nat)
    | PushCas(v: T, own: nat)
    | PushStore(v: T, ticket: nat)
    | PopCheck(own: nat)
    | PopCas(own: nat)
    | PopTake(ticket: nat)

  /** The queue, its threads, and two history multisets: values stored by
      completed pushes and values returned by completed pops. */
  datatype Queue<T> = Queue(
    bits: nat, shuffle: nat,
    head: nat, tail: nat, cells: seq<Cell<T>>,
    threads: seq<Thread<T>>,
    stored: multiset<T>, taken: multiset<T>)
  {
    /** The capacity; MINIMIZE_CONTENTION rounds it to a power of two. */
    function Size(): nat { Pow2(bits) }

    /** The slot a ticket uses: the 32-bit counter modulo the size, shuffled. */
    function Slot(ticket: nat): nat { RemapIndex(shuffle, (ticket % TWO32) % Size()) }

    predicate Shaped() {
      bits < 32 && 2 * shuffle <= bits && |cells| == Size()
    }
  }

  datatype Action<T> =
    | BeginPush(t: nat, v: T, seen: nat)
    | CheckPush(t: nat, seen: nat)
    | CasPush(t: nat)
    | Store(t: nat)
    | BeginPop(t: nat, seen: nat)
    | CheckPop(t: nat, seen: nat)
    | CasPop(t: nat)
    | Take(t: nat)

  /** A step may be taken when its thread is at that point and any counter value
      it reads is a present or past one.  Three time bounds come with 32-bit
      counters: a loaded counter is less than 2^31 tickets old when it is
      compared, and a claim comes before its own counter has run through 2^32. */
  predicate Enabled<T(!new)>(q: Queue<T>, a: Action<T>) {
    a.t < |q.threads| &&
    var th := q.threads[a.t];
    match a
    case BeginPush(_, _, seen) => th.Idle? && seen <= q.head
    case CheckPush(_, seen) => th.PushCheck? && seen <= q.tail && q.head - seen < HALF32
    case CasPush(_) => th.PushCas? && q.head - th.own < TWO32
    case Store(_) => th.PushStore?
    case BeginPop(_, seen) => th.Idle? && seen <= q.tail
    case CheckPop(_, seen) => th.PopCheck? && seen <= q.head && q.tail - seen < HALF32
    case CasPop(_) => th.PopCas? && q.tail - th.own < TWO32
    case Take(_) => th.PopTake?
  }

  function Goto<T>(q: Queue<T>, t: nat, th: Thread<T>): Queue<T>
    requires t < |q.threads|
  {
    q.(threads := q.threads[t := th])
  }

  function Apply<T(!new)>(q: Queue<T>, a: Action<T>): Queue<T>
    requires Enabled(q, a) && q.Shaped()
  {
    var th := q.threads[a.t];
    match a
    case BeginPush(t, v, seen) => Goto(q, t, PushCheck(v, seen))
    case CheckPush(t, seen) =>
      if LooksFull(th.own, seen, q.Size()) then Goto(q, t, Idle)
      else Goto(q, t, PushCas(th.v, th.own))
    case CasPush(t) =>
      if q.head % TWO32 == th.own % TWO32 then
        Goto(q, t, PushStore(th.v, th.own)).(head := q.head + 1)
      else Goto(q, t, PushCheck(th.v, q.head))
    case Store(t) =>
      SlotInRange(q, th.ticket);
      var j := q.Slot(th.ticket);
      if q.cells[j].Nil? then
        Goto(q, t, Idle).(cells := q.cells[j := Item(th.v)], stored := q.stored + multiset{th.v})
      else q
    case BeginPop(t, seen) => Goto(q, t, PopCheck(seen))
    case CheckPop(t, seen) =>
      if LooksEmpty(seen, th.own) then Goto(q, t, Idle)
      else Goto(q, t, PopCas(th.own))
    case CasPop(t) =>
      if q.tail % TWO32 == th.own % TWO32 then
        Goto(q, t, PopTake(th.own)).(tail := q.tail + 1)
      else Goto(q, t, PopCheck(q.tail))
    case Take(t) =>
      SlotInRange(q, th.ticket);
      var j := q.Slot(th.ticket);
      if q.cells[j].Item? then
        Goto(q, t, Idle).(cells := q.cells[j := Nil], taken := q.taken + multiset{q.cells[j].v})
      else q
  }

  function Init<T>(bits: nat, shuffle: nat, threads: nat): Queue<T> {
    Queue(bits, shuffle, 0, 0, seq(Pow2(bits), _ => Nil), seq(threads, _ => Idle), multiset{}, multiset{})
  }

  predicate CanRun<T(!new)>(q: Queue<T>, acts: seq<Action<T>>)
    decreases |acts|
  {
    acts == [] || (q.Shaped() && Enabled(q, acts[0]) && CanRun(Apply(q, acts[0]), acts[1..]))
  }

  function Run<T(!new)>(q: Queue<T>, acts: seq<Action<T>>): Queue<T>
    requires CanRun(q, acts)
    decreases |acts|
  {
    if acts == [] then q else Run(Apply(q, acts[0]), acts[1..])
  }

  // ----- Slots

  lemma SlotInRange<T>(q: Queue<T>, ticket: nat)
    requires q.bits < 32 && 2 * q.shuffle <= q.bits
    ensures q.Slot(ticket) < q.Size()
  {
    RemapIsInvolution(q.shuffle, q.bits, (ticket % TWO32) % q.Size());
  }

  /** Tickets of one window of Size() use different slots, also across the wrap at 2^32. */
  lemma SlotsOfWindowDiffer<T>(q: Queue<T>, a: nat, b: nat)
    requires q.bits < 32 && 2 * q.shuffle <= q.bits
    requires a < b < a + q.Size()
    ensures q.Slot(a) != q.Slot(b)
  {
    Pow2Divides32(q.bits);
    ModOfMod(a, Pow2(32 - q.bits), q.Size());
    ModOfMod(b, Pow2(32 - q.bits), q.Size());
    CloseResiduesDiffer(a, b, q.Size());
    if q.Slot(a) == q.Slot(b) {
      RemapInjective(q.shuffle, q.bits, a % q.Size(), b % q.Size());
    }
  }

  // ----- The tests on wrapped counters

  /** What the wrapped full test answers for every distance below 2^32: it is
      right up to 2^31 and wrong from there on, so the age bound is exact. */
  lemma FullTestExact(own: int, seen: int, size: int)
    requires 0 < size < HALF32 && 0 <= own - seen < TWO32
    ensures !LooksFull(own, seen, size) <==> own - seen < size || own - seen >= HALF32
  {
  }

  /** The wrapped empty test, at every distance below 2^32.  It also answers
      "empty" at distance 2^31, so a full ring of that size looks empty. */
  lemma EmptyTestExact(seen: int, own: int)
    requires -TWO32 < seen - own < TWO32
    ensures !LooksEmpty(seen, own) <==> 0 < seen - own < HALF32 || seen - own < -HALF32
  {
  }

  // ----- The invariant

  predicate PushesInto<T>(q: Queue<T>, j: nat, th: Thread<T>) { th.PushStore? && q.Slot(th.ticket) == j }
  predicate PopsFrom<T>(q: Queue<T>, j: nat, th: Thread<T>) { th.PopTake? && q.Slot(th.ticket) == j }

  function Pushers<T>(q: Queue<T>, j: nat): nat { Count(q.threads, th => PushesInto(q, j, th)) }
  function Poppers<T>(q: Queue<T>, j: nat): nat { Count(q.threads, th => PopsFrom(q, j, th)) }

  /** Some ticket claimed by a push and not yet by a pop uses slot j. */
  ghost predicate Outstanding<T>(q: Queue<T>, j: nat) {
    exists k: nat :: q.tail <= k < q.head && q.Slot(k) == j
  }

  /** Claimed and completed operations of one slot balance. */
  ghost predicate Balanced<T>(q: Queue<T>, j: nat)
    requires j < |q.cells|
  {
    (if q.cells[j].Item? then 1 else 0) + Pushers(q, j)
    == Poppers(q, j) + (if Outstanding(q, j) then 1 else 0)
  }

  predicate ThreadOk<T>(q: Queue<T>, th: Thread<T>) {
    match th
    case PushCheck(_, own) => own <= q.head
    case PushCas(_, own) => own <= q.head && (own == q.head ==> q.head < q.tail + q.Size())
    case PopCheck(own) => own <= q.tail
    case PopCas(own) => own <= q.tail && (own == q.tail ==> q.tail < q.head)
    case _ => true
  }

  /** How many slots hold the value x. */
  function Held<T(==)>(cells: seq<Cell<T>>, x: T): nat { Count(cells, c => c == Item(x)) }

  /** Nothing is lost and nothing is delivered twice: of every value, the
      completed pushes are the completed pops plus the slots that hold it. */
  ghost predicate Conserved<T(!new)>(q: Queue<T>) {
    forall x: T {:trigger Held(q.cells, x)} :: q.stored[x] == q.taken[x] + Held(q.cells, x)
  }

  ghost predicate Inv<T(!new)>(q: Queue<T>) {
    && q.Shaped()
    && q.tail <= q.head <= q.tail + q.Size()
    && (forall t :: 0 <= t < |q.threads| ==> ThreadOk(q, q.threads[t]))
    && (forall j :: 0 <= j < |q.cells| ==> Balanced(q, j))
    && Conserved(q)
  }

  lemma InitInv<T(!new)>(bits: nat, shuffle: nat, threads: nat)
    requires bits < 32 && 2 * shuffle <= bits
    ensures Inv(Init<T>(bits, shuffle, threads))
  {
    var q := Init<T>(bits, shuffle, threads);
    forall x: T
      ensures Held(q.cells, x) == 0
    {
      CountNone(q.cells, c => c == Item(x));
    }
    forall j | 0 <= j < |q.cells|
      ensures Balanced(q, j)
    {
      CountNone(q.threads, th => PushesInto(q, j, th));
      CountNone(q.threads, th => PopsFrom(q, j, th));
    }
  }

  /** How moving one thread changes the in-flight counts of a slot. */
  lemma GotoCounts<T>(q: Queue<T>, t: nat, th: Thread<T>, q': Queue<T>, j: nat)
    requires t < |q.threads|
    requires q'.threads == q.threads[t := th] && q'.bits == q.bits && q'.shuffle == q.shuffle
    ensures Pushers(q', j) + (if PushesInto(q, j, q.threads[t]) then 1 else 0)
         == Pushers(q, j) + (if PushesInto(q, j, th) then 1 else 0)
    ensures Poppers(q', j) + (if PopsFrom(q, j, q.threads[t]) then 1 else 0)
         == Poppers(q, j) + (if PopsFrom(q, j, th) then 1 else 0)
  {
    CountUpdate(q.threads, t, th, x => PushesInto(q, j, x));
    CountUpdate(q.threads, t, th, x => PopsFrom(q, j, x));
    CountSame(q'.threads, x => PushesInto(q, j, x), x => PushesInto(q', j, x));
    CountSame(q'.threads, x => PopsFrom(q, j, x), x => PopsFrom(q', j, x));
  }

  /** Steps that only move a thread between points where it holds no ticket. */
  lemma QuietStep<T(!new)>(q: Queue<T>, t: nat, th: Thread<T>)
    requires Inv(q) && t < |q.threads|
    requires !q.threads[t].PushStore? && !q.threads[t].PopTake?
    requires !th.PushStore? && !th.PopTake? && ThreadOk(q, th)
    ensures Inv(Goto(q, t, th))
  {
    var q' := Goto(q, t, th);
    forall j | 0 <= j < |q'.cells|
      ensures Balanced(q', j)
    {
      assert Balanced(q, j);
      GotoCounts(q, t, th, q', j);
      SameWindow(q, q', j);
    }
  }

  lemma SameWindow<T>(q: Queue<T>, q': Queue<T>, j: nat)
    requires q'.bits == q.bits && q'.shuffle == q.shuffle && q'.head == q.head && q'.tail == q.tail
    ensures Outstanding(q', j) == Outstanding(q, j)
  {
    assert forall k: nat :: q'.Slot(k) == q.Slot(k);
  }

  /** A push claims ticket head: only its slot becomes outstanding. */
  lemma HeadMoves<T>(q: Queue<T>, q': Queue<T>, j: nat)
    requires q.bits < 32 && 2 * q.shuffle <= q.bits && q.tail <= q.head < q.tail + q.Size()
    requires q'.bits == q.bits && q'.shuffle == q.shuffle && q'.tail == q.tail && q'.head == q.head + 1
    ensures Outstanding(q', j) <==> Outstanding(q, j) || j == q.Slot(q.head)
    ensures !Outstanding(q, q.Slot(q.head))
  {
    assert forall k: nat :: q'.Slot(k) == q.Slot(k);
    forall k: nat | q.tail <= k < q.head
      ensures q.Slot(k) != q.Slot(q.head)
    {
      SlotsOfWindowDiffer(q, k, q.head);
    }
    if j == q.Slot(q.head) {
      assert q'.tail <= q.head < q'.head && q'.Slot(q.head) == j;
    }
  }

  /** A pop claims ticket tail: only its slot stops being outstanding. */
  lemma TailMoves<T>(q: Queue<T>, q': Queue<T>, j: nat)
    requires q.bits < 32 && 2 * q.shuffle <= q.bits && q.tail < q.head <= q.tail + q.Size()
    requires q'.bits == q.bits && q'.shuffle == q.shuffle && q'.tail == q.tail + 1 && q'.head == q.head
    ensures Outstanding(q, j) <==> Outstanding(q', j) || j == q.Slot(q.tail)
    ensures !Outstanding(q', q.Slot(q.tail))
  {
    assert forall k: nat :: q'.Slot(k) == q.Slot(k);
    forall k: nat | q.tail < k < q.head
      ensures q.Slot(k) != q.Slot(q.tail)
    {
      SlotsOfWindowDiffer(q, q.tail, k);
    }
    if j == q.Slot(q.tail) {
      assert q.tail <= q.tail < q.head && q.Slot(q.tail) == j;
    }
  }

  lemma ClaimPush<T(!new)>(q: Queue<T>, a: Action<T>)
    requires Inv(q) && Enabled(q, a) && a.CasPush?
    ensures Inv(Apply(q, a))
  {
    var th := q.threads[a.t];
    var q' := Apply(q, a);
    assert ThreadOk(q, th);
    if q.head % TWO32 == th.own % TWO32 {
      assert q.head == th.own by {
        if th.own < q.head {
          CloseResiduesDiffer(th.own, q.head, TWO32);
        }
      }
      forall j | 0 <= j < |q'.cells|
        ensures Balanced(q', j)
      {
        assert Balanced(q, j);
        GotoCounts(q, a.t, PushStore(th.v, th.own), q', j);
        HeadMoves(q, q', j);
      }
      forall u | 0 <= u < |q'.threads|
        ensures ThreadOk(q', q'.threads[u])
      {
        assert u != a.t ==> ThreadOk(q, q.threads[u]);
      }
    } else {
      QuietStep(q, a.t, PushCheck(th.v, q.head));
    }
  }

  lemma ClaimPop<T(!new)>(q: Queue<T>, a: Action<T>)
    requires Inv(q) && Enabled(q, a) && a.CasPop?
    ensures Inv(Apply(q, a))
  {
    var th := q.threads[a.t];
    var q' := Apply(q, a);
    assert ThreadOk(q, th);
    if q.tail % TWO32 == th.own % TWO32 {
      assert q.tail == th.own by {
        if th.own < q.tail {
          CloseResiduesDiffer(th.own, q.tail, TWO32);
        }
      }
      forall j | 0 <= j < |q'.cells|
        ensures Balanced(q', j)
      {
        assert Balanced(q, j);
        GotoCounts(q, a.t, PopTake(th.own), q', j);
        TailMoves(q, q', j);
      }
      forall u | 0 <= u < |q'.threads|
        ensures ThreadOk(q', q'.threads[u])
      {
        assert u != a.t ==> ThreadOk(q, q.threads[u]);
      }
    } else {
      QuietStep(q, a.t, PopCheck(q.tail));
    }
  }

  /** Completing an operation on the slot of its ticket: the thread leaves the
      slot's in-flight count and the slot changes between empty and full. */
  lemma CompleteAt<T(!new)>(q: Queue<T>, q': Queue<T>, t: nat, at: nat, j: nat)
    requires Inv(q) && t < |q.threads| && j < |q.cells| && at < |q.cells|
    requires |q'.cells| == |q.cells|
    requires q' == Goto(q, t, Idle).(cells := q.cells[at := q'.cells[at]], stored := q'.stored, taken := q'.taken)
    requires (PushesInto(q, at, q.threads[t]) && q.cells[at].Nil? && q'.cells[at].Item?)
          || (PopsFrom(q, at, q.threads[t]) && q.cells[at].Item? && q'.cells[at].Nil?)
    ensures Balanced(q', j)
  {
    assert Balanced(q, j);
    GotoCounts(q, t, Idle, q', j);
    SameWindow(q, q', j);
  }

  lemma CompleteKeeps<T(!new)>(q: Queue<T>, a: Action<T>)
    requires Inv(q) && Enabled(q, a) && (a.Store? || a.Take?)
    ensures Inv(Apply(q, a))
  {
    var th := q.threads[a.t];
    SlotInRange(q, th.ticket);
    var at := q.Slot(th.ticket);
    var q' := Apply(q, a);
    if (a.Store? && q.cells[at].Nil?) || (a.Take? && q.cells[at].Item?) {
      forall x: T
        ensures q'.stored[x] == q'.taken[x] + Held(q'.cells, x)
      {
        assert q.stored[x] == q.taken[x] + Held(q.cells, x);
        CountUpdate(q.cells, at, q'.cells[at], c => c == Item(x));
      }
      forall j | 0 <= j < |q'.cells|
        ensures Balanced(q', j)
      {
        CompleteAt(q, q', a.t, at, j);
      }
      forall u | 0 <= u < |q'.threads|
        ensures ThreadOk(q', q'.threads[u])
      {
        assert u != a.t ==> ThreadOk(q, q.threads[u]);
      }
    }
  }

  /** Every step of every thread keeps the invariant. */
  lemma StepKeeps<T(!new)>(q: Queue<T>, a: Action<T>)
    requires Inv(q) && Enabled(q, a)
    ensures Inv(Apply(q, a))
  {
    var th := q.threads[a.t];
    assert ThreadOk(q, th);
    match a
    case BeginPush(t, v, seen) => QuietStep(q, t, PushCheck(v, seen));
    case CheckPush(t, seen) =>
      QuietStep(q, t, Idle);
      if !LooksFull(th.own, seen, q.Size()) {
        if th.own == q.head {
          Pow2Divides32(q.bits);
          SizeFits(q.bits);
          FullTestBelowWindow(q.head, seen, q.Size());
        }
        QuietStep(q, t, PushCas(th.v, th.own));
      }
    case CasPush(_) => ClaimPush(q, a);
    case Store(_) => CompleteKeeps(q, a);
    case BeginPop(t, seen) => QuietStep(q, t, PopCheck(seen));
    case CheckPop(t, seen) =>
      QuietStep(q, t, Idle);
      if !LooksEmpty(seen, th.own) {
        QuietStep(q, t, PopCas(th.own));
      }
    case CasPop(_) => ClaimPop(q, a);
    case Take(_) => CompleteKeeps(q, a);
  }

  lemma SizeFits(bits: nat)
    requires bits < 32
    ensures Pow2(bits) <= HALF32
  {
    Pow2Add(31 - bits, bits);
    Pow2Divides32(1);
    MulBound(Pow2(31 - bits), Pow2(bits));
  }

  /** Also the largest size, 2^31, whose signed reading is negative, is never overrun. */
  lemma FullTestBelowWindow(own: int, seen: int, size: int)
    requires 0 < size <= HALF32 && 0 <= own - seen < HALF32 && !LooksFull(own, seen, size)
    ensures own - seen < size
  {
  }

  /** Safety of whole runs: in every interleaving, with loads as stale as allowed,
      tail <= head <= tail + size, claimed and completed operations balance slot
      by slot, and the completed pushes are the completed pops plus what the
      slots hold. */
  lemma {:induction false} RunKeeps<T(!new)>(q: Queue<T>, acts: seq<Action<T>>)
    requires Inv(q) && CanRun(q, acts)
    ensures Inv(Run(q, acts))
    decreases |acts|
  {
    if acts != [] {
      StepKeeps(q, acts[0]);
      RunKeeps(Apply(q, acts[0]), acts[1..]);
    }
  }

  /** The whole-run theorem from the empty queue. */
  lemma EveryRunIsSafe<T(!new)>(bits: nat, shuffle: nat, threads: nat, acts: seq<Action<T>>)
    requires bits < 32 && 2 * shuffle <= bits
    requires CanRun(Init<T>(bits, shuffle, threads), acts)
    ensures var q := Run(Init<T>(bits, shuffle, threads), acts);
            && Inv(q) && q.tail <= q.head <= q.tail + Pow2(bits) && Conserved(q)
            && forall j :: 0 <= j < |q.cells| ==> Balanced(q, j)
  {
    InitInv<T>(bits, shuffle, threads);
    RunKeeps(Init<T>(bits, shuffle, threads), acts);
    RunKeepsShape(Init<T>(bits, shuffle, threads), acts);
  }

  lemma {:induction false} RunKeepsShape<T(!new)>(q: Queue<T>, acts: seq<Action<T>>)
    requires CanRun(q, acts)
    ensures var q' := Run(q, acts);
            q'.bits == q.bits && q'.shuffle == q.shuffle && |q'.threads| == |q.threads|
    decreases |acts|
  {
    if acts != [] {
      RunKeepsShape(Apply(q, acts[0]), acts[1..]);
    }
  }

  // ----- No spinner is stuck

  predicate InFlight<T>(th: Thread<T>) { th.PushStore? || th.PopTake? }

  /** The action that completes the operation of an in-flight thread. */
  function Completion<T>(q: Queue<T>, t: nat): Action<T>
    requires t < |q.threads| && InFlight(q.threads[t])
  {
    if q.threads[t].PushStore? then Store(t) else Take(t)
  }

  /** The thread can finish at once: its slot is empty for a push, full for a pop. */
  predicate CanComplete<T>(q: Queue<T>, t: nat)
    requires q.Shaped()
  {
    && t < |q.threads|
    && InFlight(q.threads[t])
    && (SlotInRange(q, q.threads[t].ticket);
        q.cells[q.Slot(q.threads[t].ticket)].Nil? == q.threads[t].PushStore?)
  }

  /** A spinning thread always has a partner on its own slot that can finish
      now: a popper that finds the slot empty has a pusher ready to store into
      it, and a pusher that finds it full has a popper ready to take from it. */
  lemma SpinnerHasPartner<T(!new)>(q: Queue<T>, t: nat) returns (u: nat)
    requires Inv(q) && t < |q.threads| && InFlight(q.threads[t]) && !CanComplete(q, t)
    ensures CanComplete(q, u)
    ensures q.Slot(q.threads[u].ticket) == q.Slot(q.threads[t].ticket)
    ensures q.threads[u].PushStore? == q.threads[t].PopTake?
  {
    SlotInRange(q, q.threads[t].ticket);
    var j := q.Slot(q.threads[t].ticket);
    assert Balanced(q, j);
    CountWitness(q.threads, th => PushesInto(q, j, th));
    CountWitness(q.threads, th => PopsFrom(q, j, th));
    if q.threads[t].PopTake? {
      assert PopsFrom(q, j, q.threads[t]);
      u :| 0 <= u < |q.threads| && PushesInto(q, j, q.threads[u]);
    } else {
      assert PushesInto(q, j, q.threads[t]);
      u :| 0 <= u < |q.threads| && PopsFrom(q, j, q.threads[u]);
    }
  }

  function Flying<T>(q: Queue<T>): nat { Count(q.threads, th => InFlight(th)) }

  /** While any operation is in flight, some operation can complete, and
      completing it leaves one fewer: any scheduler that keeps letting threads
      that can complete do so finishes every operation in exactly Flying(q) steps. */
  lemma CompletionShrinks<T(!new)>(q: Queue<T>, t: nat)
    requires Inv(q) && CanComplete(q, t)
    ensures Enabled(q, Completion(q, t))
    ensures Inv(Apply(q, Completion(q, t)))
    ensures Flying(Apply(q, Completion(q, t))) == Flying(q) - 1
  {
    StepKeeps(q, Completion(q, t));
    SlotInRange(q, q.threads[t].ticket);
    CountUpdate(q.threads, t, Idle, th => InFlight(th));
  }

  lemma {:induction false} DrainSchedule<T(!new)>(q: Queue<T>) returns (acts: seq<Action<T>>)
    requires Inv(q)
    ensures CanRun(q, acts) && |acts| == Flying(q)
    ensures Flying(Run(q, acts)) == 0
    decreases Flying(q)
  {
    acts := [];
    CountWitness(q.threads, th => InFlight(th));
    if Flying(q) > 0 {
      var t :| 0 <= t < |q.threads| && InFlight(q.threads[t]);
      var u := t;
      if !CanComplete(q, t) {
        u := SpinnerHasPartner(q, t);
      }
      CompletionShrinks(q, u);
      var rest := DrainSchedule(Apply(q, Completion(q, u)));
      acts := [Completion(q, u)] + rest;
      assert acts[1..] == rest;
    }
  }

  /** With no operation in flight the slots hold exactly the outstanding tickets;
      when moreover every ticket has been popped, all completed pushes were taken. */
  lemma QuietQueue<T(!new)>(q: Queue<T>, j: nat)
    requires Inv(q) && j < |q.cells|
    requires forall t :: 0 <= t < |q.threads| ==> !InFlight(q.threads[t])
    ensures q.cells[j].Item? <==> Outstanding(q, j)
  {
    assert Balanced(q, j);
    CountNone(q.threads, th => PushesInto(q, j, th));
    CountNone(q.threads, th => PopsFrom(q, j, th));
  }

  lemma DrainedQueue<T(!new)>(q: Queue<T>)
    requires Inv(q) && q.head == q.tail
    requires forall t :: 0 <= t < |q.threads| ==> !q.threads[t].PopTake?
    ensures q.stored == q.taken
    ensures forall t :: 0 <= t < |q.threads| ==> !q.threads[t].PushStore?
  {
    forall j | 0 <= j < |q.cells|
      ensures q.cells[j].Nil? && Pushers(q, j) == 0
    {
      assert Balanced(q, j);
      CountNone(q.threads, th => PopsFrom(q, j, th));
    }
    forall x: T
      ensures q.stored[x] == q.taken[x]
    {
      assert Held(q.cells, x) >= 0;
      CountNone(q.cells, c => c == Item(x));
    }
    forall t | 0 <= t < |q.threads|
      ensures !q.threads[t].PushStore?
    {
      if q.threads[t].PushStore? {
        SlotInRange(q, q.threads[t].ticket);
        var j := q.Slot(q.threads[t].ticket);
        assert q.cells[j].Nil? && Pushers(q, j) == 0;
        CountWitness(q.threads, th => PushesInto(q, j, th));
      }
    }
  }

  // ----- What try_push and try_pop answer, and that they get through

  /** The full test as a step, on loads of any permitted age: the push gives up
      exactly when the two counters it read are at least one ring apart. */
  lemma CheckPushAnswers<T(!new)>(q: Queue<T>, t: nat, seen: nat)
    requires Inv(q) && q.bits < 31 && Enabled(q, CheckPush(t, seen))
    requires seen - q.threads[t].own < HALF32
    ensures var th, th' := q.threads[t], Apply(q, CheckPush(t, seen)).threads[t];
            if th.own - seen >= q.Size() then th' == Idle else th' == PushCas(th.v, th.own)
  {
    assert ThreadOk(q, q.threads[t]);
    SizeFits(q.bits + 1);
  }

  /** The empty test likewise: the pop gives up exactly when the head it read is
      not past the tail it read. */
  lemma CheckPopAnswers<T(!new)>(q: Queue<T>, t: nat, seen: nat)
    requires Inv(q) && Enabled(q, CheckPop(t, seen))
    requires seen - q.threads[t].own < HALF32 && q.threads[t].own - seen <= HALF32
    ensures var th, th' := q.threads[t], Apply(q, CheckPop(t, seen)).threads[t];
            if seen <= th.own then th' == Idle else th' == PopCas(th.own)
  {
  }

  /** With current loads try_push gives up if and only if the ring is full. */
  lemma PushRefusedIff<T(!new)>(q: Queue<T>, t: nat, v: T)
    requires Inv(q) && q.bits < 31 && t < |q.threads| && q.threads[t].Idle?
    ensures Enabled(q, BeginPush(t, v, q.head))
    ensures var q1 := Apply(q, BeginPush(t, v, q.head));
            && Inv(q1) && Enabled(q1, CheckPush(t, q1.tail))
            && var q2 := Apply(q1, CheckPush(t, q1.tail));
               && Inv(q2)
               && (q2.threads[t].Idle? <==> q.head - q.tail == q.Size())
               && (!q2.threads[t].Idle? ==> q2 == Goto(q, t, PushCas(v, q.head)))
  {
    SizeFits(q.bits + 1);
    StepKeeps(q, BeginPush(t, v, q.head));
    var q1 := Apply(q, BeginPush(t, v, q.head));
    CheckPushAnswers(q1, t, q1.tail);
    StepKeeps(q1, CheckPush(t, q1.tail));
  }

  /** With current loads try_pop gives up if and only if the ring is empty. */
  lemma PopRefusedIff<T(!new)>(q: Queue<T>, t: nat)
    requires Inv(q) && q.bits < 31 && t < |q.threads| && q.threads[t].Idle?
    ensures Enabled(q, BeginPop(t, q.tail))
    ensures var q1 := Apply(q, BeginPop(t, q.tail));
            && Inv(q1) && Enabled(q1, CheckPop(t, q1.head))
            && var q2 := Apply(q1, CheckPop(t, q1.head));
               && Inv(q2)
               && (q2.threads[t].Idle? <==> q.head == q.tail)
               && (!q2.threads[t].Idle? ==> q2 == Goto(q, t, PopCas(q.tail)))
  {
    SizeFits(q.bits + 1);
    StepKeeps(q, BeginPop(t, q.tail));
    var q1 := Apply(q, BeginPop(t, q.tail));
    CheckPopAnswers(q1, t, q1.head);
    StepKeeps(q1, CheckPop(t, q1.head));
  }

  /** A ring of 2^31 slots, whose size reads as a negative int, refuses every push. */
  lemma LargestRingRefuses<T(!new)>(q: Queue<T>, t: nat, seen: nat)
    requires Inv(q) && q.bits == 31 && Enabled(q, CheckPush(t, seen))
    ensures Apply(q, CheckPush(t, seen)).threads[t].Idle?
  {
    Pow2Divides32(1);
    assert LooksFull(q.threads[t].own, seen, HALF32);
  }

  lemma RunOne<T(!new)>(q: Queue<T>, a: Action<T>, rest: seq<Action<T>>)
    requires q.Shaped() && Enabled(q, a) && CanRun(Apply(q, a), rest)
    ensures CanRun(q, [a] + rest) && Run(q, [a] + rest) == Run(Apply(q, a), rest)
  {
    assert ([a] + rest)[1..] == rest;
  }

  /** A push that holds its ticket can finish: at once, or after the one pop that
      still has to empty its slot. */
  lemma StoreSchedule<T(!new)>(q: Queue<T>, t: nat) returns (acts: seq<Action<T>>)
    requires Inv(q) && t < |q.threads| && q.threads[t].PushStore?
    ensures CanRun(q, acts)
    ensures var e := Run(q, acts);
            t < |e.threads| && e.threads[t].Idle?
            && e.head == q.head && e.stored == q.stored + multiset{q.threads[t].v}
    ensures CanComplete(q, t) ==> acts == [Store(t)]
  {
    SlotInRange(q, q.threads[t].ticket);
    if CanComplete(q, t) {
      RunOne(q, Store(t), []);
      acts := [Store(t)];
    } else {
      var u := SpinnerHasPartner(q, t);
      var r := Apply(q, Take(u));
      SlotInRange(r, r.threads[t].ticket);
      RunOne(r, Store(t), []);
      RunOne(q, Take(u), [Store(t)]);
      acts := [Take(u)] + [Store(t)];
    }
  }

  /** A pop that holds its ticket likewise; it returns the value x. */
  lemma TakeSchedule<T(!new)>(q: Queue<T>, t: nat) returns (acts: seq<Action<T>>, x: T)
    requires Inv(q) && t < |q.threads| && q.threads[t].PopTake?
    ensures CanRun(q, acts)
    ensures var e := Run(q, acts);
            t < |e.threads| && e.threads[t].Idle?
            && e.tail == q.tail && e.taken == q.taken + multiset{x}
  {
    SlotInRange(q, q.threads[t].ticket);
    var j := q.Slot(q.threads[t].ticket);
    if CanComplete(q, t) {
      RunOne(q, Take(t), []);
      acts, x := [Take(t)], q.cells[j].v;
    } else {
      var u := SpinnerHasPartner(q, t);
      var r := Apply(q, Store(u));
      SlotInRange(r, r.threads[t].ticket);
      RunOne(r, Take(t), []);
      RunOne(q, Store(u), [Take(t)]);
      acts, x := [Store(u)] + [Take(t)], q.threads[u].v;
    }
  }

  /** Whenever there is room, try_push can get its value into the ring: from every
      reachable state some schedule ends with the call returned, its ticket
      claimed and exactly its value more stored. */
  lemma PushSchedule<T(!new)>(q: Queue<T>, t: nat, v: T) returns (acts: seq<Action<T>>)
    requires Inv(q) && q.bits < 31 && t < |q.threads| && q.threads[t].Idle?
    requires q.head - q.tail < q.Size()
    ensures CanRun(q, acts)
    ensures var e := Run(q, acts);
            t < |e.threads| && e.threads[t].Idle?
            && e.head == q.head + 1 && e.stored == q.stored + multiset{v}
  {
    PushRefusedIff(q, t, v);
    var q1 := Apply(q, BeginPush(t, v, q.head));
    var q2 := Apply(q1, CheckPush(t, q1.tail));
    StepKeeps(q2, CasPush(t));
    var q3 := Apply(q2, CasPush(t));
    var rest := StoreSchedule(q3, t);
    RunOne(q2, CasPush(t), rest);
    RunOne(q1, CheckPush(t, q1.tail), [CasPush(t)] + rest);
    RunOne(q, BeginPush(t, v, q.head), [CheckPush(t, q1.tail)] + ([CasPush(t)] + rest));
    acts := [BeginPush(t, v, q.head)] + ([CheckPush(t, q1.tail)] + ([CasPush(t)] + rest));
  }

  /** Whenever a ticket is outstanding, try_pop can return a value. */
  lemma PopSchedule<T(!new)>(q: Queue<T>, t: nat) returns (acts: seq<Action<T>>, x: T)
    requires Inv(q) && q.bits < 31 && t < |q.threads| && q.threads[t].Idle?
    requires q.tail < q.head
    ensures CanRun(q, acts)
    ensures var e := Run(q, acts);
            t < |e.threads| && e.threads[t].Idle?
            && e.tail == q.tail + 1 && e.taken == q.taken + multiset{x}
  {
    PopRefusedIff(q, t);
    var q1 := Apply(q, BeginPop(t, q.tail));
    var q2 := Apply(q1, CheckPop(t, q1.head));
    StepKeeps(q2, CasPop(t));
    var q3 := Apply(q2, CasPop(t));
    var rest;
    rest, x := TakeSchedule(q3, t);
    RunOne(q2, CasPop(t), rest);
    RunOne(q1, CheckPop(t, q1.head), [CasPop(t)] + rest);
    RunOne(q, BeginPop(t, q.tail), [CheckPop(t, q1.head)] + ([CasPop(t)] + rest));
    acts := [BeginPop(t, q.tail)] + ([CheckPop(t, q1.head)] + ([CasPop(t)] + rest));
  }
}
