/** The double-buffered hand-off from many producers to one worker.

    Two ring queues take turns: producers push through the submission pointer,
    the worker swaps the two pointers and drains the other queue, then hands the
    batch to UpdateContext.  A producer reads the pointer in a step of its own,
    so it may push into a queue that has been swapped away since. */
module LinearWorkQueue {
  import opened Bits
  import opened Counting
  import AQ = AtomicQueue

  /** What a producer holds while TryPush runs: the queue it read, and whether
      its ticket on that queue is already claimed. */
  datatype Pointer = NoPointer | Reading(i: nat) | Claimed(i: nat)

  /** Where the worker loop stands. */
  datatype Phase = Swapping | Draining | Handing

  /** Thread 0 of both queues is the worker, the others are the producers.
      `claims` counts the tickets popped in the current round. */
  datatype System<T> = System(
    q: seq<AQ.Queue<T>>, sub: nat,
    pointers: seq<Pointer>,
    phase: Phase, started: nat, finished: nat, claims: nat,
    batch: seq<T>, delivered: multiset<T>)
  {
    function Fetch(): int { 1 - sub }
  }

  datatype Move<T> =
    | ReadPointer(p: nat)
    | Push(p: nat, push: AQ.Action<T>)
    | Swap
    | Pop(pop: AQ.Action<T>)
    | HandOver

  predicate IsPush<T>(a: AQ.Action<T>) { a.BeginPush? || a.CheckPush? || a.CasPush? || a.Store? }
  predicate IsPop<T>(a: AQ.Action<T>) { a.BeginPop? || a.CheckPop? || a.CasPop? || a.Take? }

  predicate Shaped<T>(s: System<T>) {
    |s.q| == 2 && s.sub < 2 && s.q[0].Shaped() && s.q[1].Shaped()
  }

  /** The worker's loads see the current counters; the producers' may be stale. */
  predicate Enabled<T(!new)>(s: System<T>, m: Move<T>)
    requires Shaped(s)
  {
    match m
    case ReadPointer(p) => 0 < p < |s.pointers| && s.pointers[p].NoPointer?
    case Push(p, a) =>
      && 0 < p < |s.pointers| && a.t == p && IsPush(a)
      && !s.pointers[p].NoPointer? && s.pointers[p].i < 2
      && AQ.Enabled(s.q[s.pointers[p].i], a)
    case Swap => s.phase.Swapping?
    case Pop(a) =>
      && s.phase.Draining? && a.t == 0 && IsPop(a)
      && AQ.Enabled(s.q[s.Fetch()], a)
      && (a.BeginPop? ==> a.seen == s.q[s.Fetch()].tail)
      && (a.CheckPop? ==> a.seen == s.q[s.Fetch()].head)
    case HandOver => s.phase.Handing?
  }

  /** A try_push that has returned gives the pointer up; one that has just
      claimed its ticket remembers that. */
  function After<T>(ptr: Pointer, th: AQ.Thread<T>): Pointer
    requires !ptr.NoPointer?
  {
    if th.Idle? then NoPointer else if th.PushStore? then Claimed(ptr.i) else ptr
  }

  function Apply<T(!new)>(s: System<T>, m: Move<T>): System<T>
    requires Shaped(s) && Enabled(s, m)
  {
    match m
    case ReadPointer(p) => s.(pointers := s.pointers[p := Reading(s.sub)])
    case Push(p, a) =>
      var i := s.pointers[p].i;
      var q' := AQ.Apply(s.q[i], a);
      s.(q := s.q[i := q'], pointers := s.pointers[p := After(s.pointers[p], q'.threads[p])])
    case Swap => s.(sub := 1 - s.sub, phase := Draining, started := s.started + 1, claims := 0)
    case Pop(a) =>
      var f := s.Fetch();
      var q' := AQ.Apply(s.q[f], a);
      var s' := s.(q := s.q[f := q']);
      if a.Take? && q'.threads[0].Idle? then s'.(batch := s.batch + [Taken(s.q[f], a)])
      else if a.CheckPop? && q'.threads[0].Idle? then s'.(phase := Handing)
      else if a.CasPop? && q'.threads[0].PopTake? then s'.(claims := s.claims + 1)
      else s'
    case HandOver =>
      s.(phase := Swapping, finished := s.finished + 1,
         batch := [], delivered := s.delivered + multiset(s.batch))
  }

  /** The value a completed exchange returns. */
  function Taken<T(!new)>(q: AQ.Queue<T>, a: AQ.Action<T>): T
    requires q.Shaped() && a.Take? && AQ.Enabled(q, a) && AQ.Apply(q, a).threads[a.t].Idle?
  {
    AQ.SlotInRange(q, q.threads[a.t].ticket);
    q.cells[q.Slot(q.threads[a.t].ticket)].v
  }

  function Init<T>(bits: nat, shuffle: nat, producers: nat): System<T> {
    var q := AQ.Init<T>(bits, shuffle, producers + 1);
    System([q, q], 0, seq(producers + 1, _ => NoPointer), Swapping, 0, 0, 0, [], multiset{})
  }

  predicate CanRun<T(!new)>(s: System<T>, moves: seq<Move<T>>)
    decreases |moves|
  {
    moves == [] || (Shaped(s) && Enabled(s, moves[0]) && CanRun(Apply(s, moves[0]), moves[1..]))
  }

  function Run<T(!new)>(s: System<T>, moves: seq<Move<T>>): System<T>
    requires CanRun(s, moves)
    decreases |moves|
  {
    if moves == [] then s else Run(Apply(s, moves[0]), moves[1..])
  }

  // ----- The invariant

  /** Thread p of queue i agrees with the pointer of producer p. */
  predicate ProducerOk<T>(s: System<T>, i: nat, p: nat)
    requires i < |s.q| && p < |s.q[i].threads| && p < |s.pointers|
  {
    match s.q[i].threads[p]
    case Idle => s.pointers[p] != Claimed(i)
    case PushCheck(_, _) => s.pointers[p] == Reading(i)
    case PushCas(_, _) => s.pointers[p] == Reading(i)
    case PushStore(_, _) => s.pointers[p] == Claimed(i)
    case _ => false
  }

  /** The worker pops only from the queue it drains, and no one else moves tail. */
  predicate WorkerOk<T>(s: System<T>, i: nat)
    requires i < |s.q| && |s.q[i].threads| > 0
  {
    match s.q[i].threads[0]
    case Idle => true
    case PopCheck(own) => s.phase.Draining? && i == s.Fetch() && own == s.q[i].tail
    case PopCas(own) => s.phase.Draining? && i == s.Fetch() && own == s.q[i].tail
    case PopTake(_) => s.phase.Draining? && i == s.Fetch()
    case _ => false
  }

  predicate QueueOk<T>(s: System<T>, i: nat)
    requires |s.q| == 2 && i < 2
  {
    && |s.q[i].threads| == |s.pointers| > 0
    && (forall p :: 0 < p < |s.pointers| ==> ProducerOk(s, i, p))
    && WorkerOk(s, i)
  }

  /** Who is where: threads, pointers and rounds agree. */
  predicate Placed<T>(s: System<T>) {
    && Shaped(s)
    && QueueOk(s, 0) && QueueOk(s, 1)
    && s.sub == s.started % 2
    && s.started == s.finished + (if s.phase.Swapping? then 0 else 1)
  }

  /** Producers that can still claim a ticket on the queue being drained. */
  function Late(pointers: seq<Pointer>, f: int): nat { Count(pointers, x => ReadingFrom(f, x)) }

  predicate ReadingFrom(f: int, x: Pointer) { x.Reading? && x.i == f }

  /** A round cannot be kept alive: tickets popped so far, tickets waiting and
      producers that can still claim one never add up to more than one queue
      plus the number of threads. */
  predicate RoundBounded<T>(s: System<T>)
    requires Shaped(s) && |s.q[s.Fetch()].threads| > 0
  {
    var q := s.q[s.Fetch()];
    !s.phase.Swapping? ==>
      && |s.batch| + (if q.threads[0].PopTake? then 1 else 0) <= s.claims
      && s.claims + (q.head - q.tail) + Late(s.pointers, s.Fetch()) <= q.Size() + |s.pointers|
  }

  /** What was popped is in the worker's batch or has been handed over. */
  predicate Accounted<T>(s: System<T>)
    requires |s.q| == 2
  {
    && s.delivered + multiset(s.batch) == s.q[0].taken + s.q[1].taken
    && (s.phase.Swapping? ==> s.batch == [])
  }

  ghost predicate Inv<T(!new)>(s: System<T>) {
    && Placed(s) && RoundBounded(s) && Accounted(s)
    && AQ.Inv(s.q[0]) && AQ.Inv(s.q[1])
    && s.q[0].bits < 31 && s.q[1].bits < 31
  }

  lemma InitInv<T(!new)>(bits: nat, shuffle: nat, producers: nat)
    requires bits < 31 && 2 * shuffle <= bits
    ensures Inv(Init<T>(bits, shuffle, producers))
  {
    AQ.InitInv<T>(bits, shuffle, producers + 1);
  }

  /** A push step changes its own thread and possibly head; never tail or taken. */
  lemma PushFrame<T(!new)>(q: AQ.Queue<T>, a: AQ.Action<T>)
    requires q.Shaped() && AQ.Enabled(q, a) && IsPush(a)
    ensures var q' := AQ.Apply(q, a);
            && q'.Shaped() && q'.bits == q.bits && q'.tail == q.tail && q'.taken == q.taken
            && q.stored <= q'.stored
            && q'.threads == q.threads[a.t := q'.threads[a.t]]
            && q'.head == q.head + (if !q.threads[a.t].PushStore? && q'.threads[a.t].PushStore? then 1 else 0)
            && !q'.threads[a.t].PopCheck? && !q'.threads[a.t].PopCas? && !q'.threads[a.t].PopTake?
            && (q'.threads[a.t].Idle? || q'.threads[a.t].PushStore? || !q.threads[a.t].PushStore?)
  {
    if a.Store? {
      AQ.SlotInRange(q, q.threads[a.t].ticket);
    }
  }

  /** The same step seen from the system: one producer moved on one queue. */
  predicate ProducerStep<T>(s: System<T>, s': System<T>, p: nat, i: nat)
    requires Placed(s)
  {
    && 0 < p < |s.pointers| && !s.pointers[p].NoPointer? && s.pointers[p].i == i < 2 && Shaped(s')
    && |s'.q[i].threads| == |s.q[i].threads|
    && var q, q' := s.q[i], s'.q[i];
       && q'.bits == q.bits && q'.tail == q.tail && q'.taken == q.taken
       && q'.threads == q.threads[p := q'.threads[p]]
       && q'.head == q.head + (if !q.threads[p].PushStore? && q'.threads[p].PushStore? then 1 else 0)
       && (q'.threads[p].Idle? || q'.threads[p].PushCheck? || q'.threads[p].PushCas? || q'.threads[p].PushStore?)
       && (q'.threads[p].Idle? || q'.threads[p].PushStore? || !q.threads[p].PushStore?)
       && s' == s.(q := s.q[i := q'], pointers := s.pointers[p := After(s.pointers[p], q'.threads[p])])
  }

  lemma ProducerStepPlaced<T>(s: System<T>, s': System<T>, p: nat, i: nat)
    requires Placed(s) && ProducerStep(s, s', p, i)
    ensures Placed(s')
  {
    var j := 1 - i;
    assert QueueOk(s, i) && QueueOk(s, j);
    assert ProducerOk(s, i, p) && ProducerOk(s, j, p);
    assert s'.q[j] == s.q[j];
    forall o | 0 < o < |s.pointers|
      ensures ProducerOk(s', i, o) && ProducerOk(s', j, o)
    {
      assert ProducerOk(s, i, o) && ProducerOk(s, j, o);
    }
    assert WorkerOk(s', i) && WorkerOk(s', j);
    assert QueueOk(s', i) && QueueOk(s', j);
  }

  lemma ProducerStepBounded<T>(s: System<T>, s': System<T>, p: nat, i: nat)
    requires Placed(s) && RoundBounded(s) && ProducerStep(s, s', p, i) && Placed(s')
    ensures RoundBounded(s')
  {
    assert QueueOk(s, i) && ProducerOk(s, i, p);
    var f := s.Fetch();
    CountUpdate(s.pointers, p, s'.pointers[p], x => ReadingFrom(f, x));
  }

  lemma PushKeeps<T(!new)>(s: System<T>, m: Move<T>)
    requires Inv(s) && Enabled(s, m) && m.Push?
    ensures Inv(Apply(s, m))
  {
    var i := s.pointers[m.p].i;
    var s' := Apply(s, m);
    PushFrame(s.q[i], m.push);
    AQ.StepKeeps(s.q[i], m.push);
    assert ProducerStep(s, s', m.p, i);
    ProducerStepPlaced(s, s', m.p, i);
    ProducerStepBounded(s, s', m.p, i);
  }

  /** What a pop step of the worker may do to tail, to the batch and to the phase. */
  ghost predicate WorkerStep<T(!new)>(s: System<T>, s': System<T>)
    requires Placed(s)
  {
    && Shaped(s')
    && var f := s.Fetch();
       var q, q' := s.q[f], s'.q[f];
       && q'.bits == q.bits && q'.head == q.head && q'.stored == q.stored
       && |q'.threads| == |q.threads| && q'.threads == q.threads[0 := q'.threads[0]]
       && q.tail <= q'.tail <= q.tail + 1
       && (q'.tail == q.tail + 1 ==> !q.threads[0].PopTake? && q'.threads[0].PopTake?)
       && (q'.threads[0].PopTake? ==> q.threads[0].PopTake? || q'.tail == q.tail + 1)
       && WorkerOk(s', f)
       && (if q.threads[0].PopTake? && !q'.threads[0].PopTake?
           then exists v :: s'.batch == s.batch + [v] && q'.taken == q.taken + multiset{v}
           else s'.batch == s.batch && q'.taken == q.taken)
       && (s'.phase == s.phase || s'.phase.Handing?)
       && s' == s.(q := s.q[f := q'], phase := s'.phase, batch := s'.batch,
                   claims := s.claims + (q'.tail - q.tail))
  }

  /** The queue's side of a pop step by a sole consumer that holds the current tail. */
  lemma PopFrame<T(!new)>(q: AQ.Queue<T>, a: AQ.Action<T>)
    requires q.Shaped() && AQ.Enabled(q, a) && IsPop(a)
    requires q.threads[a.t].PopCheck? || q.threads[a.t].PopCas? ==> q.threads[a.t].own == q.tail
    requires a.BeginPop? ==> a.seen == q.tail
    ensures var q' := AQ.Apply(q, a);
            var th, th' := q.threads[a.t], q'.threads[a.t];
            && q'.Shaped() && q'.bits == q.bits && q'.head == q.head && q'.stored == q.stored
            && q'.threads == q.threads[a.t := th']
            && q'.tail == q.tail + (if a.CasPop? then 1 else 0)
            && (a.BeginPop? ==> th.Idle? && th' == AQ.PopCheck(q.tail))
            && (a.CheckPop? ==> th.PopCheck? && (th'.Idle? || th' == AQ.PopCas(q.tail)))
            && (a.CasPop? ==> th.PopCas? && th'.PopTake?)
            && (a.Take? ==> th.PopTake? && (th'.Idle? || q' == q))
            && q'.taken == q.taken + (if a.Take? && th'.Idle? then multiset{Taken(q, a)} else multiset{})
  {
    if a.Take? {
      AQ.SlotInRange(q, q.threads[a.t].ticket);
    }
  }

  lemma PopIsWorkerStep<T(!new)>(s: System<T>, m: Move<T>)
    requires Placed(s) && Enabled(s, m) && m.Pop?
    ensures WorkerStep(s, Apply(s, m))
  {
    var f := s.Fetch();
    assert WorkerOk(s, f);
    PopFrame(s.q[f], m.pop);
    if m.pop.Take? && Apply(s, m).q[f].threads[0].Idle? {
      assert Apply(s, m).batch == s.batch + [Taken(s.q[f], m.pop)];
    }
  }

  lemma BatchGrows<T>(d: multiset<T>, b: seq<T>, v: T, t0: multiset<T>, t1: multiset<T>)
    requires d + multiset(b) == t0 + t1
    ensures d + multiset(b + [v]) == (t0 + multiset{v}) + t1 == t0 + (t1 + multiset{v})
  {
    assert d + multiset(b + [v]) == (d + multiset(b)) + multiset{v};
    assert (t0 + t1) + multiset{v} == (t0 + multiset{v}) + t1;
  }

  lemma WorkerMoved<T(!new)>(s: System<T>, s': System<T>)
    requires Placed(s) && RoundBounded(s) && Accounted(s) && s.phase.Draining? && WorkerStep(s, s')
    ensures Placed(s') && RoundBounded(s') && Accounted(s')
  {
    var f := s.Fetch();
    var j := 1 - f;
    assert QueueOk(s, f) && QueueOk(s, j);
    assert s'.q[j] == s.q[j] && s.q[j].threads[0].Idle?;
    if s'.batch != s.batch {
      var v :| s'.batch == s.batch + [v] && s'.q[f].taken == s.q[f].taken + multiset{v};
      BatchGrows(s.delivered, s.batch, v, s.q[0].taken, s.q[1].taken);
    }
    forall o | 0 < o < |s.pointers|
      ensures ProducerOk(s', f, o) && ProducerOk(s', j, o)
    {
      assert ProducerOk(s, f, o) && ProducerOk(s, j, o);
    }
    assert QueueOk(s', f) && QueueOk(s', j);
  }

  /** Reading the pointer, swapping and handing over touch no queue. */
  lemma LocalPlaced<T(!new)>(s: System<T>, m: Move<T>)
    requires Placed(s) && Accounted(s) && Enabled(s, m)
    requires m.ReadPointer? || m.Swap? || m.HandOver?
    ensures var s' := Apply(s, m); Placed(s') && Accounted(s')
  {
    var s' := Apply(s, m);
    forall i, o | 0 <= i < 2 && 0 < o < |s.pointers|
      ensures ProducerOk(s', i, o)
    {
      assert QueueOk(s, i) && ProducerOk(s, i, o);
    }
    assert WorkerOk(s, 0) && WorkerOk(s, 1);
    assert QueueOk(s', 0) && QueueOk(s', 1);
  }

  lemma LocalBounded<T(!new)>(s: System<T>, m: Move<T>)
    requires Placed(s) && RoundBounded(s) && Accounted(s) && Enabled(s, m)
    requires m.ReadPointer? || m.Swap? || m.HandOver?
    requires forall i :: 0 <= i < 2 ==> s.q[i].head <= s.q[i].tail + s.q[i].Size()
    requires Placed(Apply(s, m))
    ensures RoundBounded(Apply(s, m))
  {
    var s' := Apply(s, m);
    assert WorkerOk(s', s'.Fetch());
    if m.ReadPointer? {
      var f := s.Fetch();
      CountUpdate(s.pointers, m.p, s'.pointers[m.p], x => ReadingFrom(f, x));
    } else if m.Swap? {
      var f := s'.Fetch();
      CountAtMost(s'.pointers, x => ReadingFrom(f, x));
      assert WorkerOk(s, f);
    }
  }

  lemma PopQueues<T(!new)>(s: System<T>, m: Move<T>)
    requires Shaped(s) && AQ.Inv(s.q[0]) && AQ.Inv(s.q[1]) && Enabled(s, m) && m.Pop?
    ensures var s' := Apply(s, m); |s'.q| == 2 && AQ.Inv(s'.q[0]) && AQ.Inv(s'.q[1])
  {
    AQ.StepKeeps(s.q[s.Fetch()], m.pop);
  }

  lemma PopKeeps<T(!new)>(s: System<T>, m: Move<T>)
    requires Inv(s) && Enabled(s, m) && m.Pop?
    ensures Inv(Apply(s, m))
  {
    PopIsWorkerStep(s, m);
    WorkerMoved(s, Apply(s, m));
    PopQueues(s, m);
  }

  lemma StepKeeps<T(!new)>(s: System<T>, m: Move<T>)
    requires Inv(s) && Enabled(s, m)
    ensures Inv(Apply(s, m))
  {
    if m.Push? {
      PushKeeps(s, m);
    } else if m.Pop? {
      PopKeeps(s, m);
    } else {
      LocalPlaced(s, m);
      LocalBounded(s, m);
    }
  }

  // ----- Delivery

  /** Round r drains the queue that was the submission queue before it. */
  function DrainedIn(round: nat): nat { (round + 1) % 2 }

  /** What a later state owes to an earlier one about queue i: no stored value
      disappears, and once a round that started since has drained queue i,
      everything stored there by then has been taken. */
  predicate Owes<T>(early: System<T>, s: System<T>, i: nat)
    requires |early.q| == |s.q| == 2 && i < 2
  {
    && early.started <= s.started
    && early.q[i].stored <= s.q[i].stored
    && (forall r :: early.started < r <= s.finished && DrainedIn(r) == i ==>
          early.q[i].stored <= s.q[i].taken)
    && (s.phase.Handing? && early.started < s.started && DrainedIn(s.started) == i ==>
          early.q[i].stored <= s.q[i].taken)
  }

  /** The drain loop ends only on an empty queue with nothing half done on it. */
  lemma EmptyAnswerMeansDrained<T(!new)>(s: System<T>, m: Move<T>)
    requires Inv(s) && Enabled(s, m) && m.Pop? && Apply(s, m).phase.Handing?
    ensures var q := Apply(s, m).q[s.Fetch()]; q.stored == q.taken
  {
    var f := s.Fetch();
    var q := s.q[f];
    assert WorkerOk(s, f) && QueueOk(s, f);
    AQ.SizeFits(q.bits);
    HalfSize(q.bits);
    assert LooksEmpty(q.head, q.tail);
    forall t | 0 <= t < |q.threads|
      ensures !q.threads[t].PopTake?
    {
      assert t > 0 ==> ProducerOk(s, f, t);
    }
    AQ.DrainedQueue(q);
  }

  lemma HalfSize(bits: nat)
    requires bits < 31
    ensures Pow2(bits) < HALF32
  {
    AQ.SizeFits(bits + 1);
  }

  /** One step, as far as delivery is concerned. */
  predicate Advances<T>(s: System<T>, s': System<T>) {
    && |s.q| == |s'.q| == 2
    && (forall i :: 0 <= i < 2 ==> s.q[i].stored <= s'.q[i].stored && s.q[i].taken <= s'.q[i].taken)
    && s.started <= s'.started
    && (s'.finished == s.finished || (s.phase.Handing? && s'.finished == s.finished + 1 == s.started))
    && (s'.phase.Handing? ==> s'.started == s.started)
    && (s'.phase.Handing? && !s.phase.Handing? ==>
          s'.q[DrainedIn(s.started)].stored == s'.q[DrainedIn(s.started)].taken)
  }

  lemma PushAdvances<T(!new)>(s: System<T>, m: Move<T>)
    requires Placed(s) && Enabled(s, m) && m.Push?
    ensures Advances(s, Apply(s, m))
  {
    PushFrame(s.q[s.pointers[m.p].i], m.push);
  }

  lemma WorkerStepAdvances<T(!new)>(s: System<T>, s': System<T>)
    requires Placed(s) && s.phase.Draining? && WorkerStep(s, s')
    requires s'.phase.Handing? ==> s'.q[s.Fetch()].stored == s'.q[s.Fetch()].taken
    ensures Advances(s, s')
  {
    var f := s.Fetch();
    assert DrainedIn(s.started) == f;
    assert s.q[f].taken <= s'.q[f].taken;
  }

  lemma PopAdvances<T(!new)>(s: System<T>, m: Move<T>)
    requires Inv(s) && Enabled(s, m) && m.Pop?
    ensures Advances(s, Apply(s, m))
  {
    PopIsWorkerStep(s, m);
    if Apply(s, m).phase.Handing? {
      EmptyAnswerMeansDrained(s, m);
    }
    WorkerStepAdvances(s, Apply(s, m));
  }

  lemma AdvanceOwes<T>(early: System<T>, s: System<T>, s': System<T>, i: nat)
    requires |early.q| == 2 && i < 2 && Advances(s, s') && Owes(early, s, i)
    ensures Owes(early, s', i)
  {
  }

  lemma StepOwes<T(!new)>(early: System<T>, s: System<T>, m: Move<T>, i: nat)
    requires Inv(s) && Enabled(s, m) && |early.q| == 2 && i < 2 && Owes(early, s, i)
    ensures |Apply(s, m).q| == 2 && Owes(early, Apply(s, m), i)
  {
    if m.Push? {
      PushAdvances(s, m);
    } else if m.Pop? {
      PopAdvances(s, m);
    }
    AdvanceOwes(early, s, Apply(s, m), i);
  }

  lemma {:induction false} RunOwes<T(!new)>(early: System<T>, s: System<T>, moves: seq<Move<T>>, i: nat)
    requires Inv(s) && CanRun(s, moves) && |early.q| == 2 && i < 2 && Owes(early, s, i)
    ensures Inv(Run(s, moves)) && Owes(early, Run(s, moves), i)
    decreases |moves|
  {
    if moves != [] {
      StepKeeps(s, moves[0]);
      StepOwes(early, s, moves[0], i);
      RunOwes(early, Apply(s, moves[0]), moves[1..], i);
    }
  }

  lemma TwoRoundsDrainBoth<T>(s: System<T>, e: System<T>)
    requires |s.q| == |e.q| == 2 && Owes(s, e, 0) && Owes(s, e, 1) && e.finished >= s.started + 2
    ensures s.q[0].stored + s.q[1].stored <= e.q[0].taken + e.q[1].taken
  {
    var r := s.started + 1;
    assert DrainedIn(r) + DrainedIn(r + 1) == 1;
    assert s.q[DrainedIn(r)].stored <= e.q[DrainedIn(r)].taken;
    assert s.q[DrainedIn(r + 1)].stored <= e.q[DrainedIn(r + 1)].taken;
    assert s.q[0].stored <= e.q[0].taken && s.q[1].stored <= e.q[1].taken;
  }

  /** Delivery: whatever producers finished storing by state s, in either queue,
      has reached the worker when two rounds that started after s are finished,
      and UpdateContext when no round is under way; also for producers that read
      the queue pointer before a swap. */
  lemma DeliveredWithinTwoRounds<T(!new)>(s: System<T>, moves: seq<Move<T>>)
    requires Inv(s) && CanRun(s, moves) && Run(s, moves).finished >= s.started + 2
    ensures var e := Run(s, moves);
            && Inv(e)
            && s.q[0].stored + s.q[1].stored <= e.delivered + multiset(e.batch)
            && (e.phase.Swapping? ==> s.q[0].stored + s.q[1].stored <= e.delivered)
  {
    RunOwes(s, s, moves, 0);
    RunOwes(s, s, moves, 1);
    TwoRoundsDrainBoth(s, Run(s, moves));
  }

  lemma NeverTwice<T(!new)>(q: AQ.Queue<T>)
    requires AQ.Inv(q)
    ensures q.taken <= q.stored
  {
    forall x: T
      ensures q.taken[x] <= q.stored[x]
    {
      assert AQ.Held(q.cells, x) >= 0;
    }
  }

  /** Exactly once, and bounded rounds, in every run from the start: what the
      worker has is never more than what was stored, value by value; and one
      batch never exceeds one queue plus the number of threads. */
  lemma EveryRunIsSafe<T(!new)>(bits: nat, shuffle: nat, producers: nat, moves: seq<Move<T>>)
    requires bits < 31 && 2 * shuffle <= bits
    requires CanRun(Init<T>(bits, shuffle, producers), moves)
    ensures var e := Run(Init<T>(bits, shuffle, producers), moves);
            && Inv(e)
            && e.delivered + multiset(e.batch) <= e.q[0].stored + e.q[1].stored
            && |e.batch| <= e.q[e.Fetch()].Size() + |e.pointers|
  {
    var s := Init<T>(bits, shuffle, producers);
    InitInv<T>(bits, shuffle, producers);
    RunOwes(s, s, moves, 0);
    var e := Run(s, moves);
    NeverTwice(e.q[0]);
    NeverTwice(e.q[1]);
  }

  // ----- A round can always be finished

  /** Steps the worker still needs on the queue it drains, when only it and the
      producers it waits for move. */
  function QueueWork<T(!new)>(q: AQ.Queue<T>): int
    requires q.Shaped() && |q.threads| > 0
  {
    var waiting := 5 * (q.head - q.tail);
    match q.threads[0]
    case PopCheck(_) => waiting + 3
    case PopCas(_) => waiting + 2
    case PopTake(ticket) =>
      AQ.SlotInRange(q, ticket);
      if q.cells[q.Slot(ticket)].Nil? then waiting + 6 else waiting + 5
    case _ => waiting + 4
  }

  function Work<T(!new)>(s: System<T>): int
    requires Placed(s)
  {
    match s.phase
    case Swapping => 0
    case Handing => 1
    case Draining => QueueWork(s.q[s.Fetch()])
  }

  /** The next pop action of a worker that is not waiting for a store. */
  function NextPop<T>(q: AQ.Queue<T>): AQ.Action<T>
    requires |q.threads| > 0
  {
    match q.threads[0]
    case PopCheck(_) => AQ.CheckPop(0, q.head)
    case PopCas(_) => AQ.CasPop(0)
    case PopTake(_) => AQ.Take(0)
    case _ => AQ.BeginPop(0, q.tail)
  }

  /** The worker's own position is a popper's, at the current tail. */
  predicate Popping<T>(q: AQ.Queue<T>) {
    && |q.threads| > 0
    && match q.threads[0]
       case Idle => true
       case PopCheck(own) => own == q.tail
       case PopCas(own) => own == q.tail
       case PopTake(_) => true
       case _ => false
  }

  predicate Waiting<T>(q: AQ.Queue<T>)
    requires q.Shaped()
  {
    |q.threads| > 0 && q.threads[0].PopTake? && !AQ.CanComplete(q, 0)
  }

  lemma PopProgress<T(!new)>(q: AQ.Queue<T>)
    requires AQ.Inv(q) && q.bits < 31 && Popping(q) && !Waiting(q)
    ensures IsPop(NextPop(q)) && AQ.Enabled(q, NextPop(q))
    ensures var r := AQ.Apply(q, NextPop(q));
            && r.Shaped() && |r.threads| > 0 && QueueWork(q) > 1
            && (if NextPop(q).CheckPop? && r.threads[0].Idle? then r.head == r.tail else QueueWork(r) < QueueWork(q))
  {
    HalfSize(q.bits);
    if q.threads[0].PopTake? {
      AQ.SlotInRange(q, q.threads[0].ticket);
    } else if q.threads[0].PopCas? {
      AQ.SlotInRange(q, q.threads[0].own);
      assert AQ.ThreadOk(q, q.threads[0]);
    } else if q.threads[0].PopCheck? {
      AQ.EmptyTestExact(q.head, q.tail);
    }
  }

  /** The partner's store ends the worker's wait. */
  lemma StoreProgress<T(!new)>(q: AQ.Queue<T>, u: nat)
    requires AQ.Inv(q) && Waiting(q) && 0 < u < |q.threads| && AQ.CanComplete(q, u) && q.threads[u].PushStore?
    requires q.Slot(q.threads[u].ticket) == q.Slot(q.threads[0].ticket)
    ensures AQ.Enabled(q, AQ.Store(u))
    ensures var r := AQ.Apply(q, AQ.Store(u));
            r.Shaped() && |r.threads| > 0 && QueueWork(r) < QueueWork(q)
  {
    AQ.SlotInRange(q, q.threads[u].ticket);
  }

  /** The round under way leaves its queue without outstanding tickets. */
  predicate Emptying<T>(s: System<T>)
    requires Shaped(s)
  {
    s.phase.Draining? || Emptied(s)
  }

  /** Some move brings the end of the round nearer. */
  lemma NextMove<T(!new)>(s: System<T>) returns (m: Move<T>)
    requires Inv(s) && !s.phase.Swapping?
    ensures Enabled(s, m) && !m.Swap? && Placed(Apply(s, m)) && 0 <= Work(Apply(s, m)) < Work(s)
    ensures Apply(s, m).started == s.started && KeepsIdle(s, Apply(s, m))
    ensures Emptying(s) ==> Emptying(Apply(s, m))
  {
    if s.phase.Handing? {
      m := HandOver;
      StepKeeps(s, m);
    } else {
      m := DrainMove(s);
      StepKeeps(s, m);
      WorkPositive(Apply(s, m));
    }
  }

  lemma WorkPositive<T(!new)>(s: System<T>)
    requires Inv(s)
    ensures Work(s) >= 0
  {
  }

  lemma DrainMove<T(!new)>(s: System<T>) returns (m: Move<T>)
    requires Inv(s) && s.phase.Draining?
    ensures Enabled(s, m) && (m.Push? || m.Pop?) && Inv(Apply(s, m)) && Work(Apply(s, m)) < Work(s)
    ensures Apply(s, m).started == s.started && KeepsIdle(s, Apply(s, m))
    ensures Apply(s, m).phase.Draining? || (Apply(s, m).phase.Handing? && Emptied(Apply(s, m)))
  {
    if Waiting(s.q[s.Fetch()]) {
      m := StoreMove(s);
    } else {
      m := PopMove(s);
    }
    StepKeeps(s, m);
  }

  /** Producers outside TryPush stay outside. */
  predicate KeepsIdle<T>(s: System<T>, s': System<T>) {
    && |s'.pointers| == |s.pointers|
    && forall p :: 0 <= p < |s.pointers| && s.pointers[p].NoPointer? ==> s'.pointers[p].NoPointer?
  }

  /** No ticket is outstanding on the worker's queue. */
  predicate Emptied<T>(s: System<T>)
    requires Shaped(s)
  {
    s.q[s.Fetch()].head == s.q[s.Fetch()].tail
  }

  /** The move changed only the queue being drained, and left less to do there. */
  predicate Nearer<T(!new)>(s: System<T>, s': System<T>)
    requires Shaped(s) && Shaped(s') && |s.q[s.Fetch()].threads| > 0
  {
    && s'.sub == s.sub && s'.started == s.started && KeepsIdle(s, s')
    && (|| (s'.phase.Handing? && Emptied(s'))
        || (&& s'.phase.Draining? && |s'.q[s.Fetch()].threads| > 0
            && QueueWork(s'.q[s.Fetch()]) < QueueWork(s.q[s.Fetch()])))
    && QueueWork(s.q[s.Fetch()]) > 1
  }

  lemma WorkerPops<T(!new)>(s: System<T>)
    requires Placed(s) && s.phase.Draining?
    ensures Popping(s.q[s.Fetch()])
  {
    assert QueueOk(s, s.Fetch()) && WorkerOk(s, s.Fetch());
  }

  lemma StoreMove<T(!new)>(s: System<T>) returns (m: Move<T>)
    requires Inv(s) && s.phase.Draining? && Waiting(s.q[s.Fetch()])
    ensures m.Push? && Enabled(s, m) && Shaped(Apply(s, m)) && Nearer(s, Apply(s, m))
  {
    var f := s.Fetch();
    var u := AQ.SpinnerHasPartner(s.q[f], 0);
    assert QueueOk(s, f) && ProducerOk(s, f, u);
    m := StoreBy(s, u);
  }

  lemma StoreBy<T(!new)>(s: System<T>, u: nat) returns (m: Move<T>)
    requires Shaped(s) && s.phase.Draining? && AQ.Inv(s.q[s.Fetch()]) && Waiting(s.q[s.Fetch()])
    requires 0 < u < |s.pointers| == |s.q[s.Fetch()].threads| && s.pointers[u] == Claimed(s.Fetch())
    requires var q := s.q[s.Fetch()];
             AQ.CanComplete(q, u) && q.threads[u].PushStore?
               && q.Slot(q.threads[u].ticket) == q.Slot(q.threads[0].ticket)
    ensures m.Push? && Enabled(s, m) && Shaped(Apply(s, m)) && Nearer(s, Apply(s, m))
  {
    StoreProgress(s.q[s.Fetch()], u);
    m := Push(u, AQ.Store(u));
  }

  lemma PopMove<T(!new)>(s: System<T>) returns (m: Move<T>)
    requires Inv(s) && s.phase.Draining? && !Waiting(s.q[s.Fetch()])
    ensures m.Pop? && Enabled(s, m) && Shaped(Apply(s, m)) && Nearer(s, Apply(s, m))
  {
    WorkerPops(s);
    m := PopBy(s);
  }

  lemma PopBy<T(!new)>(s: System<T>) returns (m: Move<T>)
    requires Shaped(s) && s.phase.Draining? && AQ.Inv(s.q[s.Fetch()]) && s.q[s.Fetch()].bits < 31
    requires Popping(s.q[s.Fetch()]) && !Waiting(s.q[s.Fetch()])
    ensures m.Pop? && Enabled(s, m) && Shaped(Apply(s, m)) && Nearer(s, Apply(s, m))
  {
    PopProgress(s.q[s.Fetch()]);
    m := Pop(NextPop(s.q[s.Fetch()]));
  }

  /** From every reachable state there is a schedule that ends the round under way. */
  lemma {:induction false} FinishRound<T(!new)>(s: System<T>) returns (moves: seq<Move<T>>)
    requires Inv(s)
    ensures CanRun(s, moves) && Inv(Run(s, moves)) && Run(s, moves).phase.Swapping?
            && Run(s, moves).started == s.started && KeepsIdle(s, Run(s, moves))
    ensures Emptying(s) ==> Emptied(Run(s, moves))
    decreases Work(s)
  {
    moves := [];
    if !s.phase.Swapping? {
      var m := NextMove(s);
      StepKeeps(s, m);
      var rest := FinishRound(Apply(s, m));
      moves := [m] + rest;
      assert moves[1..] == rest;
    }
  }

  lemma {:induction false} RunConcat<T(!new)>(s: System<T>, a: seq<Move<T>>, b: seq<Move<T>>)
    requires CanRun(s, a) && CanRun(Run(s, a), b)
    ensures CanRun(s, a + b) && Run(s, a + b) == Run(Run(s, a), b)
    decreases |a|
  {
    if a == [] {
      assert a + b == b;
    } else {
      assert (a + b)[1..] == a[1..] + b;
      RunConcat(Apply(s, a[0]), a[1..], b);
    }
  }

  /** So is the next round, from its swap to its hand-over. */
  lemma NextRound<T(!new)>(s: System<T>) returns (moves: seq<Move<T>>)
    requires Inv(s) && s.phase.Swapping?
    ensures CanRun(s, moves) && Inv(Run(s, moves)) && Run(s, moves).phase.Swapping?
    ensures Run(s, moves).started == s.started + 1 && KeepsIdle(s, Run(s, moves)) && Emptied(Run(s, moves))
  {
    StepKeeps(s, Swap);
    var rest := FinishRound(Apply(s, Swap));
    moves := [Swap] + rest;
    assert moves[1..] == rest;
  }

  /** Delivery is always possible: from every reachable state some schedule hands
      the worker everything that was stored. */
  lemma DeliverySchedule<T(!new)>(s: System<T>) returns (moves: seq<Move<T>>)
    requires Inv(s)
    ensures CanRun(s, moves) && s.q[0].stored + s.q[1].stored <= Run(s, moves).delivered
  {
    var a := FinishRound(s);
    var s1 := Run(s, a);
    var b := NextRound(s1);
    var s2 := Run(s1, b);
    var c := NextRound(s2);
    RunConcat(s1, b, c);
    RunConcat(s, a, b + c);
    moves := a + (b + c);
    DeliveredWithinTwoRounds(s, moves);
  }

  // ----- From TryPush to UpdateContext

  /** A producer outside TryPush. */
  predicate MayPush<T>(s: System<T>, p: nat) {
    Placed(s) && 0 < p < |s.pointers| && s.pointers[p].NoPointer?
  }

  /** The values stored in either queue so far. */
  function Stored<T>(s: System<T>): multiset<T>
    requires Shaped(s)
  {
    s.q[0].stored + s.q[1].stored
  }

  lemma MoveOne<T(!new)>(s: System<T>, m: Move<T>, rest: seq<Move<T>>)
    requires Shaped(s) && Enabled(s, m) && CanRun(Apply(s, m), rest)
    ensures CanRun(s, [m] + rest) && Run(s, [m] + rest) == Run(Apply(s, m), rest)
  {
    assert ([m] + rest)[1..] == rest;
  }

  lemma MoveTwo<T(!new)>(s: System<T>, a: Move<T>, b: Move<T>)
    requires Shaped(s) && Enabled(s, a) && Shaped(Apply(s, a)) && Enabled(Apply(s, a), b)
    ensures CanRun(s, [a, b]) && Run(s, [a, b]) == Apply(Apply(s, a), b)
  {
    MoveOne(Apply(s, a), b, []);
    assert [b] + [] == [b];
    MoveOne(s, a, [b]);
    assert [a] + [b] == [a, b];
  }

  /** No one pops from the submission queue, so a producer that holds a ticket
      there finds its slot empty. */
  lemma SubmissionSlotIsFree<T(!new)>(s: System<T>, p: nat)
    requires Inv(s) && 0 < p < |s.pointers| && s.pointers[p] == Claimed(s.sub)
    requires s.q[s.sub].threads[p].PushStore?
    ensures AQ.CanComplete(s.q[s.sub], p)
  {
    assert QueueOk(s, s.sub) && WorkerOk(s, s.sub);
    if !AQ.CanComplete(s.q[s.sub], p) {
      var u := AQ.SpinnerHasPartner(s.q[s.sub], p);
      assert u > 0 ==> ProducerOk(s, s.sub, u);
    }
  }

  /** The last step of TryPush on the submission queue. */
  lemma StoreLands<T(!new)>(s: System<T>, p: nat)
    requires Inv(s) && 0 < p < |s.pointers| && s.pointers[p] == Claimed(s.sub)
    requires s.q[s.sub].threads[p].PushStore?
    ensures Enabled(s, Push(p, AQ.Store(p)))
    ensures var s' := Apply(s, Push(p, AQ.Store(p)));
            && Inv(s') && |s'.q| == 2 && s'.q[1 - s.sub] == s.q[1 - s.sub]
            && s'.q[s.sub].stored == s.q[s.sub].stored + multiset{s.q[s.sub].threads[p].v}
            && Stored(s') == Stored(s) + multiset{s.q[s.sub].threads[p].v}
  {
    SubmissionSlotIsFree(s, p);
    AQ.SlotInRange(s.q[s.sub], s.q[s.sub].threads[p].ticket);
    StepKeeps(s, Push(p, AQ.Store(p)));
  }

  /** One push step on the submission queue that does not end the call or claim a ticket. */
  lemma QuietPush<T(!new)>(s: System<T>, p: nat, a: AQ.Action<T>)
    requires Inv(s) && 0 < p < |s.pointers| && s.pointers[p] == Reading(s.sub)
    requires IsPush(a) && a.t == p && AQ.Enabled(s.q[s.sub], a)
    requires var r := AQ.Apply(s.q[s.sub], a); r == AQ.Goto(s.q[s.sub], p, r.threads[p])
    requires !AQ.Apply(s.q[s.sub], a).threads[p].Idle? && !AQ.Apply(s.q[s.sub], a).threads[p].PushStore?
    ensures Enabled(s, Push(p, a)) && Inv(Apply(s, Push(p, a)))
    ensures Apply(s, Push(p, a)) == s.(q := s.q[s.sub := AQ.Apply(s.q[s.sub], a)])
    ensures Stored(Apply(s, Push(p, a))) == Stored(s)
  {
    StepKeeps(s, Push(p, a));
    assert s.pointers[p := Reading(s.sub)] == s.pointers;
  }

  /** TryPush behind the read of the pointer, up to its full test, which lets it
      pass when there is room. */
  lemma CheckPasses<T(!new)>(s: System<T>, p: nat, v: T) returns (moves: seq<Move<T>>)
    requires Inv(s) && 0 < p < |s.pointers| && s.pointers[p] == Reading(s.sub)
    requires p < |s.q[s.sub].threads| && s.q[s.sub].threads[p].Idle?
    requires s.q[s.sub].head - s.q[s.sub].tail < s.q[s.sub].Size()
    ensures CanRun(s, moves)
    ensures var e := Run(s, moves);
            && Inv(e) && Stored(e) == Stored(s) && e.sub == s.sub && e.pointers == s.pointers
            && p < |e.q[s.sub].threads| && e.q[s.sub].threads[p] == AQ.PushCas(v, e.q[s.sub].head)
  {
    var q := s.q[s.sub];
    AQ.PushRefusedIff(q, p, v);
    var a1, a2 := AQ.BeginPush(p, v, q.head), AQ.CheckPush(p, q.tail);
    QuietPush(s, p, a1);
    var s1 := Apply(s, Push(p, a1));
    QuietPush(s1, p, a2);
    MoveTwo(s, Push(p, a1), Push(p, a2));
    moves := [Push(p, a1), Push(p, a2)];
  }

  /** The same from the read of the pointer on. */
  lemma PushPasses<T(!new)>(s: System<T>, p: nat, v: T) returns (moves: seq<Move<T>>)
    requires Inv(s) && MayPush(s, p)
    requires s.q[s.sub].head - s.q[s.sub].tail < s.q[s.sub].Size()
    ensures CanRun(s, moves)
    ensures var e := Run(s, moves);
            && Inv(e) && Stored(e) == Stored(s) && e.sub == s.sub && |e.pointers| == |s.pointers|
            && e.pointers[p] == Reading(e.sub)
            && p < |e.q[e.sub].threads| && e.q[e.sub].threads[p] == AQ.PushCas(v, e.q[e.sub].head)
  {
    assert QueueOk(s, s.sub) && ProducerOk(s, s.sub, p);
    StepKeeps(s, ReadPointer(p));
    var rest := CheckPasses(Apply(s, ReadPointer(p)), p, v);
    MoveOne(s, ReadPointer(p), rest);
    moves := [ReadPointer(p)] + rest;
  }

  /** The claim of the current head succeeds. */
  lemma ClaimSucceeds<T(!new)>(s: System<T>, p: nat, v: T)
    requires Inv(s) && 0 < p < |s.pointers| && s.pointers[p] == Reading(s.sub)
    requires p < |s.q[s.sub].threads| && s.q[s.sub].threads[p] == AQ.PushCas(v, s.q[s.sub].head)
    ensures Enabled(s, Push(p, AQ.CasPush(p)))
    ensures var e := Apply(s, Push(p, AQ.CasPush(p)));
            && Inv(e) && Stored(e) == Stored(s) && e.sub == s.sub && |e.pointers| == |s.pointers|
            && e.pointers[p] == Claimed(e.sub)
            && p < |e.q[e.sub].threads| && e.q[e.sub].threads[p] == AQ.PushStore(v, s.q[s.sub].head)
  {
    StepKeeps(s, Push(p, AQ.CasPush(p)));
  }

  /** So does the store behind it. */
  lemma ClaimLands<T(!new)>(s: System<T>, p: nat, v: T) returns (moves: seq<Move<T>>)
    requires Inv(s) && 0 < p < |s.pointers| && s.pointers[p] == Reading(s.sub)
    requires p < |s.q[s.sub].threads| && s.q[s.sub].threads[p] == AQ.PushCas(v, s.q[s.sub].head)
    ensures CanRun(s, moves)
    ensures var e := Run(s, moves); Inv(e) && Stored(e) == Stored(s) + multiset{v}
  {
    var m1, m2 := Push(p, AQ.CasPush(p)), Push(p, AQ.Store(p));
    ClaimSucceeds(s, p, v);
    var s1 := Apply(s, m1);
    StoreLands(s1, p);
    MoveTwo(s, m1, m2);
    moves := [m1, m2];
  }

  /** With room in the submission queue TryPush can get its value stored there. */
  lemma PushLands<T(!new)>(s: System<T>, p: nat, v: T) returns (moves: seq<Move<T>>)
    requires Inv(s) && MayPush(s, p)
    requires s.q[s.sub].head - s.q[s.sub].tail < s.q[s.sub].Size()
    ensures CanRun(s, moves) && Inv(Run(s, moves))
    ensures Stored(Run(s, moves)) == Stored(s) + multiset{v}
  {
    var a := PushPasses(s, p, v);
    var e := Run(s, a);
    assert QueueOk(e, e.sub);
    var b := ClaimLands(e, p, v);
    RunConcat(s, a, b);
    moves := a + b;
  }

  /** From TryPush to UpdateContext: with room in the submission queue some
      schedule hands the worker the producer's value on top of everything that
      was stored or delivered before. */
  lemma PushedIsDeliverable<T(!new)>(s: System<T>, p: nat, v: T) returns (moves: seq<Move<T>>)
    requires Inv(s) && MayPush(s, p)
    requires s.q[s.sub].head - s.q[s.sub].tail < s.q[s.sub].Size()
    ensures CanRun(s, moves) && Stored(s) + multiset{v} <= Run(s, moves).delivered
    ensures s.delivered + multiset{v} <= Run(s, moves).delivered
  {
    var a := PushLands(s, p, v);
    var b := DeliverySchedule(Run(s, a));
    RunConcat(s, a, b);
    moves := a + b;
    DeliveredWasStored(s);
  }

  lemma DeliveredWasStored<T(!new)>(s: System<T>)
    requires Inv(s)
    ensures s.delivered <= Stored(s)
  {
    NeverTwice(s.q[0]);
    NeverTwice(s.q[1]);
    assert s.delivered <= s.delivered + multiset(s.batch);
  }

  /** Room can always be made: the round after the next swap hands its producers
      an empty queue.  So from every reachable state the value of any producer
      outside TryPush can be delivered. */
  lemma AlwaysDeliverable<T(!new)>(s: System<T>, p: nat, v: T) returns (moves: seq<Move<T>>)
    requires Inv(s) && MayPush(s, p)
    ensures CanRun(s, moves) && s.delivered + multiset{v} <= Run(s, moves).delivered
  {
    var a := FinishRound(s);
    var s1 := Run(s, a);
    var b := NextRound(s1);
    var s2 := Run(s1, b);
    StepKeeps(s2, Swap);
    var s3 := Apply(s2, Swap);
    var c := PushedIsDeliverable(s3, p, v);
    MoveOne(s2, Swap, c);
    RunConcat(s1, b, [Swap] + c);
    RunConcat(s, a, b + ([Swap] + c));
    moves := a + (b + ([Swap] + c));
    DeliveredGrows(s, a);
    DeliveredGrows(s1, b);
  }

  /** What was handed over stays handed over. */
  lemma {:induction false} DeliveredGrows<T(!new)>(s: System<T>, moves: seq<Move<T>>)
    requires CanRun(s, moves)
    ensures s.delivered <= Run(s, moves).delivered
    decreases |moves|
  {
    if moves != [] {
      DeliveredGrows(Apply(s, moves[0]), moves[1..]);
    }
  }
}
