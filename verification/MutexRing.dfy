/** AtomicQueueMutexT: a ring under a lock, with 32-bit counters that wrap and
    shuffled slots, as a bounded queue. */
module MutexRing {
  import opened Bits

  /** The slot of a wrapped counter. */
  function Slot(size: nat, shuffle: nat, counter: nat): nat
    requires size > 0
  {
    RemapIndex(shuffle, counter % size)
  }

  /** The counter k places after another, in unsigned arithmetic. */
  function After(counter: nat, k: nat): nat { (counter + k) % TWO32 }

  /** The slots of any size successive counters differ, across the wrap too. */
  ghost predicate WindowsDiffer(size: nat, shuffle: nat)
    requires size > 0
  {
    forall tail, i, j :: 0 <= i < j < size
      ==> Slot(size, shuffle, After(tail, i)) != Slot(size, shuffle, After(tail, j))
  }

  /** The sizes the template can make: shuffling only over a power of two that
      holds both bit groups. */
  predicate Buildable(size: nat, bits: nat, shuffle: nat) {
    && 0 < size < TWO32
    && (shuffle > 0 ==> size == Pow2(bits) && 2 * shuffle <= bits <= 32)
  }

  lemma NoShuffle(i: nat)
    requires i < TWO32
    ensures RemapIndex(0, i) == i
  {
    var w := ToWord(32, i);
    forall k | 0 <= k < |w|
      ensures RemapWord(0, w)[k] == w[k]
    {
      RemapSwapsGroups(0, w, k);
    }
    assert RemapWord(0, w) == w;
    Pow2Of32();
    WordRoundTrip(32, i);
  }

  lemma RemapDiffers(size: nat, bits: nat, shuffle: nat, i: nat, j: nat)
    requires Buildable(size, bits, shuffle) && i < size && j < size && i != j
    ensures RemapIndex(shuffle, i) != RemapIndex(shuffle, j)
  {
    if shuffle == 0 {
      NoShuffle(i);
      NoShuffle(j);
    } else if RemapIndex(shuffle, i) == RemapIndex(shuffle, j) {
      RemapInjective(shuffle, bits, i, j);
    }
  }

  lemma SlotInRange(size: nat, bits: nat, shuffle: nat, counter: nat)
    requires Buildable(size, bits, shuffle)
    ensures Slot(size, shuffle, counter) < size
  {
    if shuffle == 0 {
      NoShuffle(counter % size);
    } else {
      RemapIsInvolution(shuffle, bits, counter % size);
    }
  }

  lemma WrapKeepsResidue(size: nat, counter: nat, k: nat)
    requires size > 0 && TWO32 % size == 0
    ensures After(counter, k) % size == (counter + k) % size
  {
    assert TWO32 == TWO32 / size * size;
    ModOfMod(counter + k, TWO32 / size, size);
  }

  lemma DividingWindow(size: nat, bits: nat, shuffle: nat, tail: nat, i: nat, j: nat)
    requires Buildable(size, bits, shuffle) && TWO32 % size == 0 && i < j < size
    ensures Slot(size, shuffle, After(tail, i)) != Slot(size, shuffle, After(tail, j))
  {
    WrapKeepsResidue(size, tail, i);
    WrapKeepsResidue(size, tail, j);
    CloseResiduesDiffer(tail + i, tail + j, size);
    RemapDiffers(size, bits, shuffle, After(tail, i) % size, After(tail, j) % size);
  }

  /** At the wrap the residues restart: r counters before it, where 2^32 leaves r. */
  lemma WrapCollides(size: nat, shuffle: nat)
    requires 0 < size < TWO32 && TWO32 % size != 0
    ensures var r := TWO32 % size; Slot(size, shuffle, After(TWO32 - r, 0)) == Slot(size, shuffle, After(TWO32 - r, r))
  {
    var r := TWO32 % size;
    LastMultiple(TWO32, size);
    AtTheWrap(r);
    assert 0 % size == 0;
  }

  lemma AtTheWrap(r: nat)
    requires 0 < r < TWO32
    ensures After(TWO32 - r, 0) == TWO32 - r && After(TWO32 - r, r) == 0
  {
  }

  lemma LastMultiple(n: nat, d: nat)
    requires d > 0
    ensures (n - n % d) % d == 0
  {
    DivModUnique(n - n % d, d, n / d, 0);
  }

  /** A ring survives the wrap of its counters exactly when its size divides 2^32,
      as every power of two does. */
  lemma WindowsDifferIff(size: nat, bits: nat, shuffle: nat)
    requires Buildable(size, bits, shuffle)
    ensures WindowsDiffer(size, shuffle) <==> TWO32 % size == 0
  {
    if TWO32 % size == 0 {
      forall tail: nat, i: nat, j: nat | i < j < size
        ensures Slot(size, shuffle, After(tail, i)) != Slot(size, shuffle, After(tail, j))
      {
        DividingWindow(size, bits, shuffle, tail, i, j);
      }
    } else {
      WrapCollides(size, shuffle);
    }
  }

  lemma PowersDivide(bits: nat)
    requires bits <= 32
    ensures TWO32 % Pow2(bits) == 0
  {
    Pow2Divides32(bits);
    DivModUnique(TWO32, Pow2(bits), Pow2(32 - bits), 0);
  }

  // ----- Counters

  /** head_ - tail_ in unsigned arithmetic. */
  function Distance(head: nat, tail: nat): nat { (head as int - tail as int) % TWO32 }

  lemma HeadFollows(head: nat, tail: nat)
    requires head < TWO32 && tail < TWO32
    ensures After(tail, Distance(head, tail)) == head
  {
  }

  lemma DistanceAfterPush(head: nat, tail: nat)
    requires head < TWO32 && tail < TWO32 && Distance(head, tail) < TWO32 - 1
    ensures Distance((head + 1) % TWO32, tail) == Distance(head, tail) + 1
  {
  }

  lemma DistanceAfterPop(head: nat, tail: nat)
    requires head < TWO32 && tail < TWO32 && head != tail
    ensures Distance(head, After(tail, 1)) == Distance(head, tail) - 1 >= 0
  {
  }

  lemma AfterNext(tail: nat, k: nat)
    ensures After(After(tail, 1), k) == After(tail, k + 1)
  {
  }

  /** was_empty and was_full are right at every fill exactly for sizes below 2^31. */
  lemma TestsAreExact(size: nat)
    requires 0 < size < TWO32
    ensures (forall count: nat :: count <= size ==> (LooksEmpty(count, 0) <==> count == 0)) <==> size < HALF32
    ensures (forall count: nat :: count <= size ==> (LooksFull(count, 0, size) <==> count == size)) <==> size < HALF32
  {
    if size >= HALF32 {
      assert LooksEmpty(HALF32, 0);
      assert LooksFull(0, 0, size);
    }
  }

  // ----- The sizes of the template

  /** GetIndexShuffleBits for a cache line of 2^lineBits elements. */
  function ShuffleBits(size: nat, lineBits: nat): nat { if size < Pow2(2 * lineBits) then 0 else lineBits }

  /** Every size up to 2^31, rounded up, gives a ring whose shuffle stays inside it
      and which survives the wrap of its counters. */
  lemma TemplateIsBuildable(requested: nat, lineBits: nat) returns (bits: nat)
    requires 1 <= requested <= HALF32
    ensures var size := RoundUpToPowerOf2(requested);
            requested <= size && Buildable(size, bits, ShuffleBits(size, lineBits)) && TWO32 % size == 0
  {
    bits := RoundUpIsLeast(requested);
    PowerIsBuildable(RoundUpToPowerOf2(requested), bits, lineBits);
  }

  lemma PowerIsBuildable(size: nat, bits: nat, lineBits: nat)
    requires bits <= 31 && size == Pow2(bits)
    ensures Buildable(size, bits, ShuffleBits(size, lineBits)) && TWO32 % size == 0
  {
    PowersDivide(bits);
    Pow2Small(bits);
    if bits < 2 * lineBits {
      Pow2Monotone(bits + 1, 2 * lineBits);
    }
  }

  // ----- The queue in the ring

  /** The n elements from the counter tail on. */
  function View<T>(q: seq<T>, size: nat, bits: nat, shuffle: nat, tail: nat, n: nat): (s: seq<T>)
    requires Buildable(size, bits, shuffle) && |q| == size
    ensures |s| == n
  {
    seq(n, k requires 0 <= k < n =>
      SlotInRange(size, bits, shuffle, After(tail, k)); q[Slot(size, shuffle, After(tail, k))])
  }

  lemma ViewPush<T>(q: seq<T>, size: nat, bits: nat, shuffle: nat, tail: nat, n: nat, x: T)
    requires Buildable(size, bits, shuffle) && |q| == size && TWO32 % size == 0 && n < size
    ensures var i := Slot(size, shuffle, After(tail, n));
            i < size && View(q[i := x], size, bits, shuffle, tail, n + 1) == View(q, size, bits, shuffle, tail, n) + [x]
  {
    var i := Slot(size, shuffle, After(tail, n));
    SlotInRange(size, bits, shuffle, After(tail, n));
    var after, was := View(q[i := x], size, bits, shuffle, tail, n + 1), View(q, size, bits, shuffle, tail, n);
    forall k | 0 <= k < n
      ensures after[k] == was[k]
    {
      SlotInRange(size, bits, shuffle, After(tail, k));
      DividingWindow(size, bits, shuffle, tail, k, n);
    }
    assert after == was + [x];
  }

  lemma ViewPop<T>(q: seq<T>, size: nat, bits: nat, shuffle: nat, tail: nat, next: nat, n: nat)
    requires Buildable(size, bits, shuffle) && |q| == size && 0 < n && tail < TWO32 && next == After(tail, 1)
    ensures Slot(size, shuffle, tail) < size
    ensures View(q, size, bits, shuffle, tail, n)
         == [q[Slot(size, shuffle, tail)]] + View(q, size, bits, shuffle, next, n - 1)
  {
    SlotInRange(size, bits, shuffle, tail);
    var was, after := View(q, size, bits, shuffle, tail, n), View(q, size, bits, shuffle, next, n - 1);
    AfterNone(tail);
    assert was[0] == q[Slot(size, shuffle, tail)];
    forall k | 0 <= k < n - 1
      ensures was[k + 1] == after[k]
    {
      AfterNext(tail, k);
      SlotInRange(size, bits, shuffle, After(next, k));
      assert was[k + 1] == q[Slot(size, shuffle, After(tail, k + 1))];
    }
  }

  lemma ViewAfterPop<T>(q: seq<T>, size: nat, bits: nat, shuffle: nat, head: nat, tail: nat)
    requires Buildable(size, bits, shuffle) && |q| == size && head < TWO32 && tail < TWO32 && head != tail
    ensures Slot(size, shuffle, tail) < size && Distance(head, After(tail, 1)) == Distance(head, tail) - 1
    ensures View(q, size, bits, shuffle, tail, Distance(head, tail))
         == [q[Slot(size, shuffle, tail)]]
           + View(q, size, bits, shuffle, After(tail, 1), Distance(head, After(tail, 1)))
  {
    DistanceAfterPop(head, tail);
    ViewPop(q, size, bits, shuffle, tail, After(tail, 1), Distance(head, tail));
  }

  lemma AfterNone(tail: nat)
    requires tail < TWO32
    ensures After(tail, 0) == tail
  {
  }

  // ----- The class

  class MutexRing<T(0)> {
    const size: nat
    const shuffle: nat
    ghost const bits: nat
    var head: nat
    var tail: nat
    var q: array<T>

    ghost predicate Valid()
      reads this
    {
      && Buildable(size, bits, shuffle) && TWO32 % size == 0
      && head < TWO32 && tail < TWO32 && q.Length == size
      && Distance(head, tail) <= size
    }

    /** The queue: the slots from tail to head. */
    ghost function Contents(): (s: seq<T>)
      requires Valid()
      reads this, q
      ensures |s| == Distance(head, tail)
    {
      View(q[..], size, bits, shuffle, tail, Distance(head, tail))
    }

    constructor (n: nat, b: nat, s: nat)
      requires Buildable(n, b, s) && TWO32 % n == 0
      ensures Valid() && size == n && shuffle == s && Contents() == [] && fresh(q)
    {
      size, bits, shuffle, head, tail := n, b, s, 0, 0;
      q := new T[n];
    }

    /** The ring the template makes of a requested size. */
    constructor Rounded(requested: nat, lineBits: nat)
      requires 1 <= requested <= HALF32
      ensures Valid() && size == RoundUpToPowerOf2(requested) >= requested && Contents() == [] && fresh(q)
    {
      var n := RoundUpToPowerOf2(requested);
      ghost var b := TemplateIsBuildable(requested, lineBits);
      size, bits, shuffle, head, tail := n, b, ShuffleBits(n, lineBits), 0, 0;
      q := new T[n];
    }

    method TryPush(x: T) returns (ok: bool)
      requires Valid()
      modifies this`head, q
      ensures Valid() && ok == (|old(Contents())| < size)
      ensures Contents() == if ok then old(Contents()) + [x] else old(Contents())
    {
      ok := Distance(head, tail) < size;
      if ok {
        ViewPush(q[..], size, bits, shuffle, tail, Distance(head, tail), x);
        HeadFollows(head, tail);
        DistanceAfterPush(head, tail);
        q[Slot(size, shuffle, head)] := x;
        head := (head + 1) % TWO32;
      }
    }

    /** The element is left as it was when there is nothing to pop. */
    method TryPop(element: T) returns (ok: bool, x: T)
      requires Valid()
      modifies this`tail
      ensures Valid() && ok == (old(Contents()) != [])
      ensures if ok then old(Contents()) == [x] + Contents() else Contents() == old(Contents()) && x == element
    {
      ok, x := head != tail, element;
      if ok {
        ViewAfterPop(q[..], size, bits, shuffle, head, tail);
        x := q[Slot(size, shuffle, tail)];
        tail := After(tail, 1);
      }
    }

    method WasEmpty() returns (empty: bool)
      requires Valid()
      ensures empty == (|Contents()| == 0 || |Contents()| >= HALF32)
    {
      empty := LooksEmpty(head, tail);
    }

    method WasFull() returns (full: bool)
      requires Valid()
      ensures full == (|Contents()| == size || (size >= HALF32 && |Contents()| < HALF32))
    {
      full := LooksFull(head, tail, size);
    }
  }
}
