/** src/scheduler/fcfs_queue.h: the first-come-first-served queues of the
    baseline schedulers. FCFSQueueLocked wraps a std::queue; SPSCQueue is a
    fixed-capacity ring buffer with a head (write) and a tail (read) index;
    FCFSQueue forwards to FCFSQueueLocked. Locks, atomics and memory orders
    are left out: every operation runs alone. */
module FcfsQueue {
  import opened Wrappers
  import opened EdfQueue

  // ---------------------------------------------------------------
  // FCFSQueueLocked

  /** A std::queue of tasks. The ghost history `pushed` holds every task
      ever pushed and `removed` counts those that left from the front (by
      try_pop or clear), so the queue is always the not-yet-removed suffix
      of the history. */
  class FCFSQueueLocked {
    var queue: seq<Task>
    ghost var pushed: seq<Task>
    ghost var removed: nat

    ghost predicate Valid()
      reads this
    {
      removed <= |pushed| && queue == pushed[removed..]
    }

    constructor ()
      ensures Valid() && queue == [] && pushed == [] && removed == 0
    {
      queue := [];
      pushed := [];
      removed := 0;
    }

    /** size: pushes minus the tasks taken from the front. */
    function Size(): (n: nat)
      reads this
      requires Valid()
      ensures n == |pushed| - removed
    {
      |queue|
    }

    predicate Empty()
      reads this
      requires Valid()
      ensures Empty() <==> removed == |pushed|
    {
      queue == []
    }

    /** peek: the oldest task still queued, without removing it. */
    function Peek(): (r: Option<Task>)
      reads this
      requires Valid()
      ensures r.None? <==> removed == |pushed|
      ensures r.Some? ==> r.value == pushed[removed]
    {
      if queue == [] then None else Some(queue[0])
    }

    /** push: the task joins at the back. */
    method Push(task: Task)
      requires Valid()
      modifies this
      ensures Valid()
      ensures queue == old(queue) + [task]
      ensures pushed == old(pushed) + [task] && removed == old(removed)
    {
      queue := queue + [task];
      pushed := pushed + [task];
    }

    /** try_pop: fails and changes nothing on an empty queue; otherwise
        the n-th successful removal returns the n-th task pushed. */
    method TryPop() returns (r: Option<Task>)
      requires Valid()
      modifies this
      ensures Valid() && pushed == old(pushed)
      ensures r == old(Peek())
      ensures r.None? ==> queue == old(queue) && removed == old(removed)
      ensures r.Some? ==> r.value == pushed[old(removed)] && removed == old(removed) + 1 && queue == old(queue[1..])
    {
      if queue == [] {
        return None;
      }
      r := Some(queue[0]);
      queue := queue[1..];
      removed := removed + 1;
    }

    /** clear: pops until empty. */
    method Clear()
      requires Valid()
      modifies this
      ensures Valid() && queue == [] && pushed == old(pushed) && removed == |pushed|
    {
      while queue != []
        invariant Valid() && pushed == old(pushed)
        decreases |queue|
      {
        queue := queue[1..];
        removed := removed + 1;
      }
    }
  }

  /** Pushing two tasks and popping twice returns them in push order. */
  method FifoOrder(a: Task, b: Task) returns (first: Option<Task>, second: Option<Task>)
    ensures first == Some(a) && second == Some(b)
  {
    var q := new FCFSQueueLocked();
    q.Push(a);
    q.Push(b);
    first := q.TryPop();
    second := q.TryPop();
  }

  // ---------------------------------------------------------------
  // SPSCQueue

  predicate IsPowerOfTwo(n: nat)
    decreases n
  {
    n == 1 || (n >= 2 && n % 2 == 0 && IsPowerOfTwo(n / 2))
  }

  /** Bitwise AND on non-negative integers, bit by bit from the lowest. */
  function BitAnd(a: nat, b: nat): nat
  {
    if a == 0 || b == 0 then 0
    else 2 * BitAnd(a / 2, b / 2) + (if a % 2 == 1 && b % 2 == 1 then 1 else 0)
  }

  /** Wrap-around of a ring index that has gone at most one lap too far. */
  function Wrap(x: nat, capacity: nat): (r: nat)
    requires x < 2 * capacity
    ensures r < capacity
  {
    if x < capacity then x else x - capacity
  }

  /** `x & (Capacity - 1)` for a power-of-two capacity. */
  method Masked(x: nat, capacity: nat) returns (r: nat)
    requires IsPowerOfTwo(capacity) && x < 2 * capacity
    ensures r == Wrap(x, capacity)
  {
    r := BitAnd(x, capacity - 1);
    MaskWraps(x, capacity);
  }

  /** Masking with one less than a power of two is the remainder, and
      below two laps it is the wrap-around. */
  lemma MaskWraps(x: nat, capacity: nat)
    requires IsPowerOfTwo(capacity)
    ensures BitAnd(x, capacity - 1) == x % capacity
    ensures x < 2 * capacity ==> BitAnd(x, capacity - 1) == Wrap(x, capacity)
  {
    MaskIsRemainder(x, capacity);
    if x < capacity {
      ModUnique(x, capacity, 0, x);
    } else if x < 2 * capacity {
      ModUnique(x, capacity, 1, x - capacity);
    }
  }

  lemma {:induction false} MaskIsRemainder(x: nat, c: nat)
    requires IsPowerOfTwo(c)
    ensures BitAnd(x, c - 1) == x % c
    decreases c
  {
    if c == 1 {
    } else if x == 0 {
    } else {
      var h := c / 2;
      assert (c - 1) / 2 == h - 1 && (c - 1) % 2 == 1;
      MaskIsRemainder(x / 2, h);
      RemainderOfHalf(x, h);
    }
  }

  lemma RemainderOfHalf(x: nat, h: nat)
    requires h > 0
    ensures x % (2 * h) == 2 * ((x / 2) % h) + x % 2
  {
    var q := x / 2;
    var r := x % 2;
    var a := q / h;
    var b := q % h;
    assert q == h * a + b;
    assert x == (2 * h) * a + (2 * b + r);
    ModUnique(x, 2 * h, a, 2 * b + r);
  }

  /** The remainder is the only value in [0, d) that differs from x by a
      multiple of d. */
  lemma ModUnique(x: int, d: int, a: int, m: int)
    requires d > 0 && 0 <= m < d && x == d * a + m
    ensures x % d == m
  {
    var a', m' := x / d, x % d;
    var k := a - a';
    assert d * k == d * a - d * a';
    if k >= 1 {
      MulAtLeast(d, k);
    } else if k <= -1 {
      MulAtLeast(d, -k);
    }
  }

  lemma MulAtLeast(d: int, k: int)
    requires d > 0 && k >= 1
    ensures d * k >= d
  {
    assert d * k == d + d * (k - 1);
  }

  /** Number of items from `tail` up to `head` in a ring of `capacity`
      slots, size_approx's `(head - tail + Capacity) & (Capacity - 1)`. */
  function Occupied(head: nat, tail: nat, capacity: nat): (n: nat)
    requires head < capacity && tail < capacity
    ensures n < capacity
    ensures tail <= head ==> n == head - tail
    ensures head < tail ==> n == head + capacity - tail
  {
    Wrap(head + capacity - tail, capacity)
  }

  /** Item i of `contents` sits i slots after `tail`, wrapping around. */
  ghost predicate RingHolds<T>(contents: seq<T>, slots: seq<T>, tail: nat, capacity: nat)
  {
    |contents| < capacity && |slots| == capacity && tail < capacity &&
    forall i :: 0 <= i < |contents| ==> contents[i] == slots[Wrap(tail + i, capacity)]
  }

  /** Writing the head slot appends to the queue when a slot is free. */
  lemma RingPush<T>(contents: seq<T>, slots: seq<T>, head: nat, tail: nat, capacity: nat, item: T)
    requires head < capacity && RingHolds(contents, slots, tail, capacity)
    requires |contents| == Occupied(head, tail, capacity)
    requires Wrap(head + 1, capacity) != tail
    ensures RingHolds(contents + [item], slots[head := item], tail, capacity)
    ensures |contents| + 1 == Occupied(Wrap(head + 1, capacity), tail, capacity)
  {
    var c := contents + [item];
    forall i | 0 <= i < |c|
      ensures c[i] == slots[head := item][Wrap(tail + i, capacity)]
    {
      if i < |contents| {
        assert Wrap(tail + i, capacity) != head;
      }
    }
  }

  /** Advancing the tail drops the oldest item. */
  lemma RingPop<T>(contents: seq<T>, slots: seq<T>, head: nat, tail: nat, capacity: nat)
    requires head < capacity && RingHolds(contents, slots, tail, capacity)
    requires |contents| == Occupied(head, tail, capacity)
    requires head != tail
    ensures contents != [] && contents[0] == slots[tail]
    ensures RingHolds(contents[1..], slots, Wrap(tail + 1, capacity), capacity)
    ensures |contents| - 1 == Occupied(head, Wrap(tail + 1, capacity), capacity)
  {
    var t := Wrap(tail + 1, capacity);
    assert contents[0] == slots[Wrap(tail + 0, capacity)];
    forall i | 0 <= i < |contents| - 1
      ensures contents[1..][i] == slots[Wrap(t + i, capacity)]
    {
      assert contents[i + 1] == slots[Wrap(tail + (i + 1), capacity)];
    }
  }

  /** The ring buffer. Slots `tail, tail+1, ...` (wrapping) up to `head`
      hold the queued items, oldest first; one slot always stays free, so
      head == tail means empty. `contents` is the queue as a sequence. */
  class SPSCQueue<T(0)> {
    const capacity: nat
    const buffer: array<T>
    var head: nat
    var tail: nat
    ghost var contents: seq<T>

    ghost predicate Valid()
      reads this, buffer
    {
      IsPowerOfTwo(capacity) && buffer.Length == capacity && head < capacity &&
      RingHolds(contents, buffer[..], tail, capacity) &&
      |contents| == Occupied(head, tail, capacity)
    }

    /** The template demands a power-of-two capacity. */
    constructor (capacity: nat)
      requires IsPowerOfTwo(capacity)
      ensures Valid() && this.capacity == capacity && contents == [] && fresh(buffer)
    {
      this.capacity := capacity;
      buffer := new T[capacity];
      head := 0;
      tail := 0;
      contents := [];
    }

    /** try_push: fails, changing nothing, exactly when capacity - 1 items
        are queued; otherwise the item joins at the back. */
    method TryPush(item: T) returns (ok: bool)
      requires Valid()
      modifies this, buffer
      ensures Valid()
      ensures ok <==> old(|contents|) < capacity - 1
      ensures ok ==> contents == old(contents) + [item]
      ensures !ok ==> contents == old(contents) && head == old(head) && tail == old(tail)
    {
      var nextHead := Masked(head + 1, capacity);
      if nextHead == tail {
        return false;
      }
      RingPush(contents, buffer[..], head, tail, capacity, item);
      buffer[head] := item;
      head := nextHead;
      contents := contents + [item];
      ok := true;
    }

    /** try_pop: fails exactly when head == tail, that is when nothing is
        queued; otherwise returns the oldest item. */
    method TryPop() returns (r: Option<T>)
      requires Valid()
      modifies this
      ensures Valid() && head == old(head)
      ensures r.None? <==> old(contents) == []
      ensures r.None? ==> contents == old(contents) && tail == old(tail)
      ensures r.Some? ==> r.value == old(contents[0]) && contents == old(contents[1..])
    {
      if tail == head {
        return None;
      }
      RingPop(contents, buffer[..], head, tail, capacity);
      r := Some(buffer[tail]);
      tail := Masked(tail + 1, capacity);
      contents := contents[1..];
    }

    /** size_approx: exact when nothing runs concurrently, and never more
        than capacity - 1. */
    method SizeApprox() returns (n: nat)
      requires Valid()
      ensures n == |contents| && n < capacity
    {
      n := Masked(head + capacity - tail, capacity);
    }

    predicate Empty()
      reads this, buffer
      requires Valid()
      ensures Empty() <==> contents == []
    {
      head == tail
    }
  }

  // ---------------------------------------------------------------
  // FCFSQueue

  /** The facade used by the workers: every call goes to the locked
      queue. */
  class FCFSQueue {
    const inner: FCFSQueueLocked

    ghost predicate Valid()
      reads this, inner
    {
      inner.Valid()
    }

    constructor ()
      ensures Valid() && inner.queue == [] && fresh(inner)
    {
      inner := new FCFSQueueLocked();
    }

    method Push(task: Task)
      requires Valid()
      modifies inner
      ensures Valid()
      ensures inner.queue == old(inner.queue) + [task]
      ensures inner.pushed == old(inner.pushed) + [task] && inner.removed == old(inner.removed)
    {
      inner.Push(task);
    }

    method TryPop() returns (r: Option<Task>)
      requires Valid()
      modifies inner
      ensures Valid() && inner.pushed == old(inner.pushed)
      ensures r == old(inner.Peek())
      ensures r.None? ==> inner.queue == old(inner.queue) && inner.removed == old(inner.removed)
      ensures r.Some? ==> r.value == inner.pushed[old(inner.removed)] && inner.removed == old(inner.removed) + 1 && inner.queue == old(inner.queue[1..])
    {
      r := inner.TryPop();
    }

    function Size(): (n: nat)
      reads this, inner
      requires Valid()
      ensures n == inner.Size()
    {
      inner.Size()
    }

    predicate Empty()
      reads this, inner
      requires Valid()
      ensures Empty() <==> inner.Empty()
    {
      inner.Empty()
    }
  }
}
