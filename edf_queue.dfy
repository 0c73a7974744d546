/** src/scheduler/edf_queue.h: the worker-local earliest-deadline-first
    queues. EDFQueueLocked is a priority queue ordered by deadline;
    HierarchicalTimingWheel hashes tasks into 1024 one-microsecond buckets
    and serves the most urgent bucket near the current time; EDFQueue picks
    one of the two. Locks and atomics are left out: every operation runs
    alone, and the clock reading `now_ns()` is a parameter. */
module EdfQueue {
  import opened Wrappers
  import opened Types

  /** A queued request. The message and handle pointers it also carries are
      not part of this model. */
  datatype Task = Task(
    requestId: Timestamp,
    deadline: Timestamp,
    arrivalTime: Timestamp,
    clientSendTime: Timestamp,
    serviceTimeHint: U32,
    payloadSize: Timestamp)
  {
    /** Time left until the deadline, negative once it has passed. */
    function SlackTime(now: Timestamp): Duration
    {
      SignedDiff(deadline, now)
    }

    predicate IsExpired(now: Timestamp)
    {
      deadline <= now
    }
  }

  /** A task has expired exactly when it has no slack left, for deadlines
      within 2^63 ns of the clock. */
  lemma ExpiredIffNoSlack(t: Task, now: Timestamp)
    ensures -TWO_63 <= t.deadline - now < TWO_63 ==> (t.IsExpired(now) <==> t.SlackTime(now) <= 0)
  {
  }

  /** Tasks in non-decreasing deadline order. */
  predicate ByDeadline(s: seq<Task>)
  {
    forall i, j :: 0 <= i < j < |s| ==> s[i].deadline <= s[j].deadline
  }

  /** No task in `s` is due before `t`. */
  predicate Earliest(t: Task, s: seq<Task>)
  {
    forall u :: u in s ==> t.deadline <= u.deadline
  }

  // ---------------------------------------------------------------
  // EDFQueueLocked

  /** The std::priority_queue with std::greater<Task>: its top is always a
      task of least deadline. The heap's contents are kept here as a
      sequence in the order the heap hands them out. */
  class EDFQueueLocked {
    var heap: seq<Task>

    ghost predicate Valid()
      reads this
    {
      ByDeadline(heap)
    }

    constructor ()
      ensures Valid() && heap == []
    {
      heap := [];
    }

    function Size(): nat
      reads this
    {
      |heap|
    }

    predicate Empty()
      reads this
    {
      heap == []
    }

    /** peek: the task of least deadline, if any, left in the queue. */
    function Peek(): (r: Option<Task>)
      reads this
      requires Valid()
      ensures r.None? <==> heap == []
      ensures r.Some? ==> r.value in heap && Earliest(r.value, heap)
    {
      if heap == [] then None else Some(heap[0])
    }

    /** push: the queue gains exactly the given task. */
    method Push(task: Task)
      requires Valid()
      modifies this
      ensures Valid()
      ensures multiset(heap) == old(multiset(heap)) + multiset{task}
      ensures |heap| == old(|heap|) + 1
    {
      var i := 0;
      while i < |heap| && heap[i].deadline <= task.deadline
        invariant 0 <= i <= |heap|
        invariant forall j :: 0 <= j < i ==> heap[j].deadline <= task.deadline
      {
        i := i + 1;
      }
      assert heap == heap[..i] + heap[i..];
      heap := heap[..i] + [task] + heap[i..];
    }

    /** try_pop: fails and changes nothing on an empty queue; otherwise
        removes and returns the task peek shows, one of least deadline. */
    method TryPop() returns (r: Option<Task>)
      requires Valid()
      modifies this
      ensures Valid()
      ensures r == old(Peek())
      ensures r.None? ==> heap == old(heap)
      ensures r.Some? ==>
        Earliest(r.value, old(heap)) && |heap| == old(|heap|) - 1 &&
        multiset(heap) == old(multiset(heap)) - multiset{r.value}
    {
      if heap == [] {
        return None;
      }
      r := Some(heap[0]);
      assert heap == [heap[0]] + heap[1..];
      heap := heap[1..];
    }

    /** clear: pops until empty. */
    method Clear()
      requires Valid()
      modifies this
      ensures Valid() && heap == []
    {
      while heap != []
        invariant Valid()
        decreases |heap|
      {
        heap := heap[1..];
      }
    }

    /** get_expired: pops tasks while the top one is due at `now`. The
        result is exactly the expired tasks, earliest first, and every task
        left is still due in the future. */
    method GetExpired(now: Timestamp) returns (expired: seq<Task>)
      requires Valid()
      modifies this
      ensures Valid()
      ensures old(heap) == expired + heap
      ensures ByDeadline(expired)
      ensures forall i :: 0 <= i < |expired| ==> expired[i].IsExpired(now)
      ensures forall i :: 0 <= i < |heap| ==> !heap[i].IsExpired(now)
      ensures multiset(expired) + multiset(heap) == old(multiset(heap))
    {
      expired := [];
      while heap != [] && heap[0].deadline <= now
        invariant old(heap) == expired + heap
        invariant forall i :: 0 <= i < |expired| ==> expired[i].deadline <= now
        decreases |heap|
      {
        expired := expired + [heap[0]];
        heap := heap[1..];
      }
      SortedParts(old(heap), expired, heap);
      NoneDue(heap, now);
    }
  }

  /** When the earliest task of a sorted list is not due, none is. */
  lemma NoneDue(s: seq<Task>, now: Timestamp)
    requires ByDeadline(s) && (s == [] || s[0].deadline > now)
    ensures forall i :: 0 <= i < |s| ==> !s[i].IsExpired(now)
  {
    forall i | 0 <= i < |s| ensures !s[i].IsExpired(now) {
      if i > 0 {
        assert s[0].deadline <= s[i].deadline;
      }
    }
  }

  /** Both halves of a sorted list are sorted. */
  lemma SortedParts(s: seq<Task>, a: seq<Task>, b: seq<Task>)
    requires ByDeadline(s) && s == a + b
    ensures ByDeadline(a) && ByDeadline(b)
  {
    forall i, j | 0 <= i < j < |a| ensures a[i].deadline <= a[j].deadline {
      assert a[i] == s[i] && a[j] == s[j];
    }
    forall i, j | 0 <= i < j < |b| ensures b[i].deadline <= b[j].deadline {
      assert b[i] == s[|a| + i] && b[j] == s[|a| + j];
    }
  }

  // ---------------------------------------------------------------
  // HierarchicalTimingWheel

  const NUM_BUCKETS: nat := 1024
  const BUCKET_WIDTH_NS: nat := 1000

  /** try_get_urgent looks at kNumBuckets / 8 buckets. */
  const URGENT_SCAN: nat := NUM_BUCKETS / 8

  /** The bucket a deadline hashes to. */
  function BucketOf(deadline: Timestamp): (b: nat)
    ensures b < NUM_BUCKETS
  {
    (deadline / BUCKET_WIDTH_NS) % NUM_BUCKETS
  }

  /** The bucket try_get_urgent visits at step `offset`: `offset` buckets
      before the one holding `now`, wrapping around. */
  function ScanBucket(now: Timestamp, offset: nat): (b: nat)
    ensures b < NUM_BUCKETS
  {
    var current := (now / BUCKET_WIDTH_NS) % NUM_BUCKETS;
    (current - offset + NUM_BUCKETS) % NUM_BUCKETS
  }

  /** The tasks of all buckets, bucket by bucket. */
  function Flatten(b: seq<seq<Task>>): seq<Task>
  {
    if |b| == 0 then [] else Flatten(b[..|b| - 1]) + b[|b| - 1]
  }

  function TotalTasks(b: seq<seq<Task>>): nat
  {
    if |b| == 0 then 0 else TotalTasks(b[..|b| - 1]) + |b[|b| - 1]|
  }

  lemma {:induction false} FlattenSize(b: seq<seq<Task>>)
    ensures |Flatten(b)| == TotalTasks(b)
  {
    if |b| > 0 {
      FlattenSize(b[..|b| - 1]);
    }
  }

  lemma FlattenStep(b: seq<seq<Task>>, i: nat)
    requires i < |b|
    ensures Flatten(b[..i + 1]) == Flatten(b[..i]) + b[i]
  {
    assert b[..i + 1][..i] == b[..i];
  }

  /** Replacing one bucket changes the total by the difference in sizes. */
  lemma {:induction false} TotalTasksUpdate(b: seq<seq<Task>>, i: nat, x: seq<Task>)
    requires i < |b|
    ensures TotalTasks(b[i := x]) == TotalTasks(b) - |b[i]| + |x|
    decreases |b|
  {
    var n := |b| - 1;
    var c := b[i := x];
    assert c[..n] == if i < n then b[..n][i := x] else b[..n];
    if i < n {
      TotalTasksUpdate(b[..n], i, x);
      PartLeTotal(b[..n], i);
    }
  }

  /** One bucket never holds more than all of them. */
  lemma {:induction false} PartLeTotal(b: seq<seq<Task>>, i: nat)
    requires i < |b|
    ensures |b[i]| <= TotalTasks(b)
  {
    var n := |b| - 1;
    if i < n {
      PartLeTotal(b[..n], i);
    }
  }

  /** No tasks at all means every bucket is empty. */
  lemma {:induction false} NoTasks(b: seq<seq<Task>>)
    requires TotalTasks(b) == 0
    ensures forall i :: 0 <= i < |b| ==> b[i] == []
  {
    forall i | 0 <= i < |b| ensures b[i] == [] {
      PartLeTotal(b, i);
    }
  }

  lemma {:induction false} EmptyBuckets(b: seq<seq<Task>>)
    requires forall i :: 0 <= i < |b| ==> b[i] == []
    ensures TotalTasks(b) == 0 && Flatten(b) == []
  {
    if |b| > 0 {
      EmptyBuckets(b[..|b| - 1]);
    }
  }

  /** `k` is where std::min_element stops: a task of least deadline with
      none before it as early. */
  predicate IsFirstMin(tasks: seq<Task>, k: nat)
  {
    k < |tasks| &&
    (forall j :: 0 <= j < |tasks| ==> tasks[k].deadline <= tasks[j].deadline) &&
    (forall j :: 0 <= j < k ==> tasks[j].deadline > tasks[k].deadline)
  }

  /** std::min_element on a non-empty bucket, comparing with Task's
      operator<. */
  method MinElement(tasks: seq<Task>) returns (k: nat)
    requires tasks != []
    ensures IsFirstMin(tasks, k)
  {
    k := 0;
    var i := 1;
    while i < |tasks|
      invariant 1 <= i <= |tasks| && k < i
      invariant forall j :: 0 <= j < i ==> tasks[k].deadline <= tasks[j].deadline
      invariant forall j :: 0 <= j < k ==> tasks[j].deadline > tasks[k].deadline
    {
      if tasks[i].deadline < tasks[k].deadline {
        k := i;
      }
      i := i + 1;
    }
  }

  /** A bucket with the task at `k` erased. */
  function Remove(s: seq<Task>, k: nat): (r: seq<Task>)
    requires k < |s|
    ensures |r| == |s| - 1
    ensures multiset(r) == multiset(s) - multiset{s[k]}
  {
    assert s == s[..k] + [s[k]] + s[k + 1..];
    s[..k] + s[k + 1..]
  }

  /** Which slack-histogram bin a task falls in at `now`: bin 0 once its
      deadline has passed, otherwise one bin per 100 us of slack, counting
      from bin 1 and capped at the last bin. */
  function SlackBin(t: Task, now: Timestamp): (bin: nat)
    ensures bin < SLACK_HISTOGRAM_BINS
    ensures bin == 0 <==> t.SlackTime(now) <= 0
    ensures t.SlackTime(now) > 0 ==>
      bin == if t.SlackTime(now) / 100000 + 1 < 31 then t.SlackTime(now) / 100000 + 1 else 31
  {
    ConstantValues();
    var slack := t.SlackTime(now);
    if slack > 0 then
      var b := slack / SLACK_BIN_WIDTH + 1;
      if b < SLACK_HISTOGRAM_BINS - 1 then b else SLACK_HISTOGRAM_BINS - 1
    else 0
  }

  /** n zero counts. */
  function Zeros(n: nat): (z: seq<nat>)
    ensures |z| == n && forall i :: 0 <= i < n ==> z[i] == 0
  {
    if n == 0 then [] else Zeros(n - 1) + [0]
  }

  /** An empty histogram. */
  const NO_COUNTS: seq<nat> := Zeros(SLACK_HISTOGRAM_BINS)

  /** The slack histogram of a list of tasks: one count per bin. */
  function Histogram(tasks: seq<Task>, now: Timestamp): (h: seq<nat>)
    ensures |h| == SLACK_HISTOGRAM_BINS
  {
    if |tasks| == 0 then NO_COUNTS
    else
      var h := Histogram(tasks[..|tasks| - 1], now);
      var bin := SlackBin(tasks[|tasks| - 1], now);
      h[bin := h[bin] + 1]
  }

  function SumCounts(h: seq<nat>): nat
  {
    if |h| == 0 then 0 else SumCounts(h[..|h| - 1]) + h[|h| - 1]
  }

  lemma {:induction false} SumCountsBump(h: seq<nat>, i: nat)
    requires i < |h|
    ensures SumCounts(h[i := h[i] + 1]) == SumCounts(h) + 1
  {
    var n := |h| - 1;
    var g := h[i := h[i] + 1];
    if i < n {
      assert g[..n] == h[..n][i := h[i] + 1];
      SumCountsBump(h[..n], i);
    } else {
      assert g[..n] == h[..n];
    }
  }

  lemma {:induction false} SumCountsZero(n: nat)
    ensures SumCounts(Zeros(n)) == 0
  {
    if n > 0 {
      assert Zeros(n)[..n - 1] == Zeros(n - 1);
      SumCountsZero(n - 1);
    }
  }

  /** Every task lands in exactly one bin, so the bins add up to the number
      of tasks. */
  lemma {:induction false} HistogramTotal(tasks: seq<Task>, now: Timestamp)
    ensures SumCounts(Histogram(tasks, now)) == |tasks|
  {
    if |tasks| == 0 {
      SumCountsZero(SLACK_HISTOGRAM_BINS);
    } else {
      var h := Histogram(tasks[..|tasks| - 1], now);
      HistogramTotal(tasks[..|tasks| - 1], now);
      SumCountsBump(h, SlackBin(tasks[|tasks| - 1], now));
    }
  }

  lemma HistogramStep(tasks: seq<Task>, t: Task, now: Timestamp)
    ensures var h := Histogram(tasks, now);
      Histogram(tasks + [t], now) == h[SlackBin(t, now) := h[SlackBin(t, now)] + 1]
  {
    assert (tasks + [t])[..|tasks|] == tasks;
  }

  class HierarchicalTimingWheel {
    const buckets: array<seq<Task>>
    var totalSize: nat
    var currentTick: Timestamp

    /** There are 1024 buckets, the size counter agrees with them, and
        every task sits in the bucket its deadline hashes to. */
    ghost predicate Valid()
      reads this, buckets
    {
      buckets.Length == NUM_BUCKETS &&
      totalSize == TotalTasks(buckets[..]) &&
      forall i, k :: 0 <= i < buckets.Length && 0 <= k < |buckets[i]| ==> BucketOf(buckets[i][k].deadline) == i
    }

    /** All buckets start empty; the tick is the clock in microseconds. */
    constructor (now: Timestamp)
      ensures Valid() && fresh(buckets)
      ensures totalSize == 0 && currentTick == now / BUCKET_WIDTH_NS
      ensures forall i :: 0 <= i < buckets.Length ==> buckets[i] == []
    {
      buckets := new seq<Task>[NUM_BUCKETS](_ => []);
      totalSize := 0;
      currentTick := now / BUCKET_WIDTH_NS;
      new;
      EmptyBuckets(buckets[..]);
    }

    function Size(): nat
      reads this
    {
      totalSize
    }

    predicate Empty()
      reads this
    {
      totalSize == 0
    }

    /** insert: appends the task to the bucket its deadline hashes to and
        counts it. */
    method Insert(task: Task)
      requires Valid()
      modifies this, buckets
      ensures Valid()
      ensures buckets[..] == old(buckets[..])[BucketOf(task.deadline) := old(buckets[BucketOf(task.deadline)]) + [task]]
      ensures totalSize == old(totalSize) + 1 && currentTick == old(currentTick)
    {
      var b := BucketOf(task.deadline);
      TotalTasksUpdate(buckets[..], b, buckets[b] + [task]);
      buckets[b] := buckets[b] + [task];
      totalSize := totalSize + 1;
    }

    /** try_get_urgent: visits the bucket of `now` and the 127 before it,
        and from the first non-empty one removes its first task of least
        deadline. When those 128 buckets are empty it fails and changes
        nothing, whatever the other buckets hold. */
    method TryGetUrgent(now: Timestamp) returns (r: Option<Task>)
      requires Valid()
      modifies this, buckets
      ensures Valid() && currentTick == old(currentTick)
      ensures TakesUrgent(old(buckets[..]), buckets[..], now, r)
      ensures r.Some? ==> totalSize == old(totalSize) - 1
      ensures r.None? ==> totalSize == old(totalSize)
    {
      ghost var before := buckets[..];
      var offset := 0;
      while offset < URGENT_SCAN
        invariant 0 <= offset <= URGENT_SCAN
        invariant buckets[..] == before
        invariant UrgentOffset(before, now, offset) == UrgentOffset(before, now, 0)
      {
        var idx := ScanBucket(now, offset);
        if buckets[idx] != [] {
          var k := MinElement(buckets[idx]);
          r := Some(buckets[idx][k]);
          EraseAt(idx, k);
          UrgentTaken(before, buckets[..], now, offset, k);
          return;
        }
        offset := offset + 1;
      }
      r := None;
    }

    /** `bucket.tasks.erase(it)` and the size decrement. */
    method EraseAt(idx: nat, k: nat)
      requires Valid() && idx < NUM_BUCKETS && k < |buckets[idx]|
      modifies this, buckets
      ensures Valid() && currentTick == old(currentTick)
      ensures buckets[..] == old(buckets[..])[idx := Remove(old(buckets[idx]), k)]
      ensures totalSize == old(totalSize) - 1
    {
      var rest := Remove(buckets[idx], k);
      TotalTasksUpdate(buckets[..], idx, rest);
      forall j | 0 <= j < |rest| ensures BucketOf(rest[j].deadline) == idx {
        assert rest[j] in multiset(rest);
        var m :| 0 <= m < |buckets[idx]| && buckets[idx][m] == rest[j];
      }
      buckets[idx] := rest;
      totalSize := totalSize - 1;
    }

    /** try_pop: try_get_urgent at the current time. */
    method TryPop(now: Timestamp) returns (r: Option<Task>)
      requires Valid()
      modifies this, buckets
      ensures Valid() && currentTick == old(currentTick)
      ensures TakesUrgent(old(buckets[..]), buckets[..], now, r)
      ensures r.Some? ==> totalSize == old(totalSize) - 1
      ensures r.None? ==> totalSize == old(totalSize)
    {
      r := TryGetUrgent(now);
    }

    /** get_slack_histogram: clears `hist` and counts every stored task in
        the bin of its slack at `now`, bucket by bucket. */
    method GetSlackHistogram(now: Timestamp, hist: array<nat>)
      requires Valid() && hist.Length == SLACK_HISTOGRAM_BINS
      modifies hist
      ensures hist[..] == Histogram(Flatten(buckets[..]), now)
      ensures SumCounts(hist[..]) == totalSize
    {
      ghost var contents := buckets[..];
      forall b | 0 <= b < hist.Length {
        hist[b] := 0;
      }
      assert hist[..] == Histogram(Flatten(buckets[..0]), now);
      var i := 0;
      while i < buckets.Length
        invariant 0 <= i <= buckets.Length
        invariant buckets[..] == contents
        invariant hist[..] == Histogram(Flatten(buckets[..i]), now)
      {
        CountTasks(buckets[i], now, hist, Flatten(buckets[..i]));
        FlattenStep(buckets[..], i);
        assert buckets[..][..i] == buckets[..i] && buckets[..][..i + 1] == buckets[..i + 1];
        i := i + 1;
      }
      assert buckets[..i] == buckets[..] == contents;
      HistogramTotal(Flatten(buckets[..]), now);
      FlattenSize(buckets[..]);
    }
  }

  /** The inner loop of get_slack_histogram: one bucket's tasks, each
      adding one to its bin. */
  method CountTasks(tasks: seq<Task>, now: Timestamp, hist: array<nat>, ghost before: seq<Task>)
    requires hist.Length == SLACK_HISTOGRAM_BINS && hist[..] == Histogram(before, now)
    modifies hist
    ensures hist[..] == Histogram(before + tasks, now)
  {
    var k := 0;
    assert before + tasks[..0] == before;
    while k < |tasks|
      invariant 0 <= k <= |tasks|
      invariant hist[..] == Histogram(before + tasks[..k], now)
    {
      CountStep(before, tasks, k, now);
      Bump(hist, SlackBin(tasks[k], now));
      k := k + 1;
    }
    assert tasks[..k] == tasks;
  }

  lemma CountStep(before: seq<Task>, tasks: seq<Task>, k: nat, now: Timestamp)
    requires k < |tasks|
    ensures var h := Histogram(before + tasks[..k], now);
      Histogram(before + tasks[..k + 1], now) == h[SlackBin(tasks[k], now) := h[SlackBin(tasks[k], now)] + 1]
  {
    assert before + tasks[..k + 1] == before + tasks[..k] + [tasks[k]];
    HistogramStep(before + tasks[..k], tasks[k], now);
  }

  /** `++hist[bin]`. */
  method Bump(hist: array<nat>, bin: nat)
    requires bin < hist.Length
    modifies hist
    ensures hist[..] == old(hist[..])[bin := old(hist[bin]) + 1]
  {
    hist[bin] := hist[bin] + 1;
  }

  /** The first offset from `o` on whose bucket holds a task, or
      URGENT_SCAN when there is none within the scanned range. */
  function UrgentOffset(b: seq<seq<Task>>, now: Timestamp, o: nat): (r: nat)
    requires |b| == NUM_BUCKETS && o <= URGENT_SCAN
    ensures o <= r <= URGENT_SCAN
    ensures forall p :: o <= p < r ==> b[ScanBucket(now, p)] == []
    ensures r < URGENT_SCAN ==> b[ScanBucket(now, r)] != []
    decreases URGENT_SCAN - o
  {
    if o == URGENT_SCAN then URGENT_SCAN
    else if b[ScanBucket(now, o)] != [] then o
    else UrgentOffset(b, now, o + 1)
  }

  /** What try_get_urgent does to the buckets: nothing when the scanned
      range is empty, otherwise it takes the first task of least deadline
      from the first non-empty bucket of the range. */
  ghost predicate TakesUrgent(before: seq<seq<Task>>, after: seq<seq<Task>>, now: Timestamp, r: Option<Task>)
    requires |before| == NUM_BUCKETS
  {
    var off := UrgentOffset(before, now, 0);
    if off == URGENT_SCAN then r.None? && after == before
    else
      var i := ScanBucket(now, off);
      r.Some? && exists k: nat :: IsFirstMin(before[i], k) && r.value == before[i][k] && after == before[i := Remove(before[i], k)]
  }

  lemma UrgentTaken(before: seq<seq<Task>>, after: seq<seq<Task>>, now: Timestamp, offset: nat, k: nat)
    requires |before| == NUM_BUCKETS && offset < URGENT_SCAN
    requires UrgentOffset(before, now, offset) == UrgentOffset(before, now, 0)
    requires before[ScanBucket(now, offset)] != []
    requires IsFirstMin(before[ScanBucket(now, offset)], k)
    requires after == before[ScanBucket(now, offset) := Remove(before[ScanBucket(now, offset)], k)]
    ensures TakesUrgent(before, after, now, Some(before[ScanBucket(now, offset)][k]))
  {
  }

  /** try_get_urgent fails exactly when the 128 buckets it scans are empty. */
  lemma UrgentFails(b: seq<seq<Task>>, now: Timestamp)
    requires |b| == NUM_BUCKETS
    ensures UrgentOffset(b, now, 0) == URGENT_SCAN <==> forall o :: 0 <= o < URGENT_SCAN ==> b[ScanBucket(now, o)] == []
  {
  }

  /** Only one position can be where std::min_element stops. */
  lemma FirstMinUnique(tasks: seq<Task>, k1: nat, k2: nat)
    requires IsFirstMin(tasks, k1) && IsFirstMin(tasks, k2)
    ensures k1 == k2
  {
    assert tasks[k1].deadline == tasks[k2].deadline;
  }

  // ---------------------------------------------------------------
  // EDFQueue

  datatype Implementation = Locked | TimingWheel

  /** The facade: push, try_pop and size go to the chosen implementation;
      the slack histogram always comes from the timing wheel, which never
      receives a task when the locked heap is chosen. */
  class EDFQueue {
    const impl: Implementation
    const lockedQueue: EDFQueueLocked
    const timingWheel: HierarchicalTimingWheel

    ghost predicate Valid()
      reads this, lockedQueue, timingWheel, timingWheel.buckets
    {
      lockedQueue.Valid() && timingWheel.Valid() &&
      (impl == Locked ==> timingWheel.totalSize == 0)
    }

    constructor (impl: Implementation, now: Timestamp)
      ensures Valid() && this.impl == impl && Size() == 0
      ensures fresh(lockedQueue) && fresh(timingWheel) && fresh(timingWheel.buckets)
    {
      this.impl := impl;
      lockedQueue := new EDFQueueLocked();
      timingWheel := new HierarchicalTimingWheel(now);
    }

    function Size(): nat
      reads this, lockedQueue, timingWheel
    {
      match impl
      case Locked => lockedQueue.Size()
      case TimingWheel => timingWheel.Size()
    }

    predicate Empty()
      reads this, lockedQueue, timingWheel
    {
      Size() == 0
    }

    method Push(task: Task)
      requires Valid()
      modifies lockedQueue, timingWheel, timingWheel.buckets
      ensures Valid() && Size() == old(Size()) + 1
      ensures impl == Locked ==>
        multiset(lockedQueue.heap) == old(multiset(lockedQueue.heap)) + multiset{task} &&
        timingWheel.buckets[..] == old(timingWheel.buckets[..])
      ensures impl == TimingWheel ==>
        lockedQueue.heap == old(lockedQueue.heap) &&
        timingWheel.buckets[..] == old(timingWheel.buckets[..])[BucketOf(task.deadline) := old(timingWheel.buckets[BucketOf(task.deadline)]) + [task]]
    {
      match impl
      case Locked => lockedQueue.Push(task);
      case TimingWheel => timingWheel.Insert(task);
    }

    method TryPop(now: Timestamp) returns (r: Option<Task>)
      requires Valid()
      modifies lockedQueue, timingWheel, timingWheel.buckets
      ensures Valid()
      ensures r.Some? ==> Size() == old(Size()) - 1
      ensures r.None? ==> Size() == old(Size())
      ensures impl == Locked ==> r == old(lockedQueue.Peek()) && timingWheel.buckets[..] == old(timingWheel.buckets[..])
      ensures impl == TimingWheel ==>
        lockedQueue.heap == old(lockedQueue.heap) &&
        TakesUrgent(old(timingWheel.buckets[..]), timingWheel.buckets[..], now, r)
    {
      match impl
      case Locked => r := lockedQueue.TryPop();
      case TimingWheel => r := timingWheel.TryPop(now);
    }

    /** get_slack_histogram reads the timing wheel whatever the
        implementation, so with the locked heap every bin is zero. */
    method GetSlackHistogram(now: Timestamp, hist: array<nat>)
      requires Valid() && hist.Length == SLACK_HISTOGRAM_BINS
      modifies hist
      ensures hist[..] == Histogram(Flatten(timingWheel.buckets[..]), now)
      ensures impl == Locked ==> hist[..] == NO_COUNTS
    {
      if impl == Locked {
        NoTasks(timingWheel.buckets[..]);
        EmptyBuckets(timingWheel.buckets[..]);
      }
      timingWheel.GetSlackHistogram(now, hist);
    }
  }
}
