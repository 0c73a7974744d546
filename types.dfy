/** src/common/types.h: unsigned 64-bit time stamps and their unit
    conversions, the slack constants, the per-request chain of time stamps,
    the load balancer's view of a worker, and the scheduler kinds. Also the
    decision record of src/scheduler/scheduler.h, which every scheduler
    returns. */
module Types {

  const TWO_8: int := 0x100
  const TWO_16: int := 0x1_0000
  const TWO_32: int := 0x1_0000_0000
  const TWO_63: int := 0x8000_0000_0000_0000
  const TWO_64: int := 0x1_0000_0000_0000_0000

  /** uint64_t, the type of Timestamp. */
  type Timestamp = t: int | 0 <= t < TWO_64

  /** int64_t, the type of Duration. */
  type Duration = d: int | -TWO_63 <= d < TWO_63

  /** uint32_t. */
  type U32 = n: int | 0 <= n < TWO_32

  /** uint8_t. */
  type U8 = n: int | 0 <= n < TWO_8

  // ---------------------------------------------------------------
  // Fixed-width arithmetic

  /** The result of unsigned 64-bit arithmetic: the value modulo 2^64. */
  function Wrap64(x: int): (r: Timestamp)
    ensures 0 <= x < TWO_64 ==> r == x
    ensures (x - r) % TWO_64 == 0
  {
    x % TWO_64
  }

  /** The result of unsigned 32-bit arithmetic. */
  function Wrap32(x: int): (r: U32)
    ensures 0 <= x < TWO_32 ==> r == x
    ensures (x - r) % TWO_32 == 0
  {
    x % TWO_32
  }

  /** static_cast<uint8_t> of a non-negative index: its low eight bits. */
  function Truncate8(x: nat): (r: U8)
    ensures x < TWO_8 ==> r == x
    ensures r <= x
  {
    x % TWO_8
  }

  /** static_cast<int64_t> of a uint64_t: the same bits read in two's
      complement, so values from 2^63 on become negative. */
  function ToSigned64(x: Timestamp): (d: Duration)
    ensures (x - d) % TWO_64 == 0
    ensures d < 0 <==> x >= TWO_63
    ensures d >= 0 ==> d == x
  {
    if x < TWO_63 then x else x - TWO_64
  }

  /** `end - start` on two time stamps: the elapsed time when `end` is not
      earlier, and otherwise the difference wrapped around 2^64. Adding it
      back to `start` always gives `end`. */
  function Elapsed(start: Timestamp, end: Timestamp): (r: Timestamp)
    ensures start <= end ==> r == end - start
    ensures start > end ==> r == TWO_64 - (start - end)
    ensures Wrap64(start + r) == end
  {
    Wrap64(end - start)
  }

  /** `(int64_t)(a - b)` on two time stamps: how far `a` lies after `b`,
      exact whenever that distance fits in 63 bits. */
  function SignedDiff(a: Timestamp, b: Timestamp): (d: Duration)
    ensures -TWO_63 <= a - b < TWO_63 ==> d == a - b
  {
    ToSigned64(Wrap64(a - b))
  }

  /** Multiplying a residue by k keeps it congruent to the product. */
  lemma {:induction false} WrapScaled(x: int, k: int)
    ensures Wrap64(Wrap64(x) * k) == Wrap64(x * k)
  {
    var q := x / TWO_64;
    var r := x % TWO_64;
    assert x == q * TWO_64 + r;
    assert x * k == r * k + (q * k) * TWO_64;
    ModShift(r * k, q * k);
  }

  /** Adding a multiple of 2^64 does not change a residue. */
  lemma ModShift(y: int, c: int)
    ensures (y + c * TWO_64) % TWO_64 == y % TWO_64
  {
  }

  // ---------------------------------------------------------------
  // Unit conversions and constants

  /** us_to_ns: microseconds to nanoseconds in uint64_t arithmetic. */
  function UsToNs(us: Timestamp): Timestamp
  {
    Wrap64(us * 1000)
  }

  /** ms_to_ns: milliseconds to nanoseconds in uint64_t arithmetic. */
  function MsToNs(ms: Timestamp): Timestamp
  {
    Wrap64(ms * 1000000)
  }

  /** Both conversions are exact multiplications while the product fits in
      64 bits, and a millisecond is a thousand microseconds even where the
      products wrap. */
  lemma {:induction false} UnitConversions(x: Timestamp)
    ensures x * 1000 < TWO_64 ==> UsToNs(x) == 1000 * x
    ensures x * 1000000 < TWO_64 ==> MsToNs(x) == 1000000 * x
    ensures MsToNs(x) == UsToNs(Wrap64(x * 1000))
  {
    WrapScaled(x * 1000, 1000);
    assert x * 1000 * 1000 == x * 1000000;
  }

  /** Width of one slack-histogram bin, and the number of bins. */
  const SLACK_BIN_WIDTH: Timestamp := UsToNs(100)
  const SLACK_HISTOGRAM_BINS: nat := 32

  /** Default deadline of a request, and the most workers the metrics keep
      apart. */
  const DEFAULT_DEADLINE: Timestamp := MsToNs(10)
  const MAX_WORKERS: nat := 16

  /** The listening port of the load balancer. */
  const DEFAULT_PORT: nat := 31850

  lemma ConstantValues()
    ensures SLACK_BIN_WIDTH == 100000
    ensures DEFAULT_DEADLINE == 10000000
  {
    UnitConversions(100);
    UnitConversions(10);
  }

  // ---------------------------------------------------------------
  // Request trace

  /** The seven time stamps of one request: client send, load-balancer
      receive and dispatch, worker receive and done, load-balancer response,
      client receive. */
  datatype RequestTrace = RequestTrace(
    requestId: Timestamp,
    deadline: Timestamp,
    t1ClientSend: Timestamp,
    t2LbReceive: Timestamp,
    t3LbDispatch: Timestamp,
    t4WorkerRecv: Timestamp,
    t5WorkerDone: Timestamp,
    t6LbResponse: Timestamp,
    t7ClientRecv: Timestamp,
    targetWorkerId: U8)
  {
    /** End-to-end latency, client send to client receive. */
    function E2eLatency(): Timestamp
    {
      Elapsed(t1ClientSend, t7ClientRecv)
    }

    /** Time left before the deadline at client receive; negative when late. */
    function Slack(): Duration
    {
      SignedDiff(deadline, t7ClientRecv)
    }

    predicate IsDeadlineMiss()
    {
      Slack() < 0
    }

    /** Time the load balancer held the request. */
    function LbOverhead(): Timestamp
    {
      Elapsed(t2LbReceive, t3LbDispatch)
    }

    /** Time between the worker receiving and finishing the request. */
    function QueueWait(): Timestamp
    {
      Elapsed(t4WorkerRecv, t5WorkerDone)
    }
  }

  /** On a trace whose seven stamps are in order, every duration is the
      real gap between its two stamps, and the time the load balancer held
      the request and the time the worker spent on it both lie within the
      end-to-end latency, which covers the two together. */
  lemma TraceParts(t: RequestTrace)
    requires t.t1ClientSend <= t.t2LbReceive <= t.t3LbDispatch <= t.t4WorkerRecv
    requires t.t4WorkerRecv <= t.t5WorkerDone <= t.t6LbResponse <= t.t7ClientRecv
    ensures t.E2eLatency() == t.t7ClientRecv - t.t1ClientSend
    ensures t.LbOverhead() == t.t3LbDispatch - t.t2LbReceive
    ensures t.QueueWait() == t.t5WorkerDone - t.t4WorkerRecv
    ensures t.LbOverhead() + t.QueueWait() <= t.E2eLatency()
  {
  }

  /** A request misses its deadline exactly when it arrives after it, as
      long as deadline and arrival are less than 2^63 ns apart. Beyond that
      the signed cast flips the answer: an arrival more than 2^63 ns after
      the deadline is not a miss, and a deadline 2^63 ns or more ahead is. */
  lemma {:induction false} DeadlineMissIff(t: RequestTrace)
    ensures -TWO_63 <= t.deadline - t.t7ClientRecv < TWO_63 ==>
      t.Slack() == t.deadline - t.t7ClientRecv &&
      (t.IsDeadlineMiss() <==> t.t7ClientRecv > t.deadline)
    ensures t.deadline - t.t7ClientRecv >= TWO_63 ==> t.IsDeadlineMiss()
    ensures t.deadline - t.t7ClientRecv < -TWO_63 ==> !t.IsDeadlineMiss()
  {
    var d := t.deadline - t.t7ClientRecv;
    var w := Wrap64(d);
    if d >= 0 {
      assert w == d;
    } else {
      assert w == d + TWO_64;
    }
  }

  // ---------------------------------------------------------------
  // Worker state as the load balancer sees it

  /** uint32_t slack_histogram[kSlackHistogramBins]. */
  type SlackHistogram = h: seq<nat> | |h| == SLACK_HISTOGRAM_BINS witness seq(32, _ => 0)

  datatype WorkerState = WorkerState(
    workerId: U8,
    address: string,
    queueLength: U32,
    activeRequests: U32,
    loadEma: real,
    slackHistogram: SlackHistogram,
    avgServiceTime: Timestamp,
    p99Latency: Timestamp,
    deadlineMissRate: real,
    capacityFactor: real,
    isHealthy: bool,
    lastHeartbeat: Timestamp)

  /** The is_healthy flag of every worker, in order. */
  function HealthFlags(workers: seq<WorkerState>): (ok: seq<bool>)
    ensures |ok| == |workers|
    ensures forall i :: 0 <= i < |workers| ==> ok[i] == workers[i].isHealthy
  {
    seq(|workers|, i requires 0 <= i < |workers| => workers[i].isHealthy)
  }

  /** std::numeric_limits<double>::max(), that is (2^53 - 1) * 2^971. */
  const DBL_MAX: real := 179769313486231570814527423731704356798070567525844996598917476803157260780028538760589558632766878171540458953514382464234321326889464182768467546703537516986049910576551282076245490090389328944075868508455133942304583236903222948165808559332123348274797826204144723168738177180919299881250404026184124858368.0

  /** The default smoothing factor of update_load_ema. */
  const LOAD_EMA_ALPHA: real := 0.1

  /** x lies between a and b, whichever is larger. */
  predicate Between(x: real, a: real, b: real)
  {
    (a <= x <= b) || (b <= x <= a)
  }

  /** update_load_ema: moves the load estimate a fraction alpha of the way
      towards the new sample and changes nothing else. For alpha in [0, 1]
      the new estimate lies between the old one and the sample; alpha 0
      keeps the old estimate and alpha 1 takes the sample. */
  function UpdateLoadEma(w: WorkerState, newLoad: real, alpha: real): (r: WorkerState)
    ensures r == w.(loadEma := r.loadEma)
    ensures r.loadEma - newLoad == (1.0 - alpha) * (w.loadEma - newLoad)
    ensures 0.0 <= alpha <= 1.0 ==> Between(r.loadEma, w.loadEma, newLoad)
  {
    var e := alpha * newLoad + (1.0 - alpha) * w.loadEma;
    EmaStep(w.loadEma, newLoad, alpha);
    w.(loadEma := e)
  }

  /** One smoothing step in terms of the old estimate `o` and the sample
      `x`. */
  lemma EmaStep(o: real, x: real, alpha: real)
    ensures alpha * x + (1.0 - alpha) * o - x == (1.0 - alpha) * (o - x)
    ensures 0.0 <= alpha <= 1.0 ==> Between(alpha * x + (1.0 - alpha) * o, o, x)
  {
    if 0.0 <= alpha <= 1.0 {
      Lerp(o, x, alpha);
      LerpBetween(o, x, alpha);
    }
  }

  /** The smoothed value is the old one moved by alpha times the gap. */
  lemma Lerp(o: real, x: real, alpha: real)
    ensures alpha * x + (1.0 - alpha) * o == o + alpha * (x - o)
  {
  }

  /** Moving a fraction in [0, 1] of the gap stays between the ends. */
  lemma LerpBetween(o: real, x: real, alpha: real)
    requires 0.0 <= alpha <= 1.0
    ensures Between(o + alpha * (x - o), o, x)
  {
    var e := o + alpha * (x - o);
    if o <= x {
      ProductNonNegative(alpha, x - o);
      ProductNonNegative(1.0 - alpha, x - o);
      assert x - e == (1.0 - alpha) * (x - o);
      assert o <= e <= x;
    } else {
      ProductNonNegative(alpha, o - x);
      ProductNonNegative(1.0 - alpha, o - x);
      assert o - e == alpha * (o - x);
      assert e - x == (1.0 - alpha) * (o - x);
      assert x <= e <= o;
    }
  }

  lemma ProductNonNegative(a: real, b: real)
    requires a >= 0.0 && b >= 0.0
    ensures a * b >= 0.0
  {
  }

  lemma ProductPositive(a: real, b: real)
    requires a > 0.0 && b > 0.0
    ensures a * b > 0.0
  {
  }

  /** Scaling by a positive factor keeps the sign. */
  lemma MulSign(a: real, d: real)
    requires d > 0.0
    ensures a > 0.0 ==> a * d > 0.0
    ensures a <= 0.0 ==> a * d <= 0.0
  {
    if a > 0.0 {
      ProductPositive(a, d);
    } else {
      ProductNonNegative(-a, d);
      assert a * d == -((-a) * d);
    }
  }

  /** For a positive divisor, x / d <= c exactly when x <= c d. */
  lemma RatioAtMost(x: real, d: real, c: real)
    requires d > 0.0
    ensures x / d <= c <==> x <= c * d
  {
    var r := x / d;
    assert r * d == x;
    assert c * d - x == -((r - c) * d);
    MulSign(r - c, d);
  }

  /** Repeating the same sample: after k updates the distance to the
      sample has shrunk by the factor (1 - alpha)^k. */
  function Repeated(w: WorkerState, x: real, alpha: real, k: nat): (r: WorkerState)
    ensures r == w.(loadEma := r.loadEma)
  {
    if k == 0 then w else UpdateLoadEma(Repeated(w, x, alpha, k - 1), x, alpha)
  }

  function Power(b: real, k: nat): real
  {
    if k == 0 then 1.0 else b * Power(b, k - 1)
  }

  lemma {:induction false} RepeatedDistance(w: WorkerState, x: real, alpha: real, k: nat)
    ensures Repeated(w, x, alpha, k).loadEma - x == Power(1.0 - alpha, k) * (w.loadEma - x)
  {
    if k == 0 {
      assert Repeated(w, x, alpha, k) == w && Power(1.0 - alpha, k) == 1.0;
    } else {
      var prev := Repeated(w, x, alpha, k - 1);
      RepeatedDistance(w, x, alpha, k - 1);
      assert Repeated(w, x, alpha, k) == UpdateLoadEma(prev, x, alpha);
      assert Repeated(w, x, alpha, k).loadEma - x == (1.0 - alpha) * (prev.loadEma - x);
      assert Power(1.0 - alpha, k) == (1.0 - alpha) * Power(1.0 - alpha, k - 1);
      DistanceStep(Repeated(w, x, alpha, k).loadEma, prev.loadEma, x, 1.0 - alpha,
        Power(1.0 - alpha, k - 1), Power(1.0 - alpha, k), w.loadEma - x);
    }
  }

  /** One more factor: an estimate whose distance to x is a times the
      previous one, which was p times d, is a * p times d away. */
  lemma DistanceStep(cur: real, prev: real, x: real, a: real, p: real, pk: real, d: real)
    requires cur - x == a * (prev - x) && prev - x == p * d && pk == a * p
    ensures cur - x == pk * d
  {
  }

  // ---------------------------------------------------------------
  // Scheduler kinds and decisions

  datatype SchedulerType = PowerOf2 | Malcolm | MalcolmStrict

  datatype LocalSchedulerType = Fcfs | Edf

  /** scheduler_type_name: the display name of each scheduler kind. */
  function SchedulerTypeName(t: SchedulerType): (r: string)
    ensures |r| > 0
  {
    match t
    case PowerOf2 => "Power-of-2"
    case Malcolm => "Malcolm"
    case MalcolmStrict => "Malcolm-Strict"
  }

  /** The three names differ, so a name identifies its scheduler. */
  lemma SchedulerTypeNameInjective(a: SchedulerType, b: SchedulerType)
    ensures SchedulerTypeName(a) == SchedulerTypeName(b) <==> a == b
  {
    if a != b {
      var x, y := SchedulerTypeName(a), SchedulerTypeName(b);
      assert |x| != |y|;
    }
  }

  /** What every scheduler returns: the chosen worker, a confidence score
      and the time the decision took. */
  datatype ScheduleDecision = ScheduleDecision(targetWorkerId: U8, confidence: real, decisionTime: Timestamp)

  /** The decision every scheduler returns for an empty worker list: worker
      0 with confidence 0, timed between the two clock readings. */
  function EmptyDecision(start: Timestamp, finish: Timestamp): (d: ScheduleDecision)
    ensures d.targetWorkerId == 0 && d.confidence == 0.0
    ensures Wrap64(start + d.decisionTime) == finish
  {
    ScheduleDecision(0, 0.0, Elapsed(start, finish))
  }
}
