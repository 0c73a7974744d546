/** src/scheduler/malcolm_strict_scheduler.h: Malcolm-Strict. Without a
    loaded model it scores every healthy worker by a risk that grows with
    its queue, its recent P99, its slow-node discount, the urgent tasks in
    its slack histogram and the danger of missing the request's deadline,
    and picks the worker of least risk. The CVaR tail mean, the deadline
    barrier and the quantile sample points the model path uses are modelled
    on reals; the network itself is not. Clock readings and std::log are
    parameters. */
module MalcolmStrictScheduler {
  import opened Types
  import opened Samples
  import opened Selection

  /** kNumQuantileSamples. */
  const NUM_QUANTILE_SAMPLES: nat := 32

  /** kDefaultCVaRAlpha: the worst 5% of outcomes. */
  const DEFAULT_CVAR_ALPHA: real := 0.95

  datatype CVaREstimate = CVaREstimate(valueAtRisk: real, cvar: real, mean: real)

  // ---------------------------------------------------------------
  // Risk of one worker

  /** Tasks in the first `b` bins of a slack histogram. */
  function BinsBelow(h: SlackHistogram, b: nat): (r: nat)
    requires b <= |h|
    ensures b > 0 ==> r >= h[b - 1]
  {
    if b == 0 then 0 else BinsBelow(h, b - 1) + h[b - 1]
  }

  /** expected_latency: avg_service_time * (1 + queue_length), where the
      increment is uint32_t arithmetic and the product uint64_t, read back as
      int64_t. It is the plain product whenever that fits in 63 bits. */
  function ExpectedLatency(ws: WorkerState): (d: Duration)
    ensures ws.queueLength + 1 < TWO_32 && ws.avgServiceTime * (ws.queueLength + 1) < TWO_63 ==>
      d == ws.avgServiceTime * (ws.queueLength + 1)
  {
    var factor := Wrap32(1 + ws.queueLength);
    ToSigned64(Wrap64(ws.avgServiceTime * factor))
  }

  /** Time to the deadline left once the worker has drained its queue:
      deadline - now as int64_t, less the expected latency. */
  function ProjectedSlack(ws: WorkerState, deadline: Timestamp, now: Timestamp): int
  {
    SignedDiff(deadline, now) - ExpectedLatency(ws)
  }

  /** us_to_ns(100): the slack below which the deadline adds risk. */
  const DEADLINE_MARGIN: Timestamp := 100000

  lemma DeadlineMarginIs100Us()
    ensures DEADLINE_MARGIN == UsToNs(100)
  {
  }

  /** The deadline part of the risk: 10^6 once the projected slack is
      negative, a penalty falling linearly from 10^4 to 0 across the first
      100 microseconds of slack, and nothing beyond. */
  function DeadlineTerm(slack: int): (r: real)
    ensures slack < 0 ==> r == 1000000.0
    ensures 0 <= slack ==> 0.0 <= r <= 10000.0
    ensures slack >= 100000 ==> r == 0.0
  {
    if slack < 0 then 1000000.0
    else if slack < DEADLINE_MARGIN then 10000.0 * (1.0 - slack as real / DEADLINE_MARGIN as real)
    else 0.0
  }

  /** Less slack never means less risk. */
  lemma DeadlineTermMonotone(a: int, b: int)
    requires a <= b
    ensures DeadlineTerm(a) >= DeadlineTerm(b)
  {
    if 0 <= a && b < DEADLINE_MARGIN {
      DivLe(a as real, b as real, DEADLINE_MARGIN as real);
    }
  }

  /** The risk schedule_heuristic gives a worker: queue length and P99 (in
      microseconds) scaled by the slow-node discount 2 - capacity_factor,
      500 per task in the four most urgent slack bins, and the deadline
      term. */
  function Risk(ws: WorkerState, deadline: Timestamp, now: Timestamp): real
  {
    BaseRisk(ws) + BinsBelow(ws.slackHistogram, 4) as real * 500.0 + DeadlineTerm(ProjectedSlack(ws, deadline, now))
  }

  /** The queue and P99 part of the risk, with the slow-node discount. */
  function BaseRisk(ws: WorkerState): real
  {
    (ws.queueLength as real * 100.0 + ws.p99Latency as real / 1000.0) * (2.0 - ws.capacityFactor)
  }

  /** A worker whose projected slack shrinks never becomes less risky. */
  lemma RiskFollowsSlack(ws: WorkerState, deadline: Timestamp, now1: Timestamp, now2: Timestamp)
    requires ProjectedSlack(ws, deadline, now1) <= ProjectedSlack(ws, deadline, now2)
    ensures Risk(ws, deadline, now1) >= Risk(ws, deadline, now2)
  {
    DeadlineTermMonotone(ProjectedSlack(ws, deadline, now1), ProjectedSlack(ws, deadline, now2));
  }

  /** A projected miss outweighs any slack penalty: the same worker is
      riskier by more than 990000 once its projected slack turns negative. */
  lemma LateIsRiskier(ws: WorkerState, deadline: Timestamp, late: Timestamp, early: Timestamp)
    requires ProjectedSlack(ws, deadline, late) < 0 <= ProjectedSlack(ws, deadline, early)
    ensures Risk(ws, deadline, late) >= Risk(ws, deadline, early) + 990000.0
  {
  }

  /** Every urgent task adds exactly 500 to the risk. */
  lemma UrgentTasksAdd(ws: WorkerState, h: SlackHistogram, deadline: Timestamp, now: Timestamp)
    ensures Risk(ws.(slackHistogram := h), deadline, now) - Risk(ws, deadline, now) ==
      (BinsBelow(h, 4) as real - BinsBelow(ws.slackHistogram, 4) as real) * 500.0
  {
    var other := ws.(slackHistogram := h);
    assert other.queueLength == ws.queueLength && other.avgServiceTime == ws.avgServiceTime;
    assert BaseRisk(other) == BaseRisk(ws);
    assert ProjectedSlack(other, deadline, now) == ProjectedSlack(ws, deadline, now);
  }

  /** The per-worker body of the loop in schedule_heuristic. */
  method ScoreWorker(ws: WorkerState, deadline: Timestamp, now: Timestamp) returns (risk: real)
    ensures risk == Risk(ws, deadline, now)
  {
    risk := 0.0;
    risk := risk + ws.queueLength as real * 100.0;
    risk := risk + ws.p99Latency as real / 1000.0;
    risk := risk * (2.0 - ws.capacityFactor);
    assert risk == BaseRisk(ws);
    var urgentTasks := 0;
    var b := 0;
    while b < 4
      invariant 0 <= b <= 4
      invariant urgentTasks == BinsBelow(ws.slackHistogram, b)
    {
      urgentTasks := urgentTasks + ws.slackHistogram[b];
      b := b + 1;
    }
    risk := risk + urgentTasks as real * 500.0;
    var expectedLatency := ExpectedLatency(ws);
    var slack := SignedDiff(deadline, now) - expectedLatency;
    if slack < 0 {
      risk := risk + 1000000.0;
    } else if slack < DEADLINE_MARGIN {
      risk := risk + 10000.0 * (1.0 - slack as real / DEADLINE_MARGIN as real);
    }
  }

  /** The risk of every worker, worker i scored at the clock reading taken
      for it. */
  function Risks(workers: seq<WorkerState>, deadline: Timestamp, clock: nat -> Timestamp): (r: seq<real>)
    ensures |r| == |workers|
    ensures forall i :: 0 <= i < |workers| ==> r[i] == Risk(workers[i], deadline, clock(i))
  {
    seq(|workers|, i requires 0 <= i < |workers| => Risk(workers[i], deadline, clock(i)))
  }

  /** The confidence 1 / (1 + min_risk / 10^6), defined while the divisor
      is not zero; a zero divisor gives an IEEE infinity, which is not a
      real, and the model then reports 0. */
  function Confidence(minRisk: real): (r: real)
    ensures 1.0 + minRisk / 1000000.0 != 0.0 ==> r * (1.0 + minRisk / 1000000.0) == 1.0
    ensures minRisk >= 0.0 ==> 0.0 < r <= 1.0
  {
    var divisor := 1.0 + minRisk / 1000000.0;
    if divisor == 0.0 then 0.0 else 1.0 / divisor
  }

  // ---------------------------------------------------------------
  // Deadline barrier and CVaR, the arithmetic of the model path

  /** compute_deadline_penalty: 10^9 once the slack is used up; otherwise,
      with ratio = slack / (cvar + 10^-6), the barrier -10^6 log(ratio +
      10^-9) up to ratio 1, a linear 1000 (2 - ratio) up to ratio 2, and 0
      beyond. A divisor of exactly zero makes the ratio +infinity, which
      falls in the last zone. */
  function DeadlinePenalty(cvar: real, slack: Duration, log: real -> real): (r: real)
    ensures slack <= 0 ==> r == 1000000000.0
  {
    if slack <= 0 then 1000000000.0
    else
      var divisor := cvar + 0.000001;
      if divisor == 0.0 then 0.0
      else
        var ratio := slack as real / divisor;
        if ratio <= 1.0 then -1000000.0 * log(ratio + 0.000000001)
        else if ratio <= 2.0 then 1000.0 * (2.0 - ratio)
        else 0.0
  }

  /** For a positive divisor the zones are read off the slack itself: no
      penalty beyond twice the divisor, a penalty in [0, 1000) between one
      and two divisors, and the log barrier up to one divisor. */
  lemma PenaltyZones(cvar: real, slack: Duration, log: real -> real)
    requires slack > 0 && cvar + 0.000001 > 0.0
    ensures var d := cvar + 0.000001;
      (slack as real > 2.0 * d ==> DeadlinePenalty(cvar, slack, log) == 0.0) &&
      (d < slack as real <= 2.0 * d ==> 0.0 <= DeadlinePenalty(cvar, slack, log) < 1000.0) &&
      (slack as real <= d ==> DeadlinePenalty(cvar, slack, log) == -1000000.0 * log(slack as real / d + 0.000000001))
  {
    var d := cvar + 0.000001;
    RatioAtMost(slack as real, d, 1.0);
    RatioAtMost(slack as real, d, 2.0);
  }

  /** var_idx: static_cast<size_t>(alpha * 32), which truncates toward
      zero. */
  function VarIndex(alpha: real): (k: nat)
    requires -1.0 < alpha * NUM_QUANTILE_SAMPLES as real < NUM_QUANTILE_SAMPLES as real
    ensures k < NUM_QUANTILE_SAMPLES
  {
    var x := alpha * NUM_QUANTILE_SAMPLES as real;
    if x < 0.0 then 0 else x.Floor
  }

  /** At the default alpha of 0.95 the VaR is the 31st of 32 sorted
      quantiles, and the CVaR averages the top two. */
  lemma DefaultVarIndex()
    ensures VarIndex(DEFAULT_CVAR_ALPHA) == 30
  {
    assert DEFAULT_CVAR_ALPHA * NUM_QUANTILE_SAMPLES as real == 30.4;
  }

  /** The tail mean of a sorted sequence from position k on lies between
      its first element and the maximum. */
  lemma TailMeanBounds(sorted: seq<real>, k: nat)
    requires Sorted(sorted) && k < |sorted|
    ensures sorted[k] <= Mean(sorted[k..]) <= sorted[|sorted| - 1]
  {
    MeanBetween(sorted[k..], sorted[k], sorted[|sorted| - 1]);
  }

  /** What sorting the estimates yields: the same mean, and a tail mean
      from any position on between that position's value and the
      maximum. */
  lemma SortedTail(sorted: seq<real>, q: seq<real>, k: nat)
    requires Sorted(sorted) && multiset(sorted) == multiset(q) && |sorted| == |q|
    requires k < |q|
    ensures Sum(sorted) / |q| as real == Mean(q)
    ensures sorted[k] <= Mean(sorted[k..]) <= Max(q)
  {
    assert Sum(sorted) == Sum(q) by {
      SortedUnique(sorted, Sort(q));
      SumSort(q);
    }
    TailMeanBounds(sorted, k);
    SortedLast(sorted, q);
  }

  /** The i-th quantile sample point: (i + 1) / 33 up to 0.8 of the way,
      then 0.9 + 0.1 (i - 25.6) / 6.4, denser sampling of the tail. */
  function QuantileSample(i: nat): real
  {
    var n := NUM_QUANTILE_SAMPLES as real;
    if i as real >= n * 0.8 then 0.9 + 0.1 * (i as real - n * 0.8) / (n * 0.2)
    else (i + 1) as real / (n + 1.0)
  }

  /** The sample points lie strictly inside (0, 1) and strictly increase. */
  lemma QuantileSamplesIncrease(i: nat, j: nat)
    requires i < j < NUM_QUANTILE_SAMPLES
    ensures 0.0 < QuantileSample(i) < QuantileSample(j) < 1.0
  {
    if j < 26 {
      DivLessThan((i + 1) as real, (j + 1) as real, 33.0);
    }
  }

  lemma DivLessThan(x: real, y: real, c: real)
    requires 0.0 < x < y && c > 0.0
    ensures 0.0 < x / c < y / c
  {
    assert (x / c) * c == x && (y / c) * c == y;
    if x / c >= y / c {
      MulLe(c, y / c, x / c);
    }
  }

  // ---------------------------------------------------------------
  // The scheduler

  class MalcolmStrictScheduler {
    const cvarAlpha: real
    /** Stays false: a model is loaded only in the libtorch build. */
    const modelLoaded: bool
    var quantileSamples: seq<real>

    constructor (modelPath: string, cvarAlpha: real)
      ensures this.cvarAlpha == cvarAlpha && !modelLoaded && quantileSamples == []
    {
      this.cvarAlpha := cvarAlpha;
      modelLoaded := false;
      quantileSamples := [];
    }

    /** schedule: worker 0 with confidence 0 for an empty list; otherwise
        the heuristic's pick, since no model is loaded (and schedule_iqn
        itself falls back to the heuristic without libtorch). `clock(i)`
        is the reading of now_ns() taken while scoring worker i. */
    method Schedule(deadline: Timestamp, workers: seq<WorkerState>, clock: nat -> Timestamp,
                    start: Timestamp, finish: Timestamp)
      returns (d: ScheduleDecision)
      ensures d.decisionTime == Elapsed(start, finish)
      ensures workers == [] ==> d == EmptyDecision(start, finish)
      ensures workers != [] ==> exists best: int, minRisk: real ::
        Scanned(HealthFlags(workers), Risks(workers, deadline, clock), |workers|, DBL_MAX, best, minRisk) &&
        d.targetWorkerId == TargetOf(best) && d.confidence == Confidence(minRisk)
    {
      if workers == [] {
        return EmptyDecision(start, finish);
      }
      var target, confidence := ScheduleHeuristic(deadline, workers, clock);
      d := ScheduleDecision(target, confidence, Elapsed(start, finish));
    }

    /** schedule_heuristic: the first healthy worker of strictly least risk,
        or worker 0 when none scores below DBL_MAX; the confidence falls
        as the least risk grows. */
    method ScheduleHeuristic(deadline: Timestamp, workers: seq<WorkerState>, clock: nat -> Timestamp)
      returns (target: U8, confidence: real)
      ensures exists best: int, minRisk: real ::
        Scanned(HealthFlags(workers), Risks(workers, deadline, clock), |workers|, DBL_MAX, best, minRisk) &&
        target == TargetOf(best) && confidence == Confidence(minRisk)
    {
      ghost var ok, risks := HealthFlags(workers), Risks(workers, deadline, clock);
      target := 0;
      var minRisk := DBL_MAX;
      ghost var pos: int := -1;
      var i := 0;
      while i < |workers|
        invariant 0 <= i <= |workers|
        invariant Scanned(ok, risks, i, DBL_MAX, pos, minRisk)
        invariant target == TargetOf(pos)
      {
        ScanStep(ok, risks, i, DBL_MAX, pos, minRisk);
        if workers[i].isHealthy {
          var risk := ScoreWorker(workers[i], deadline, clock(i));
          if risk < minRisk {
            minRisk := risk;
            target := Truncate8(i);
            pos := i;
          }
        }
        i := i + 1;
      }
      confidence := Confidence(minRisk);
    }

    /** compute_cvar_from_quantiles on the 32 quantile estimates of one
        worker: their mean, the VaR at sorted position var_idx, and the
        CVaR, the mean of the sorted estimates from var_idx on. */
    method ComputeCvar(quantiles: seq<real>) returns (est: CVaREstimate)
      requires |quantiles| == NUM_QUANTILE_SAMPLES
      requires -1.0 < cvarAlpha * NUM_QUANTILE_SAMPLES as real < NUM_QUANTILE_SAMPLES as real
      ensures est.mean == Mean(quantiles)
      ensures est.valueAtRisk == Sort(quantiles)[VarIndex(cvarAlpha)]
      ensures est.cvar == Mean(Sort(quantiles)[VarIndex(cvarAlpha)..])
      ensures est.valueAtRisk <= est.cvar <= Max(quantiles)
    {
      var sortedQ := CopyQuantiles(quantiles);
      sortedQ := Sort(sortedQ);
      var mean := Sum(sortedQ) / NUM_QUANTILE_SAMPLES as real;
      var varIdx := VarIndex(cvarAlpha);
      var valueAtRisk := sortedQ[varIdx];
      var cvarSum, cvarCount := TailSum(sortedQ, varIdx);
      var cvar := if cvarCount > 0 then cvarSum / cvarCount as real else valueAtRisk;
      assert cvar == Mean(sortedQ[varIdx..]);
      assert mean == Mean(quantiles) && valueAtRisk <= cvar <= Max(quantiles) by {
        SortedTail(sortedQ, quantiles, varIdx);
      }
      est := CVaREstimate(valueAtRisk, cvar, mean);
    }

    /** The loop copying the estimates into sorted_q before the sort. */
    static method CopyQuantiles(quantiles: seq<real>) returns (copy: seq<real>)
      ensures copy == quantiles
    {
      copy := [];
      var i := 0;
      while i < |quantiles|
        invariant 0 <= i <= |quantiles|
        invariant copy == quantiles[..i]
      {
        copy := copy + [quantiles[i]];
        i := i + 1;
      }
    }

    /** The loop adding up the sorted estimates from var_idx on. */
    static method TailSum(sortedQ: seq<real>, from: nat) returns (total: real, count: nat)
      requires from <= |sortedQ|
      ensures total == Sum(sortedQ[from..]) && count == |sortedQ| - from
    {
      total, count := 0.0, 0;
      var k := from;
      while k < |sortedQ|
        invariant from <= k <= |sortedQ|
        invariant total == Sum(sortedQ[from..k]) && count == k - from
      {
        assert sortedQ[from..k + 1][..k - from] == sortedQ[from..k];
        total := total + sortedQ[k];
        count := count + 1;
        k := k + 1;
      }
      assert sortedQ[from..k] == sortedQ[from..];
    }

    /** generate_quantile_samples: 32 sample points for the quantile
        network, strictly increasing inside (0, 1) by
        QuantileSamplesIncrease. */
    method GenerateQuantileSamples()
      modifies this
      ensures |quantileSamples| == NUM_QUANTILE_SAMPLES
      ensures forall i :: 0 <= i < NUM_QUANTILE_SAMPLES ==> quantileSamples[i] == QuantileSample(i)
    {
      quantileSamples := seq(NUM_QUANTILE_SAMPLES, _ => 0.0);
      var i := 0;
      while i < NUM_QUANTILE_SAMPLES
        invariant 0 <= i <= NUM_QUANTILE_SAMPLES
        invariant |quantileSamples| == NUM_QUANTILE_SAMPLES
        invariant forall j :: 0 <= j < i ==> quantileSamples[j] == QuantileSample(j)
      {
        var base := (i + 1) as real / (NUM_QUANTILE_SAMPLES + 1) as real;
        if i as real >= NUM_QUANTILE_SAMPLES as real * 0.8 {
          base := 0.9 + 0.1 * (i as real - NUM_QUANTILE_SAMPLES as real * 0.8) / (NUM_QUANTILE_SAMPLES as real * 0.2);
        }
        quantileSamples := quantileSamples[i := base];
        i := i + 1;
      }
    }

    /** name: "Malcolm-Strict", the name scheduler_type_name gives its
        kind. */
    function Name(): (r: string)
      ensures r == SchedulerTypeName(MalcolmStrict)
    {
      "Malcolm-Strict"
    }
  }
}
