/** src/scheduler/malcolm_scheduler.h: the original Malcolm scheduler in
    the build without libtorch. The constructor then always selects the
    heuristic, which sends the request to the healthy worker whose extra
    unit of load raises the spread of loads the least. The clock readings
    and std::exp are parameters. */
module MalcolmScheduler {
  import opened Types
  import opened Samples
  import opened Selection

  /** The increase `(l + 1 - m)^2 - (l - m)^2` the heuristic computes for a
      worker of load `l` when the mean load is `m`; it is `2 (l - m) + 1`,
      so it grows with the load. */
  function Delta(l: real, m: real): (r: real)
    ensures r == 2.0 * (l - m) + 1.0
  {
    (l + 1.0 - m) * (l + 1.0 - m) - (l - m) * (l - m)
  }

  /** A smaller increase means a smaller load, and the other way round. */
  lemma DeltaOrder(a: real, b: real, m: real)
    ensures Delta(a, m) < Delta(b, m) <==> a < b
  {
  }

  function Loads(workers: seq<WorkerState>): (loads: seq<real>)
    ensures |loads| == |workers|
    ensures forall i :: 0 <= i < |workers| ==> loads[i] == workers[i].loadEma
  {
    seq(|workers|, i requires 0 <= i < |workers| => workers[i].loadEma)
  }

  /** `p` is the first healthy worker among the first `n` of least
      load_ema. */
  ghost predicate FirstLeastLoaded(workers: seq<WorkerState>, n: nat, p: nat)
    requires n <= |workers|
  {
    p < n && workers[p].isHealthy &&
    (forall q :: 0 <= q < n && workers[q].isHealthy ==> workers[p].loadEma <= workers[q].loadEma) &&
    (forall q :: 0 <= q < p && workers[q].isHealthy ==> workers[q].loadEma > workers[p].loadEma)
  }

  /** No healthy worker among the first `n` beats the DBL_MAX sentinel. */
  ghost predicate NoneBelowSentinel(workers: seq<WorkerState>, n: nat, mean: real)
    requires n <= |workers|
  {
    forall q :: 0 <= q < n && workers[q].isHealthy ==> Delta(workers[q].loadEma, mean) >= DBL_MAX
  }

  /** What the selection loop of schedule_heuristic returns over the first
      `n` workers: the first healthy worker of least load, truncated to
      uint8_t, or 0 when no healthy worker's increase is below DBL_MAX. */
  ghost predicate HeuristicChoice(workers: seq<WorkerState>, n: nat, mean: real, target: U8)
    requires n <= |workers|
  {
    (NoneBelowSentinel(workers, n, mean) && target == 0) ||
    (exists p: nat :: FirstLeastLoaded(workers, n, p) && Delta(workers[p].loadEma, mean) < DBL_MAX &&
      target == Truncate8(p))
  }

  /** Only one worker is first of least load. */
  lemma FirstLeastLoadedUnique(workers: seq<WorkerState>, n: nat, p1: nat, p2: nat)
    requires n <= |workers|
    requires FirstLeastLoaded(workers, n, p1) && FirstLeastLoaded(workers, n, p2)
    ensures p1 == p2
  {
    assert workers[p1].loadEma == workers[p2].loadEma;
  }

  /** With at least one healthy worker and loads far below DBL_MAX the
      heuristic picks a healthy worker. */
  lemma HealthyChosen(workers: seq<WorkerState>, mean: real, target: U8, h: nat)
    requires h < |workers| && workers[h].isHealthy
    requires Delta(workers[h].loadEma, mean) < DBL_MAX
    requires HeuristicChoice(workers, |workers|, mean, target)
    ensures exists p: nat :: p < |workers| && workers[p].isHealthy && target == Truncate8(p)
  {
  }

  class MalcolmScheduler {
    const useHeuristic: bool

    /** Without libtorch the model path and the flag are ignored and the
        heuristic is always used. */
    constructor (modelPath: string, useHeuristic: bool)
      ensures this.useHeuristic
    {
      this.useHeuristic := true;
    }

    /** schedule: worker 0 with confidence 0 for an empty list, otherwise
        the heuristic's choice and confidence. Without libtorch
        schedule_model also falls back to the heuristic. */
    method Schedule(workers: seq<WorkerState>, exp: real -> real, start: Timestamp, finish: Timestamp)
      returns (d: ScheduleDecision)
      ensures d.decisionTime == Elapsed(start, finish)
      ensures workers == [] ==> d == EmptyDecision(start, finish)
      ensures workers != [] ==>
        HeuristicChoice(workers, |workers|, Mean(Loads(workers)), d.targetWorkerId) &&
        d.confidence == exp(-Variance(Loads(workers)))
    {
      if workers == [] {
        return EmptyDecision(start, finish);
      }
      var target, confidence := ScheduleHeuristic(workers, exp);
      d := ScheduleDecision(target, confidence, Elapsed(start, finish));
    }

    /** schedule_heuristic: collects the loads, takes their mean, keeps the
        first healthy worker of strictly smallest increase, and reports
        exp(-variance) of the loads as its confidence. */
    method ScheduleHeuristic(workers: seq<WorkerState>, exp: real -> real)
      returns (target: U8, confidence: real)
      requires workers != []
      ensures HeuristicChoice(workers, |workers|, Mean(Loads(workers)), target)
      ensures confidence == exp(-Variance(Loads(workers)))
    {
      var loads := CollectLoads(workers);
      var mean := Sum(loads) / |loads| as real;
      target := LeastIncrease(workers, loads, mean);
      var squares := SquaredDeviationsOf(loads, mean);
      confidence := exp(-(squares / |loads| as real));
    }

    /** name: "Malcolm-Heuristic" whenever the heuristic is in use. */
    function Name(): (r: string)
      reads this
      ensures useHeuristic <==> r == "Malcolm-Heuristic"
    {
      if useHeuristic then "Malcolm-Heuristic" else "Malcolm-Model"
    }
  }

  /** The loop that copies every worker's load_ema into `loads`. */
  method CollectLoads(workers: seq<WorkerState>) returns (loads: seq<real>)
    ensures loads == Loads(workers)
  {
    loads := [];
    var k := 0;
    while k < |workers|
      invariant 0 <= k <= |workers|
      invariant |loads| == k
      invariant forall j :: 0 <= j < k ==> loads[j] == workers[j].loadEma
    {
      loads := loads + [workers[k].loadEma];
      k := k + 1;
    }
  }

  /** The selection loop: starting from worker 0 and the DBL_MAX sentinel,
      a healthy worker takes over when its increase is strictly smaller. */
  method LeastIncrease(workers: seq<WorkerState>, loads: seq<real>, mean: real) returns (target: U8)
    requires loads == Loads(workers)
    ensures HeuristicChoice(workers, |workers|, mean, target)
  {
    ghost var ok, increases := HealthFlags(workers), Increases(loads, mean);
    target := 0;
    var minIncrease := DBL_MAX;
    ghost var pos: int := -1;
    var i := 0;
    while i < |workers|
      invariant 0 <= i <= |workers|
      invariant Scanned(ok, increases, i, DBL_MAX, pos, minIncrease)
      invariant target == TargetOf(pos)
    {
      ScanStep(ok, increases, i, DBL_MAX, pos, minIncrease);
      if workers[i].isHealthy {
        var delta := Delta(loads[i], mean);
        if delta < minIncrease {
          minIncrease := delta;
          target := Truncate8(i);
          pos := i;
        }
      }
      i := i + 1;
    }
    ScanIsLeastLoaded(workers, mean, pos, minIncrease);
  }

  /** The loop that adds up the squared deviations from the mean. */
  method SquaredDeviationsOf(loads: seq<real>, mean: real) returns (total: real)
    ensures total == SquaredDeviations(loads, mean)
  {
    total := 0.0;
    var j := 0;
    while j < |loads|
      invariant 0 <= j <= |loads|
      invariant total == SquaredDeviations(loads[..j], mean)
    {
      assert loads[..j + 1][..j] == loads[..j];
      total := total + (loads[j] - mean) * (loads[j] - mean);
      j := j + 1;
    }
    assert loads[..j] == loads;
  }

  /** The increase of every load. */
  function Increases(loads: seq<real>, mean: real): (r: seq<real>)
    ensures |r| == |loads|
    ensures forall i :: 0 <= i < |loads| ==> r[i] == Delta(loads[i], mean)
  {
    seq(|loads|, i requires 0 <= i < |loads| => Delta(loads[i], mean))
  }

  /** Scanning the increases is scanning the loads: since the increase
      grows with the load, the first healthy worker of least increase is
      the first healthy worker of least load. */
  lemma ScanIsLeastLoaded(workers: seq<WorkerState>, mean: real, best: int, least: real)
    requires Scanned(HealthFlags(workers), Increases(Loads(workers), mean), |workers|, DBL_MAX, best, least)
    ensures HeuristicChoice(workers, |workers|, mean, TargetOf(best))
  {
    var ok, inc, n := HealthFlags(workers), Increases(Loads(workers), mean), |workers|;
    if best >= 0 {
      forall q | 0 <= q < n && workers[q].isHealthy
        ensures workers[best].loadEma <= workers[q].loadEma
      {
        assert ok[q] && inc[best] <= inc[q];
        DeltaOrder(workers[q].loadEma, workers[best].loadEma, mean);
      }
      forall q | 0 <= q < best && workers[q].isHealthy
        ensures workers[q].loadEma > workers[best].loadEma
      {
        assert ok[q] && inc[q] > inc[best];
        DeltaOrder(workers[best].loadEma, workers[q].loadEma, mean);
      }
      var p: nat := best;
      assert FirstLeastLoaded(workers, n, p) && Delta(workers[p].loadEma, mean) < DBL_MAX;
      assert TargetOf(best) == Truncate8(p);
    } else {
      assert NoneBelow(ok, inc, n, DBL_MAX);
      forall q | 0 <= q < n && workers[q].isHealthy
        ensures Delta(workers[q].loadEma, mean) >= DBL_MAX
      {
        assert ok[q] && inc[q] >= DBL_MAX;
      }
    }
  }

  /** A freshly built scheduler reports the heuristic's name. */
  method ConstructedName(modelPath: string, useHeuristic: bool) returns (name: string)
    ensures name == "Malcolm-Heuristic"
  {
    var s := new MalcolmScheduler(modelPath, useHeuristic);
    name := s.Name();
  }
}
