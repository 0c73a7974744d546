/** src/scheduler/po2_scheduler.h: power-of-d choices. The scheduler draws
    `numChoices` worker indices at random and sends the request to the
    least loaded of them. The random draws and the two clock readings are
    parameters. */
module Po2Scheduler {
  import opened Wrappers
  import opened Types
  import opened Numerals

  /** Every candidate names a worker. */
  predicate Indices(workers: seq<WorkerState>, cands: seq<nat>)
  {
    forall k :: 0 <= k < |cands| ==> cands[k] < |workers|
  }

  /** Position `p` of `cands` is where the selection loop ends: among the
      first candidate and the healthy later ones, the first of least
      load_ema. */
  ghost predicate FirstBest(workers: seq<WorkerState>, cands: seq<nat>, p: nat)
    requires Indices(workers, cands)
  {
    p < |cands| && Eligible(workers, cands, p) &&
    (forall q :: 0 <= q < |cands| && Eligible(workers, cands, q) ==>
      workers[cands[p]].loadEma <= workers[cands[q]].loadEma) &&
    (forall q :: 0 <= q < p && Eligible(workers, cands, q) ==>
      workers[cands[q]].loadEma > workers[cands[p]].loadEma)
  }

  /** The first candidate always competes; later ones only when healthy. */
  predicate Eligible(workers: seq<WorkerState>, cands: seq<nat>, q: nat)
    requires Indices(workers, cands)
  {
    q < |cands| && (q == 0 || workers[cands[q]].isHealthy)
  }

  /** The selection is unambiguous. */
  lemma FirstBestUnique(workers: seq<WorkerState>, cands: seq<nat>, p1: nat, p2: nat)
    requires Indices(workers, cands)
    requires FirstBest(workers, cands, p1) && FirstBest(workers, cands, p2)
    ensures p1 == p2
  {
    assert workers[cands[p1]].loadEma == workers[cands[p2]].loadEma;
  }

  class Po2Scheduler {
    const numChoices: nat

    /** The default is two choices; at least one is needed, since the
        selection starts from candidates[0]. */
    constructor (numChoices: nat)
      requires numChoices >= 1
      ensures this.numChoices == numChoices
    {
      this.numChoices := numChoices;
    }

    /** The candidate loop: one draw per choice. A repeated draw is kept as
        well, because the list is still short of numChoices whenever the
        duplicate test runs, so the list is exactly the draws. */
    method Candidates(n: nat, draws: seq<nat>) returns (cands: seq<nat>)
      requires n >= 1 && |draws| >= numChoices
      requires forall i :: 0 <= i < numChoices ==> draws[i] < n
      ensures cands == draws[..numChoices]
    {
      cands := [];
      var i := 0;
      while i < numChoices
        invariant 0 <= i <= numChoices
        invariant cands == draws[..i]
      {
        var idx := draws[i];
        var duplicate := false;
        var j := 0;
        while j < |cands|
          invariant 0 <= j <= |cands|
          invariant !duplicate
          invariant forall k :: 0 <= k < j ==> cands[k] != idx
        {
          if cands[j] == idx {
            duplicate := true;
            break;
          }
          j := j + 1;
        }
        assert duplicate ==> idx in cands;
        if !duplicate || |cands| < numChoices {
          cands := cands + [idx];
        }
        assert draws[..i + 1] == draws[..i] + [draws[i]];
        i := i + 1;
      }
    }

    /** schedule: an empty worker list gives worker 0 with confidence 0.
        Otherwise the target is the first candidate of least load among the
        first and the healthy ones, and the confidence is one minus its
        load. */
    method Schedule(workers: seq<WorkerState>, draws: seq<nat>, start: Timestamp, finish: Timestamp)
      returns (d: ScheduleDecision)
      requires numChoices >= 1
      requires workers != [] ==> |draws| >= numChoices
      requires workers != [] ==> forall i :: 0 <= i < numChoices ==> draws[i] < |workers|
      ensures d.decisionTime == Elapsed(start, finish)
      ensures workers == [] ==> d == EmptyDecision(start, finish)
      ensures workers != [] ==>
        exists p: nat :: FirstBest(workers, draws[..numChoices], p) &&
          d.targetWorkerId == Truncate8(draws[p]) &&
          d.confidence == 1.0 - workers[draws[p]].loadEma
    {
      if workers == [] {
        return EmptyDecision(start, finish);
      }
      var cands := Candidates(|workers|, draws);
      var bestIdx := cands[0];
      var bestLoad := workers[cands[0]].loadEma;
      ghost var pos: nat := 0;
      var i := 1;
      while i < |cands|
        invariant 1 <= i <= |cands|
        invariant FirstBest(workers, cands[..i], pos)
        invariant bestIdx == cands[pos] && bestLoad == workers[bestIdx].loadEma
      {
        var idx := cands[i];
        var state := workers[idx];
        SelectStep(workers, cands, i, pos);
        if state.isHealthy && state.loadEma < bestLoad {
          bestLoad := state.loadEma;
          bestIdx := idx;
          pos := i;
        }
        i := i + 1;
      }
      assert cands[..i] == cands;
      d := ScheduleDecision(Truncate8(bestIdx), 1.0 - bestLoad, Elapsed(start, finish));
    }

    /** name: "Power-of-" followed by the number of choices in decimal. */
    function Name(): (r: string)
      reads this
      ensures |r| > 9 && r[..9] == "Power-of-" && r[9..] == NatToString(numChoices)
    {
      "Power-of-" + NatToString(numChoices)
    }
  }

  /** One step of the selection loop keeps FirstBest on the longer prefix:
      candidate i takes over exactly when it is healthy and strictly less
      loaded. */
  lemma SelectStep(workers: seq<WorkerState>, cands: seq<nat>, i: nat, pos: nat)
    requires Indices(workers, cands)
    requires 1 <= i < |cands| && FirstBest(workers, cands[..i], pos)
    ensures var next := if workers[cands[i]].isHealthy && workers[cands[i]].loadEma < workers[cands[pos]].loadEma then i else pos;
      FirstBest(workers, cands[..i + 1], next)
  {
    var pre, ext := cands[..i], cands[..i + 1];
    assert forall q :: 0 <= q < i ==> ext[q] == pre[q];
    assert forall q :: 0 <= q < i ==> (Eligible(workers, ext, q) <==> Eligible(workers, pre, q));
  }

  /** The number in the name reads back as the number of choices. */
  lemma NameReadsBack(s: Po2Scheduler)
    requires s.numChoices < U64_LIMIT
    ensures StoULL(s.Name()[9..]) == Ok(s.numChoices)
  {
    StoULLNatToString(s.numChoices);
  }

  /** With the default of two choices the name is the one scheduler_type_name
      gives the power-of-two kind. */
  lemma DefaultName(s: Po2Scheduler)
    requires s.numChoices == 2
    ensures s.Name() == SchedulerTypeName(PowerOf2)
  {
  }
}
