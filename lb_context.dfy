/** src/load_balancer/lb_context.cpp: the load balancer's bookkeeping.
    A client request is routed by the scheduler's decision, remembered in
    the pending map under its request id and counted in its worker's queue
    length; the worker's response removes it again, updates that worker's
    load and service-time estimates, records the request's metrics and
    tells the client whether the deadline was met. The clock readings and
    the scheduler's decision are parameters; the locks, threads and eRPC
    calls are not part of this model. */
module LbContext {
  import opened Types
  import opened Metrics
  import opened Wrappers

  /** A ClientRequest header; the payload is not modelled. */
  datatype ClientRequest = ClientRequest(
    requestId: Timestamp,
    clientSendTime: Timestamp,
    deadline: Timestamp,
    requestType: nat,
    payloadSize: U32)

  /** The WorkerRequest header handle_client_request sends. */
  datatype WorkerRequest = WorkerRequest(
    requestId: Timestamp,
    deadline: Timestamp,
    lbDispatchTime: Timestamp,
    requestType: nat,
    payloadSize: U32,
    sourceClientId: U8)

  /** A WorkerResponse header. */
  datatype WorkerResponse = WorkerResponse(
    requestId: Timestamp,
    workerRecvTime: Timestamp,
    workerDoneTime: Timestamp,
    responseSize: U32,
    workerId: U8,
    success: bool)

  /** The ClientResponse header handle_worker_response builds. */
  datatype ClientResponse = ClientResponse(
    requestId: Timestamp,
    clientSendTime: Timestamp,
    e2eCompleteTime: Timestamp,
    responseSize: U32,
    workerId: U8,
    deadlineMet: bool)

  /** LBContext::PendingRequest without the opaque client handle. */
  datatype PendingRequest = PendingRequest(
    requestId: Timestamp,
    sendTime: Timestamp,
    deadline: Timestamp,
    targetWorker: U8)

  /** The parts of LBConfig the context reads. */
  datatype LbConfig = LbConfig(
    listenUri: string,
    workerAddresses: seq<string>,
    algorithm: SchedulerType,
    modelPath: string,
    metricsOutputDir: string)

  /** The state of worker `i` after the constructor: id i as uint8_t, its
      address, healthy, capacity 1.0, no load, an empty slack histogram,
      and every other field value-initialised to zero. */
  function InitialWorker(i: nat, address: string): (w: WorkerState)
    ensures w.workerId == Truncate8(i) && w.address == address && w.isHealthy
    ensures w.capacityFactor == 1.0 && w.loadEma == 0.0 && w.queueLength == 0
    ensures forall b :: 0 <= b < SLACK_HISTOGRAM_BINS ==> w.slackHistogram[b] == 0
  {
    WorkerState(Truncate8(i), address, 0, 0, 0.0, seq(SLACK_HISTOGRAM_BINS, _ => 0), 0, 0, 0.0, 1.0, true, 0)
  }

  // ---------------------------------------------------------------
  // Worker-state transitions

  /** A request was routed to worker t: one more in its queue (uint32_t
      arithmetic), and the load estimate moves towards the new length. */
  function Dispatched(workers: seq<WorkerState>, t: nat): (r: seq<WorkerState>)
    requires t < |workers|
    ensures |r| == |workers|
    ensures forall i :: 0 <= i < |workers| && i != t ==> r[i] == workers[i]
    ensures workers[t].queueLength < TWO_32 - 1 ==> r[t].queueLength == workers[t].queueLength + 1
    ensures r[t].loadEma == LOAD_EMA_ALPHA * r[t].queueLength as real + (1.0 - LOAD_EMA_ALPHA) * workers[t].loadEma
  {
    var ws := workers[t];
    var q := Wrap32(ws.queueLength + 1);
    workers[t := UpdateLoadEma(ws.(queueLength := q), q as real, LOAD_EMA_ALPHA)]
  }

  /** `0.9 * avg + 0.1 * sample` cast back to uint64_t, which truncates the
      non-negative double. */
  function ServiceTimeEma(avg: Timestamp, sample: Timestamp): (r: Timestamp)
    ensures (if avg <= sample then avg else sample) <= r <= (if avg <= sample then sample else avg)
  {
    var x := 0.9 * avg as real + 0.1 * sample as real;
    assert x.Floor >= (if avg <= sample then avg else sample);
    x.Floor
  }

  /** A response from worker w: one fewer in its queue unless it is already
      0, the load estimate moves towards the new length, and the
      service-time estimate towards the measured service time. */
  function Completed(workers: seq<WorkerState>, w: nat, serviceTime: Timestamp): (r: seq<WorkerState>)
    requires w < |workers|
    ensures |r| == |workers|
    ensures forall i :: 0 <= i < |workers| && i != w ==> r[i] == workers[i]
    ensures r[w].queueLength == if workers[w].queueLength > 0 then workers[w].queueLength - 1 else 0
    ensures r[w].loadEma == LOAD_EMA_ALPHA * r[w].queueLength as real + (1.0 - LOAD_EMA_ALPHA) * workers[w].loadEma
    ensures r[w].avgServiceTime == ServiceTimeEma(workers[w].avgServiceTime, serviceTime)
  {
    var ws := workers[w];
    var q := if ws.queueLength > 0 then ws.queueLength - 1 else 0;
    var ws' := UpdateLoadEma(ws.(queueLength := q), q as real, LOAD_EMA_ALPHA);
    workers[w := ws'.(avgServiceTime := ServiceTimeEma(ws.avgServiceTime, serviceTime))]
  }

  /** One decay step of update_worker_states. */
  function Decayed(workers: seq<WorkerState>): (r: seq<WorkerState>)
    ensures |r| == |workers|
    ensures forall i :: 0 <= i < |workers| ==> r[i] == workers[i].(loadEma := workers[i].loadEma * 0.99)
  {
    seq(|workers|, i requires 0 <= i < |workers| => workers[i].(loadEma := workers[i].loadEma * 0.99))
  }

  /** The trace handle_worker_response records: the client's send, the LB's
      receive and its dispatch are all approximated by the time the LB
      received the request, and the client's receive by the LB's
      response. */
  function TraceOf(p: PendingRequest, r: WorkerResponse, completeTime: Timestamp): (t: RequestTrace)
    ensures t.E2eLatency() == Elapsed(p.sendTime, completeTime)
    ensures t.LbOverhead() == 0
    ensures t.targetWorkerId == r.workerId && t.deadline == p.deadline
  {
    RequestTrace(r.requestId, p.deadline, p.sendTime, p.sendTime, p.sendTime,
      r.workerRecvTime, r.workerDoneTime, completeTime, completeTime, r.workerId)
  }

  // ---------------------------------------------------------------
  // The queue-length invariant

  /** The pending requests routed to worker w. */
  ghost function RoutedTo(pending: map<Timestamp, PendingRequest>, w: nat): set<Timestamp>
  {
    set id | id in pending && pending[id].targetWorker == w
  }

  /** Every worker's queue_length counts the pending requests routed to it. */
  ghost predicate QueuesMatch(workers: seq<WorkerState>, pending: map<Timestamp, PendingRequest>)
  {
    forall w :: 0 <= w < |workers| ==> workers[w].queueLength == |RoutedTo(pending, w)|
  }

  /** A request with a new id routed to worker t keeps the queue lengths
      counting the pending requests, as long as the count does not wrap. */
  lemma DispatchKeepsQueuesMatch(workers: seq<WorkerState>, pending: map<Timestamp, PendingRequest>,
                                 p: PendingRequest)
    requires QueuesMatch(workers, pending)
    requires p.requestId !in pending && p.targetWorker < |workers|
    requires workers[p.targetWorker].queueLength < TWO_32 - 1
    ensures QueuesMatch(Dispatched(workers, p.targetWorker), pending[p.requestId := p])
  {
    var after := Dispatched(workers, p.targetWorker);
    var pending' := pending[p.requestId := p];
    forall w | 0 <= w < |workers|
      ensures after[w].queueLength == |RoutedTo(pending', w)|
    {
      RoutedToAdd(pending, p, w);
    }
  }

  /** A new pending request adds one id to the set of its worker only. */
  lemma RoutedToAdd(pending: map<Timestamp, PendingRequest>, p: PendingRequest, w: nat)
    requires p.requestId !in pending
    ensures w == p.targetWorker ==> |RoutedTo(pending[p.requestId := p], w)| == |RoutedTo(pending, w)| + 1
    ensures w != p.targetWorker ==> RoutedTo(pending[p.requestId := p], w) == RoutedTo(pending, w)
  {
    var pending' := pending[p.requestId := p];
    if w == p.targetWorker {
      assert RoutedTo(pending', w) == RoutedTo(pending, w) + {p.requestId};
    } else {
      assert RoutedTo(pending', w) == RoutedTo(pending, w);
    }
  }

  /** The response to a pending request, from the worker it was routed to,
      keeps the queue lengths counting the pending requests. */
  lemma CompletionKeepsQueuesMatch(workers: seq<WorkerState>, pending: map<Timestamp, PendingRequest>,
                                   id: Timestamp, serviceTime: Timestamp)
    requires QueuesMatch(workers, pending)
    requires id in pending && pending[id].targetWorker < |workers|
    ensures QueuesMatch(Completed(workers, pending[id].targetWorker, serviceTime), pending - {id})
  {
    var t := pending[id].targetWorker;
    var after := Completed(workers, t, serviceTime);
    var pending' := pending - {id};
    forall w | 0 <= w < |workers|
      ensures after[w].queueLength == |RoutedTo(pending', w)|
    {
      if w == t {
        assert RoutedTo(pending', w) == RoutedTo(pending, w) - {id};
        assert id in RoutedTo(pending, w);
      } else {
        assert RoutedTo(pending', w) == RoutedTo(pending, w);
      }
    }
  }

  /** Routing a request to a worker and taking its response back from the
      same worker restores the queue length. */
  lemma DispatchThenCompleteRestoresQueue(workers: seq<WorkerState>, t: nat, serviceTime: Timestamp)
    requires t < |workers| && workers[t].queueLength < TWO_32 - 1
    ensures var r := Completed(Dispatched(workers, t), t, serviceTime);
      |r| == |workers| && r[t].queueLength == workers[t].queueLength &&
      forall i :: 0 <= i < |workers| && i != t ==> r[i] == workers[i]
  {
  }

  /** Decay leaves everything but the load estimates alone and shrinks
      every load towards zero. */
  lemma DecayShrinksLoads(workers: seq<WorkerState>)
    ensures forall i :: 0 <= i < |workers| ==>
      Decayed(workers)[i].queueLength == workers[i].queueLength &&
      Decayed(workers)[i].isHealthy == workers[i].isHealthy &&
      (workers[i].loadEma >= 0.0 ==> 0.0 <= Decayed(workers)[i].loadEma <= workers[i].loadEma)
  {
  }

  /** The deadline_met flag of the response to the client. */
  function DeadlineMet(p: PendingRequest, completeTime: Timestamp): (met: bool)
    ensures met <==> completeTime <= p.deadline
  {
    completeTime <= p.deadline
  }

  class LBContext {
    const config: LbConfig
    var workerStates: seq<WorkerState>
    var pending: map<Timestamp, PendingRequest>
    var schedulingLatency: multiset<int>
    const metrics: MetricsCollector

    ghost predicate Valid()
      reads this, metrics
    {
      metrics.Valid()
    }

    /** One WorkerState per configured address, in order. The scheduler it
        creates is the one config.algorithm names. */
    constructor (config: LbConfig)
      ensures Valid() && fresh(metrics)
      ensures this.config == config
      ensures |workerStates| == |config.workerAddresses|
      ensures forall i :: 0 <= i < |workerStates| ==> workerStates[i] == InitialWorker(i, config.workerAddresses[i])
      ensures pending == map[] && schedulingLatency == multiset{}
    {
      this.config := config;
      var states: seq<WorkerState> := [];
      var i := 0;
      while i < |config.workerAddresses|
        invariant 0 <= i <= |config.workerAddresses|
        invariant |states| == i
        invariant forall j :: 0 <= j < i ==> states[j] == InitialWorker(j, config.workerAddresses[j])
      {
        states := states + [InitialWorker(i, config.workerAddresses[i])];
        i := i + 1;
      }
      workerStates := states;
      pending := map[];
      schedulingLatency := multiset{};
      metrics := new MetricsCollector();
    }

    /** handle_client_request: records the scheduler's decision time,
        remembers the request under its id (replacing any entry with the
        same id), counts it in the chosen worker's queue and returns the
        header sent to that worker. `recvTime` and `dispatchTime` are the
        two clock readings. */
    method HandleClientRequest(request: ClientRequest, decision: ScheduleDecision,
                               recvTime: Timestamp, dispatchTime: Timestamp)
      returns (wreq: WorkerRequest)
      requires decision.targetWorkerId < |workerStates|
      modifies this
      ensures schedulingLatency == old(schedulingLatency) + multiset{ToSigned64(decision.decisionTime) as int}
      ensures pending == old(pending)[request.requestId :=
        PendingRequest(request.requestId, recvTime, request.deadline, decision.targetWorkerId)]
      ensures workerStates == Dispatched(old(workerStates), decision.targetWorkerId)
      ensures wreq == WorkerRequest(request.requestId, request.deadline, dispatchTime,
        request.requestType, request.payloadSize, 0)
    {
      schedulingLatency := schedulingLatency + multiset{ToSigned64(decision.decisionTime) as int};
      wreq := WorkerRequest(request.requestId, request.deadline, dispatchTime,
        request.requestType, request.payloadSize, 0);
      pending := pending[request.requestId :=
        PendingRequest(request.requestId, recvTime, request.deadline, decision.targetWorkerId)];
      var t := decision.targetWorkerId;
      var ws := workerStates[t];
      ws := ws.(queueLength := Wrap32(ws.queueLength + 1));
      ws := UpdateLoadEma(ws, ws.queueLength as real, LOAD_EMA_ALPHA);
      workerStates := workerStates[t := ws];
    }

    /** handle_worker_response: a response for an unknown request id
        changes nothing and answers no client. Otherwise the entry leaves
        the pending map, the responding worker's state is updated, the
        request's trace is recorded, and the client is told whether its
        deadline was met. */
    method HandleWorkerResponse(response: WorkerResponse, completeTime: Timestamp)
      returns (cresp: Option<ClientResponse>)
      requires Valid()
      requires response.requestId in pending ==> response.workerId < |workerStates|
      modifies this, metrics
      ensures Valid()
      ensures response.requestId !in old(pending) ==>
        cresp.None? && pending == old(pending) && workerStates == old(workerStates) &&
        unchanged(metrics)
      ensures response.requestId in old(pending) ==>
        var p := old(pending)[response.requestId];
        pending == old(pending) - {response.requestId} &&
        workerStates == Completed(old(workerStates), response.workerId,
          Elapsed(response.workerRecvTime, response.workerDoneTime)) &&
        cresp == Some(ClientResponse(response.requestId, p.sendTime, completeTime, response.responseSize,
          response.workerId, DeadlineMet(p, completeTime)))
      ensures response.requestId in old(pending) ==>
        var t := TraceOf(old(pending)[response.requestId], response, completeTime);
        metrics.e2eLatency == old(metrics.e2eLatency) + multiset{ToSigned64(t.E2eLatency())} &&
        metrics.lbOverhead == old(metrics.lbOverhead) + multiset{ToSigned64(t.LbOverhead())} &&
        metrics.totalRequests == old(metrics.totalRequests) + 1 &&
        metrics.deadlineMisses == old(metrics.deadlineMisses) + (if t.IsDeadlineMiss() then 1 else 0) &&
        (t.targetWorkerId < METRICS_MAX_WORKERS ==>
          metrics.perWorkerLatency == old(metrics.perWorkerLatency)[t.targetWorkerId :=
            old(metrics.perWorkerLatency[t.targetWorkerId]) + multiset{ToSigned64(t.E2eLatency())}]) &&
        (t.targetWorkerId >= METRICS_MAX_WORKERS ==> metrics.perWorkerLatency == old(metrics.perWorkerLatency))
      ensures schedulingLatency == old(schedulingLatency)
    {
      if response.requestId !in pending {
        return None;
      }
      var p := pending[response.requestId];
      pending := pending - {response.requestId};
      var w := response.workerId;
      var ws := workerStates[w];
      var q := ws.queueLength;
      if q > 0 {
        q := q - 1;
      }
      ws := UpdateLoadEma(ws.(queueLength := q), q as real, LOAD_EMA_ALPHA);
      var serviceTime := Elapsed(response.workerRecvTime, response.workerDoneTime);
      ws := ws.(avgServiceTime := ServiceTimeEma(workerStates[w].avgServiceTime, serviceTime));
      workerStates := workerStates[w := ws];
      var trace := TraceOf(p, response, completeTime);
      metrics.RecordRequest(trace);
      cresp := Some(ClientResponse(response.requestId, p.sendTime, completeTime, response.responseSize,
        response.workerId, completeTime <= p.deadline));
    }

    /** update_worker_states: every load estimate decays by 1%; the
        heartbeat check marks nobody unhealthy. */
    method UpdateWorkerStates()
      modifies this
      ensures workerStates == Decayed(old(workerStates))
      ensures pending == old(pending) && schedulingLatency == old(schedulingLatency)
    {
      var i := 0;
      while i < |workerStates|
        invariant 0 <= i <= |workerStates| == |old(workerStates)|
        invariant forall j :: 0 <= j < i ==> workerStates[j] == Decayed(old(workerStates))[j]
        invariant forall j :: i <= j < |workerStates| ==> workerStates[j] == old(workerStates)[j]
        invariant pending == old(pending) && schedulingLatency == old(schedulingLatency)
      {
        var ws := workerStates[i];
        workerStates := workerStates[i := ws.(loadEma := ws.loadEma * 0.99)];
        i := i + 1;
      }
    }
  }
}
