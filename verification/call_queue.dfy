/**
 The call queue: the FIFO of callers waiting for an agent and the table of
 calls handed to an agent. It decides, for each incoming call, whether it is
 answered now or put on hold, and hands waiting calls out as agents free up.
 */
module CallQueue {
  import opened Types
  import AgentManager

  /** `activeCalls` records every call ever handed to an agent; an entry is
      removed only by `DisconnectCall`. */
  datatype Queue = Queue(callQueue: seq<CallId>, activeCalls: map<CallId, AgentId>)

  const EmptyQueue := Queue([], map[])

  /** Which of the two registered callbacks a routing decision invokes. */
  datatype Decision = ShouldAnswer(call: CallId, agent: AgentId) | ShouldHold(call: CallId)

  datatype Routed = Routed(queue: Queue, registry: AgentManager.Registry, decision: Decision)

  datatype Dispatched = Dispatched(queue: Queue, registry: AgentManager.Registry, next: Option<CallId>)

  /** The effect of `DisconnectCall`. `failure` is set when the owning agent
      is no longer registered: the table entry is already gone by then. */
  datatype Disconnected = Disconnected(
    queue: Queue,
    registry: AgentManager.Registry,
    outputs: seq<AgentManager.Output>,
    failure: Option<Error>)

  /** Routes a new call: to the first available agent if there is one
      (answer), otherwise to the tail of the queue (hold). */
  function ConnectOrQueueCall(q: Queue, r: AgentManager.Registry, c: CallId): (res: Routed)
    ensures AgentManager.GetAvailableAgent(r).Some? ==>
      var a := AgentManager.GetAvailableAgent(r).value;
      && res.decision == ShouldAnswer(c, a)
      && AgentManager.AssignCall(r, a, c) == Success(res.registry)
      && res.queue.callQueue == q.callQueue
      && res.queue.activeCalls == q.activeCalls[c := a]
      && res.registry.agents[a].activeCallId == Some(c)
      && AgentManager.GetAvailableAgent(res.registry) != Some(a)
    ensures AgentManager.GetAvailableAgent(r).None? ==>
      && res.decision == ShouldHold(c)
      && res.queue == Queue(q.callQueue + [c], q.activeCalls)
      && res.registry == r
  {
    match AgentManager.GetAvailableAgent(r)
    case Some(a) =>
      var r' := AgentManager.AssignCall(r, a, c).value;
      Routed(Queue(q.callQueue, q.activeCalls[c := a]), r', ShouldAnswer(c, a))
    case None =>
      Routed(Queue(q.callQueue + [c], q.activeCalls), r, ShouldHold(c))
  }

  /** Ends the bookkeeping for a call handed to an agent: the table entry is
      dropped and the agent is released from the call. A call that is not in
      the table (queued, or already disconnected) is left alone. */
  function DisconnectCall(q: Queue, r: AgentManager.Registry, c: CallId): (res: Disconnected)
    ensures c !in q.activeCalls ==> res == Disconnected(q, r, [], None)
    ensures c in q.activeCalls ==>
      && res.queue == Queue(q.callQueue, q.activeCalls - {c})
      && match AgentManager.UnassignCall(r, q.activeCalls[c], c)
         case Failure(e) => res.registry == r && res.outputs == [] && res.failure == Some(e)
         case Success(t) => res.registry == t.registry && res.outputs == t.outputs && res.failure.None?
  {
    if c in q.activeCalls then
      var agent := q.activeCalls[c];
      var q' := Queue(q.callQueue, q.activeCalls - {c});
      match AgentManager.UnassignCall(r, agent, c)
      case Failure(e) => Disconnected(q', r, [], Some(e))
      case Success(t) => Disconnected(q', t.registry, t.outputs, None)
    else Disconnected(q, r, [], None)
  }

  /** The agent a call was handed to, if any. */
  function GetAssignedAgent(q: Queue, c: CallId): (res: Option<AgentId>)
    ensures res.Some? <==> c in q.activeCalls
    ensures res.Some? ==> res.value == q.activeCalls[c]
  {
    if c in q.activeCalls then Some(q.activeCalls[c]) else None
  }

  /** Hands the longest-waiting call to the first available agent. With an
      empty queue or nobody available nothing changes and no call is
      returned. */
  function GetNextActiveCallId(q: Queue, r: AgentManager.Registry): (res: Dispatched)
    ensures |q.callQueue| == 0 ==> res == Dispatched(q, r, None)
    ensures AgentManager.GetAvailableAgent(r).None? ==> res == Dispatched(q, r, None)
    ensures |q.callQueue| > 0 && AgentManager.GetAvailableAgent(r).Some? ==>
      var a := AgentManager.GetAvailableAgent(r).value;
      && res.next == Some(q.callQueue[0])
      && res.queue.callQueue == q.callQueue[1..]
      && res.queue.activeCalls == q.activeCalls[q.callQueue[0] := a]
      && AgentManager.AssignCall(r, a, q.callQueue[0]) == Success(res.registry)
      && res.registry.agents[a].activeCallId == Some(q.callQueue[0])
  {
    if |q.callQueue| > 0 then
      match AgentManager.GetAvailableAgent(r)
      case Some(a) =>
        var c := q.callQueue[0];
        var r' := AgentManager.AssignCall(r, a, c).value;
        Dispatched(Queue(q.callQueue[1..], q.activeCalls[c := a]), r', Some(c))
      case None => Dispatched(q, r, None)
    else Dispatched(q, r, None)
  }

  /** `GetAssignedAgent` reports the agent a call was just answered by. */
  lemma AnsweredCallIsAssigned(q: Queue, r: AgentManager.Registry, c: CallId)
    ensures var res := ConnectOrQueueCall(q, r, c);
      res.decision.ShouldAnswer? ==> GetAssignedAgent(res.queue, c) == Some(res.decision.agent)
    ensures var res := ConnectOrQueueCall(q, r, c);
      res.decision.ShouldHold? ==> GetAssignedAgent(res.queue, c) == GetAssignedAgent(q, c)
  {
  }

  /** Disconnecting a call held by an agent releases that agent and announces
      it available. */
  lemma DisconnectReleasesAgent(q: Queue, r: AgentManager.Registry, c: CallId)
    requires c in q.activeCalls && q.activeCalls[c] in r.agents
    requires r.agents[q.activeCalls[c]].activeCallId == Some(c)
    ensures var res := DisconnectCall(q, r, c); var a := q.activeCalls[c];
      && GetAssignedAgent(res.queue, c).None?
      && res.failure.None?
      && a in res.registry.agents && res.registry.agents[a].activeCallId.None?
      && res.outputs == [AgentManager.Raise(AgentManager.AgentAvailable(a))]
  {
  }

  /** The queue is served first in, first out: two waiting calls with an agent
      free hand out the first and leave the second waiting. */
  lemma FifoExample(r: AgentManager.Registry, c1: CallId, c2: CallId)
    requires AgentManager.GetAvailableAgent(r).Some?
    ensures var res := GetNextActiveCallId(Queue([c1, c2], map[]), r);
      res.next == Some(c1) && res.queue.callQueue == [c2]
  {
  }
}
