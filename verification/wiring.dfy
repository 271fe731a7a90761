/**
 Properties of the wiring that hold in every state: what each route and
 callback does, which commands it emits, and what it leaves alone.
 */
module Wiring {
  import opened Types
  import opened AgentManager
  import opened CallQueue
  import opened Server

  /** Delivering SDK calls only forwards them: the state is untouched and one
      command goes out per call, in order. */
  lemma {:induction false} QuietOutputsOnlyForward(s: State, outs: seq<Output>, ids: Fresh)
    requires Quiet(outs)
    ensures React(s, outs, ids).state == s
    ensures |React(s, outs, ids).commands| == |outs|
    ensures forall k :: 0 <= k < |outs| ==> React(s, outs, ids).commands[k] == Sdk(outs[k].media)
    decreases |outs|
  {
    if |outs| > 0 {
      QuietOutputsOnlyForward(s, outs[1..], ids);
      assert React(s, outs, ids).commands == [Sdk(outs[0].media)] + React(s, outs[1..], ids).commands;
    }
  }

  /** Every incoming call produces exactly one command. With an agent
      available the call is handed to the first one and answered into that
      agent's conference; otherwise it joins the tail of the queue and is put
      on hold, and nothing else changes. */
  lemma IncomingCallIsAnsweredOrHeld(s: State, c: CallId, ids: Fresh)
    ensures Step(s, IncomingCall(c), ids).Success?
    ensures |Step(s, IncomingCall(c), ids).value.commands| == 1
    ensures var o := Step(s, IncomingCall(c), ids).value;
      GetAvailableAgent(s.registry).None? ==>
        && o.commands == [Hold(c)]
        && o.state == State(s.registry, Queue(s.queue.callQueue + [c], s.queue.activeCalls))
    ensures var o := Step(s, IncomingCall(c), ids).value;
      GetAvailableAgent(s.registry).Some? ==>
        var a := GetAvailableAgent(s.registry).value;
        && s.registry.agents[a].conferenceId.Some?
        && o.commands == [Answer(c, s.registry.agents[a].conferenceId.value, ids.callerParticipant)]
        && o.state.queue.callQueue == s.queue.callQueue
        && GetAssignedAgent(o.state.queue, c) == Some(a)
        && o.state.registry.agents[a].activeCallId == Some(c)
  {
  }

  /** The telephony gateway's call-ended notification has no subscriber:
      nothing changes and nothing is emitted. */
  lemma CallDisconnectedIsIgnored(s: State, c: CallId, ids: Fresh)
    ensures Step(s, CallDisconnected(c), ids) == Success(Outcome(s, []))
  {
  }

  /** Delivering registry outputs never removes a call from `activeCalls`. */
  lemma {:induction false} ReactKeepsActiveCalls(s: State, outs: seq<Output>, ids: Fresh)
    ensures s.queue.activeCalls.Keys <= React(s, outs, ids).state.queue.activeCalls.Keys
    decreases |outs|
  {
    if |outs| > 0 {
      var first := ReactOne(s, outs[0], ids);
      assert s.queue.activeCalls.Keys <= first.state.queue.activeCalls.Keys;
      ReactKeepsActiveCalls(first.state, outs[1..], ids);
    }
  }

  /** No event ever removes an entry from `activeCalls`: the only operation
      that does, `DisconnectCall`, is not reachable from any handler. */
  lemma ActiveCallsNeverShrink(s: State, e: Event, ids: Fresh)
    ensures s.queue.activeCalls.Keys <= Next(s, e, ids).queue.activeCalls.Keys
  {
    match e
    case SetStatus(token, online) =>
      if token.Some? && !online && TakeAgentOffline(s.registry, token.value).Success? {
        var t := TakeAgentOffline(s.registry, token.value).value;
        ReactKeepsActiveCalls(s.(registry := t.registry), t.outputs, ids);
      }
    case ParticipantJoined(conf, p) =>
      var t := OnParticipantJoined(s.registry, conf, p);
      ReactKeepsActiveCalls(s.(registry := t.registry), t.outputs, ids);
    case ParticipantLeft(conf, p) =>
      var t := OnParticipantLeft(s.registry, conf, p);
      ReactKeepsActiveCalls(s.(registry := t.registry), t.outputs, ids);
    case ParticipantPublished(conf, p, stream) =>
      var t := OnParticipantPublished(s.registry, conf, p, stream);
      ReactKeepsActiveCalls(s.(registry := t.registry), t.outputs, ids);
    case _ =>
  }

  /** `/login` registers the token as a new, disconnected agent and emits
      nothing. */
  lemma LoginRegistersAgent(s: State, token: AgentId, ids: Fresh)
    ensures Step(s, Login(token), ids).Success?
    ensures var o := Step(s, Login(token), ids).value;
      && o.commands == []
      && o.state.queue == s.queue
      && token in o.state.registry.agents
      && o.state.registry.agents[token] == NewAgent(token)
      && !Eligible(o.state.registry, token)
  {
  }

  /** `/setStatus` without a token changes nothing. Going online records the
      conference and participant the SDK created; an unknown agent fails
      with `AgentNotFound` and changes nothing. */
  lemma SetStatusOnline(s: State, token: Option<AgentId>, ids: Fresh)
    ensures token.None? ==> Step(s, SetStatus(token, true), ids) == Success(Outcome(s, []))
    ensures token.None? ==> Step(s, SetStatus(token, false), ids) == Success(Outcome(s, []))
    ensures token.Some? && token.value !in s.registry.agents ==>
      Step(s, SetStatus(token, true), ids) == Failure(AgentNotFound(token.value))
    ensures token.Some? && token.value in s.registry.agents ==>
      var o := Step(s, SetStatus(token, true), ids).value;
      var a := s.registry.agents[token.value];
      && Step(s, SetStatus(token, true), ids).Success?
      && o.commands == []
      && o.state.queue == s.queue
      && token.value in o.state.registry.agents
      && o.state.registry.agents[token.value] == a.(conferenceId := Some(ids.conference), participantId := Some(ids.agentParticipant))
      && ids.conference in o.state.registry.conferences
      && o.state.registry.conferences[ids.conference] == a.id
  {
  }

  /** Going offline clears the agent's record and ends its conference if it
      had one. A call in progress is dropped silently: no hold, answer,
      redirect or terminate is emitted and the queue is untouched. */
  lemma SetStatusOffline(s: State, id: AgentId, ids: Fresh)
    ensures id !in s.registry.agents ==> Step(s, SetStatus(Some(id), false), ids) == Failure(AgentNotFound(id))
    ensures id in s.registry.agents ==>
      var a := s.registry.agents[id];
      && Step(s, SetStatus(Some(id), false), ids).Success?
      && var o := Step(s, SetStatus(Some(id), false), ids).value;
         && o.state.queue == s.queue
         && id in o.state.registry.agents
         && o.state.registry.agents[id] == Agent(a.id, None, None, None, None, a.callParticipants)
         && (a.conferenceId.Some? ==> o.commands == [Sdk(EndConference(a.conferenceId.value))])
         && (a.conferenceId.None? ==> o.commands == [])
  {
    if id in s.registry.agents {
      var t := TakeAgentOffline(s.registry, id).value;
      QuietOutputsOnlyForward(s.(registry := t.registry), t.outputs, ids);
    }
  }

  /** `/hangup` asks the gateway to terminate the agent's active call when it
      has one and otherwise does nothing; state is never changed. */
  lemma HangupTerminatesActiveCall(s: State, id: AgentId, ids: Fresh)
    ensures id !in s.registry.agents ==> Step(s, Hangup(id), ids) == Failure(AgentNotFound(id))
    ensures id in s.registry.agents && s.registry.agents[id].activeCallId.Some? ==>
      Step(s, Hangup(id), ids) == Success(Outcome(s, [Terminate(s.registry.agents[id].activeCallId.value)]))
    ensures id in s.registry.agents && s.registry.agents[id].activeCallId.None? ==>
      Step(s, Hangup(id), ids) == Success(Outcome(s, []))
  {
  }

  /** The only error a handler ever raises is `AgentNotFound` for the agent
      id it was given; `AgentOffline` is never produced. */
  lemma OnlyAgentNotFoundIsRaised(s: State, e: Event, ids: Fresh)
    ensures Step(s, e, ids).Failure? ==>
      && Step(s, e, ids).error.AgentNotFound?
      && (e.SetStatus? ==> Some(Step(s, e, ids).error.id) == e.statusToken)
      && (e.Hangup? ==> Step(s, e, ids).error.id == e.agentToken)
      && (e.SetStatus? || e.Hangup?)
  {
  }

  /** One `AgentAvailable` delivery takes at most one call off the queue,
      always the head, and hands it to the first available agent, whoever
      that is. A redirect goes out exactly when a call was taken and the
      agent the signal names has a conference, and it targets that agent's
      conference, not necessarily the one of the agent the call went to. */
  lemma AvailableSignalTakesAtMostOne(s: State, a: AgentId, ids: Fresh)
    ensures var o := OnAgentAvailable(s, a, ids);
      || (o.state == s && o.commands == [])
      || (&& |s.queue.callQueue| > 0
          && GetAvailableAgent(s.registry).Some?
          && var picked := GetAvailableAgent(s.registry).value;
             && o.state.queue.callQueue == s.queue.callQueue[1..]
             && o.state.queue.activeCalls == s.queue.activeCalls[s.queue.callQueue[0] := picked]
             && picked in o.state.registry.agents
             && o.state.registry.agents[picked].activeCallId == Some(s.queue.callQueue[0]))
    ensures var o := OnAgentAvailable(s, a, ids);
      var taken := |s.queue.callQueue| > 0 && GetAvailableAgent(s.registry).Some?;
      && (o.commands != [] <==> taken && ConferenceOf(s.registry, a).Some?)
      && (o.commands != [] ==>
            o.commands == [Redirect(s.queue.callQueue[0], ConferenceOf(s.registry, a).value, ids.callerParticipant)])
  {
  }
}
