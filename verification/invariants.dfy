/**
 The routing invariant and its preservation by every event the service
 handles. The invariant speaks about each agent's `activeCallId` rather than
 about `activeCalls`, whose entries are never removed by the wiring.
 */
module Invariants {
  import opened Types
  import opened AgentManager
  import opened CallQueue
  import opened Server

  /** A published stream implies an agent participant, which implies a
      conference: the three are set up in that order and torn down together. */
  ghost predicate Layered(a: Agent)
  {
    && (a.streamId.Some? ==> a.participantId.Some?)
    && (a.participantId.Some? ==> a.conferenceId.Some?)
  }

  ghost predicate RegistryInv(r: Registry)
  {
    WellFormed(r) && forall id :: id in r.agents ==> Layered(r.agents[id])
  }

  /** Waiting calls are distinct and have never been handed out; the call an
      agent is handling is recorded in `activeCalls` against that agent. */
  ghost predicate CallsInv(q: Queue, r: Registry)
  {
    && Distinct(q.callQueue)
    && (forall i :: 0 <= i < |q.callQueue| ==> q.callQueue[i] !in q.activeCalls)
    && (forall id :: id in r.agents && r.agents[id].activeCallId.Some? ==>
          && r.agents[id].activeCallId.value in q.activeCalls
          && q.activeCalls[r.agents[id].activeCallId.value] == id)
  }

  ghost predicate OnlyCandidate(r: Registry, a: AgentId)
  {
    forall id :: id in r.agents && id != a ==> !IsAvailable(r.agents[id])
  }

  /** The routing invariant: besides the two above, a caller waits only
      while no agent is available. */
  ghost predicate Inv(s: State)
  {
    && RegistryInv(s.registry)
    && CallsInv(s.queue, s.registry)
    && (|s.queue.callQueue| > 0 ==> NobodyAvailable(s.registry))
  }

  /** The invariant as it stands inside a media handler, before its
      `AgentAvailable` signal for agent `a` is delivered: `a` may have become
      available while callers wait, but nobody else. */
  ghost predicate Settling(s: State, a: AgentId)
  {
    && RegistryInv(s.registry)
    && CallsInv(s.queue, s.registry)
    && (|s.queue.callQueue| > 0 ==> OnlyCandidate(s.registry, a))
  }

  /** Every `AgentAvailable` among `outs` names `a`. */
  ghost predicate SignalsOnly(outs: seq<Output>, a: AgentId)
  {
    forall k :: 0 <= k < |outs| && outs[k].Raise? && outs[k].signal.AgentAvailable? ==> outs[k].signal.agent == a
  }

  lemma InvIsSettling(s: State, a: AgentId)
    requires Inv(s)
    ensures Settling(s, a)
  {
  }

  lemma InitialSatisfiesInv()
    ensures Inv(Initial)
  {
  }

  /** A change confined to one agent's record keeps the registry invariant
      when that record keeps its id and stays layered. */
  lemma OneRecordKeepsRegistryInv(r: Registry, r': Registry, id: AgentId)
    requires RegistryInv(r) && id in r.agents
    requires OnlyAgentChanged(r, r', id)
    requires r'.agents[id].id == r.agents[id].id && Layered(r'.agents[id])
    ensures RegistryInv(r')
  {
  }

  /** A change confined to one agent's record that keeps or clears its active
      call keeps the call invariant. */
  lemma OneRecordKeepsCallsInv(q: Queue, r: Registry, r': Registry, id: AgentId)
    requires CallsInv(q, r) && id in r.agents
    requires OnlyAgentChanged(r, r', id)
    requires r'.agents[id].activeCallId.None? || r'.agents[id].activeCallId == r.agents[id].activeCallId
    ensures CallsInv(q, r')
  {
  }

  /** With the invariant in force, the first available agent the queue picks
      is the only candidate. */
  lemma OnlyCandidateIsPicked(r: Registry, a: AgentId)
    requires WellFormed(r) && OnlyCandidate(r, a)
    requires GetAvailableAgent(r).Some?
    ensures GetAvailableAgent(r) == Some(a)
  {
  }

  /** Delivering `AgentAvailable(a)` while settling restores the invariant.
      At most the head of the queue is handed out; when it is, it goes to `a`
      and is redirected into `a`'s own conference. Otherwise nothing changes. */
  lemma DispatchSettles(s: State, a: AgentId, ids: Fresh)
    requires Settling(s, a)
    ensures Inv(OnAgentAvailable(s, a, ids).state)
    ensures var o := OnAgentAvailable(s, a, ids);
      o.state.queue.callQueue == s.queue.callQueue ==> o.state == s && o.commands == []
    ensures var o := OnAgentAvailable(s, a, ids);
      o.state.queue.callQueue != s.queue.callQueue ==>
        && |s.queue.callQueue| > 0
        && o.state.queue.callQueue == s.queue.callQueue[1..]
        && s.queue.callQueue[0] in o.state.queue.activeCalls
        && o.state.queue.activeCalls[s.queue.callQueue[0]] == a
        && a in o.state.registry.agents
        && o.state.registry.agents[a].activeCallId == Some(s.queue.callQueue[0])
        && o.state.registry.agents[a].conferenceId.Some?
        && o.commands == [Redirect(s.queue.callQueue[0], o.state.registry.agents[a].conferenceId.value, ids.callerParticipant)]
  {
    var q, r := s.queue, s.registry;
    var d := GetNextActiveCallId(q, r);
    AvailableAgentIffSomeoneAvailable(r);
    if |q.callQueue| > 0 && GetAvailableAgent(r).Some? {
      OnlyCandidateIsPicked(r, a);
      var c := q.callQueue[0];
      var r' := d.registry;
      assert r'.agents[a] == r.agents[a].(activeCallId := Some(c));
      OneRecordKeepsRegistryInv(r, r', a);
      forall id | id in r'.agents && r'.agents[id].activeCallId.Some?
        ensures r'.agents[id].activeCallId.value in d.queue.activeCalls
        ensures d.queue.activeCalls[r'.agents[id].activeCallId.value] == id
      {
        if id != a {
          assert r'.agents[id] == r.agents[id];
          assert r.agents[id].activeCallId.value != c;
        }
      }
      forall i | 0 <= i < |d.queue.callQueue|
        ensures d.queue.callQueue[i] !in d.queue.activeCalls
      {
        assert d.queue.callQueue[i] == q.callQueue[i + 1];
      }
      assert CallsInv(d.queue, r');
      assert NobodyAvailable(r');
    }
  }

  /** Once the invariant holds, further `AgentAvailable` signals find nobody
      to serve a waiting caller: delivering any registry outputs changes
      nothing and only forwards SDK calls. */
  lemma {:induction false} SettledReactIsQuiet(s: State, outs: seq<Output>, ids: Fresh)
    requires Inv(s)
    ensures React(s, outs, ids).state == s
    ensures forall k :: 0 <= k < |React(s, outs, ids).commands| ==> React(s, outs, ids).commands[k].Sdk?
    decreases |outs|
  {
    if |outs| > 0 {
      var first := ReactOne(s, outs[0], ids);
      if outs[0].Raise? && outs[0].signal.AgentAvailable? {
        AvailableAgentIffSomeoneAvailable(s.registry);
        assert first == Outcome(s, []);
      }
      SettledReactIsQuiet(first.state, outs[1..], ids);
    }
  }

  /** Delivering a media handler's outputs, whose `AgentAvailable` signals all
      name the handler's agent `a`, restores the invariant. At most one
      waiting call is handed out; when one is, it is the head of the queue, it
      goes to `a`, and it is redirected into `a`'s conference. Nothing but
      redirects and SDK calls is emitted. */
  lemma {:induction false} ReactSettles(s: State, outs: seq<Output>, a: AgentId, ids: Fresh)
    requires Settling(s, a)
    requires SignalsOnly(outs, a)
    requires Raise(AgentAvailable(a)) !in outs ==> Inv(s)
    ensures Inv(React(s, outs, ids).state)
    ensures forall k :: 0 <= k < |React(s, outs, ids).commands| ==>
      React(s, outs, ids).commands[k].Sdk? || React(s, outs, ids).commands[k].Redirect?
    ensures var o := React(s, outs, ids);
      || o.state == s
      || (&& |s.queue.callQueue| > 0
          && o.state.queue.callQueue == s.queue.callQueue[1..]
          && s.queue.callQueue[0] in o.state.queue.activeCalls
          && o.state.queue.activeCalls[s.queue.callQueue[0]] == a
          && a in o.state.registry.agents
          && o.state.registry.agents[a].activeCallId == Some(s.queue.callQueue[0])
          && o.state.registry.agents[a].conferenceId.Some?
          && Redirect(s.queue.callQueue[0], o.state.registry.agents[a].conferenceId.value, ids.callerParticipant) in o.commands)
    decreases |outs|
  {
    if |outs| == 0 {
      return;
    }
    var first := ReactOne(s, outs[0], ids);
    var rest := React(first.state, outs[1..], ids);
    if outs[0] == Raise(AgentAvailable(a)) {
      DispatchSettles(s, a, ids);
      SettledReactIsQuiet(first.state, outs[1..], ids);
      assert React(s, outs, ids).commands == first.commands + rest.commands;
    } else {
      assert first.state == s;
      assert first.commands == [] || first.commands[0].Sdk?;
      forall k | 0 <= k < |outs[1..]| && outs[1..][k].Raise? && outs[1..][k].signal.AgentAvailable?
        ensures outs[1..][k].signal.agent == a
      {
        assert outs[1..][k] == outs[k + 1];
      }
      assert Raise(AgentAvailable(a)) !in outs[1..] ==> Raise(AgentAvailable(a)) !in outs by {
        assert outs == [outs[0]] + outs[1..];
      }
      ReactSettles(s, outs[1..], a, ids);
      assert React(s, outs, ids).commands == first.commands + rest.commands;
    }
  }

  /** The participant-joined handler only records a caller leg: the invariant
      survives untouched. */
  lemma JoinedKeepsInv(s: State, conf: ConferenceId, p: ParticipantId)
    requires Inv(s)
    ensures Inv(s.(registry := OnParticipantJoined(s.registry, conf, p).registry))
    ensures Quiet(OnParticipantJoined(s.registry, conf, p).outputs)
  {
    var t := OnParticipantJoined(s.registry, conf, p);
    if Owner(s.registry, conf).Some? {
      var id := Owner(s.registry, conf).value;
      OneRecordKeepsRegistryInv(s.registry, t.registry, id);
      OneRecordKeepsCallsInv(s.queue, s.registry, t.registry, id);
    }
  }

  /** After the participant-left handler only the conference owner can have
      become available, and only the owner is announced. */
  lemma LeftSettles(s: State, conf: ConferenceId, p: ParticipantId)
    requires Inv(s) && Owner(s.registry, conf).Some?
    ensures var t := OnParticipantLeft(s.registry, conf, p);
      var a := Owner(s.registry, conf).value;
      var s1 := s.(registry := t.registry);
      && Settling(s1, a)
      && SignalsOnly(t.outputs, a)
      && (Raise(AgentAvailable(a)) !in t.outputs ==> Inv(s1))
  {
    var t := OnParticipantLeft(s.registry, conf, p);
    var a := Owner(s.registry, conf).value;
    OneRecordKeepsRegistryInv(s.registry, t.registry, a);
    OneRecordKeepsCallsInv(s.queue, s.registry, t.registry, a);
  }

  /** After the participant-published handler only the conference owner can
      have become available, and only the owner is announced. */
  lemma PublishedSettles(s: State, conf: ConferenceId, p: ParticipantId, stream: StreamId)
    requires Inv(s) && Owner(s.registry, conf).Some?
    ensures var t := OnParticipantPublished(s.registry, conf, p, stream);
      var a := Owner(s.registry, conf).value;
      var s1 := s.(registry := t.registry);
      && Settling(s1, a)
      && SignalsOnly(t.outputs, a)
      && (Raise(AgentAvailable(a)) !in t.outputs ==> Inv(s1))
  {
    var t := OnParticipantPublished(s.registry, conf, p, stream);
    var a := Owner(s.registry, conf).value;
    OneRecordKeepsRegistryInv(s.registry, t.registry, a);
    OneRecordKeepsCallsInv(s.queue, s.registry, t.registry, a);
  }

  /** Quiet outputs from an invariant state change nothing. */
  lemma QuietReactKeepsInv(s: State, outs: seq<Output>, ids: Fresh)
    requires Inv(s)
    ensures Inv(React(s, outs, ids).state)
  {
    SettledReactIsQuiet(s, outs, ids);
  }

  /** Registering an agent adds an offline record, which disturbs nothing. */
  lemma LoginKeepsInv(s: State, token: AgentId)
    requires Inv(s)
    ensures Inv(s.(registry := AddAgent(s.registry, token)))
  {
    var r' := AddAgent(s.registry, token);
    assert forall id :: id in r'.agents && id != token ==> r'.agents[id] == s.registry.agents[id];
  }

  /** Bringing an agent online cannot make it available: either it already
      had a stream, hence a conference and participant, or it still has none. */
  lemma OnlineKeepsInv(s: State, id: AgentId, conf: ConferenceId, part: ParticipantId)
    requires Inv(s)
    requires BringAgentOnline(s.registry, id, conf, part).Success?
    ensures Inv(s.(registry := BringAgentOnline(s.registry, id, conf, part).value))
  {
    var r' := BringAgentOnline(s.registry, id, conf, part).value;
    OneRecordKeepsRegistryInv(s.registry, r', id);
    OneRecordKeepsCallsInv(s.queue, s.registry, r', id);
    assert IsAvailable(r'.agents[id]) ==> IsAvailable(s.registry.agents[id]);
  }

  /** Taking an agent offline clears its record; the invariant survives. */
  lemma OfflineKeepsInv(s: State, id: AgentId)
    requires Inv(s)
    requires TakeAgentOffline(s.registry, id).Success?
    ensures Inv(s.(registry := TakeAgentOffline(s.registry, id).value.registry))
  {
    var r' := TakeAgentOffline(s.registry, id).value.registry;
    OneRecordKeepsRegistryInv(s.registry, r', id);
    OneRecordKeepsCallsInv(s.queue, s.registry, r', id);
  }

  /** An incoming call with a new call id keeps the invariant: it is either
      handed to an available agent (and then nobody was waiting) or queued
      behind the others while nobody is available. */
  lemma IncomingKeepsInv(s: State, c: CallId)
    requires Inv(s)
    requires c !in s.queue.activeCalls && c !in s.queue.callQueue
    ensures var routed := ConnectOrQueueCall(s.queue, s.registry, c);
      Inv(State(routed.registry, routed.queue))
  {
    var q, r := s.queue, s.registry;
    var routed := ConnectOrQueueCall(q, r, c);
    AvailableAgentIffSomeoneAvailable(r);
    match GetAvailableAgent(r)
    case Some(a) =>
      var r' := routed.registry;
      OneRecordKeepsRegistryInv(r, r', a);
      forall id | id in r'.agents && r'.agents[id].activeCallId.Some?
        ensures r'.agents[id].activeCallId.value in routed.queue.activeCalls
        ensures routed.queue.activeCalls[r'.agents[id].activeCallId.value] == id
      {
        if id != a {
          assert r'.agents[id] == r.agents[id];
        }
      }
    case None =>
      var q' := routed.queue;
      assert q'.callQueue == q.callQueue + [c];
      assert Distinct(q'.callQueue) by {
        forall i, j | 0 <= i < j < |q'.callQueue|
          ensures q'.callQueue[i] != q'.callQueue[j]
        {
          if j == |q.callQueue| {
            assert q'.callQueue[i] == q.callQueue[i];
          }
        }
      }
  }

  /** Every event the service handles preserves the invariant, provided the
      telephony gateway never reuses a call id. */
  lemma StepPreservesInv(s: State, e: Event, ids: Fresh)
    requires Inv(s)
    requires e.IncomingCall? ==> e.call !in s.queue.activeCalls && e.call !in s.queue.callQueue
    ensures Inv(Next(s, e, ids))
  {
    match e
    case Login(token) =>
      LoginKeepsInv(s, token);
    case SetStatus(token, online) =>
      if token.Some? {
        var id := token.value;
        if online {
          if BringAgentOnline(s.registry, id, ids.conference, ids.agentParticipant).Success? {
            OnlineKeepsInv(s, id, ids.conference, ids.agentParticipant);
          }
        } else if TakeAgentOffline(s.registry, id).Success? {
          var t := TakeAgentOffline(s.registry, id).value;
          OfflineKeepsInv(s, id);
          QuietReactKeepsInv(s.(registry := t.registry), t.outputs, ids);
        }
      }
    case Hangup(_) =>
    case IncomingCall(c) =>
      IncomingKeepsInv(s, c);
    case CallDisconnected(_) =>
    case ParticipantJoined(conf, p) =>
      var t := OnParticipantJoined(s.registry, conf, p);
      JoinedKeepsInv(s, conf, p);
      QuietReactKeepsInv(s.(registry := t.registry), t.outputs, ids);
    case ParticipantLeft(conf, p) =>
      var t := OnParticipantLeft(s.registry, conf, p);
      if Owner(s.registry, conf).Some? {
        LeftSettles(s, conf, p);
        ReactSettles(s.(registry := t.registry), t.outputs, Owner(s.registry, conf).value, ids);
      } else {
        QuietReactKeepsInv(s, [], ids);
      }
    case ParticipantPublished(conf, p, stream) =>
      var t := OnParticipantPublished(s.registry, conf, p, stream);
      if Owner(s.registry, conf).Some? {
        PublishedSettles(s, conf, p, stream);
        ReactSettles(s.(registry := t.registry), t.outputs, Owner(s.registry, conf).value, ids);
      } else {
        QuietReactKeepsInv(s, [], ids);
      }
  }

  /** The gateway never reuses a call id along the trace. */
  ghost predicate NewCallIds(s: State, trace: seq<Input>)
    decreases |trace|
  {
    |trace| > 0 ==>
      && (trace[0].event.IncomingCall? ==>
            trace[0].event.call !in s.queue.activeCalls && trace[0].event.call !in s.queue.callQueue)
      && NewCallIds(Next(s, trace[0].event, trace[0].ids), trace[1..])
  }

  /** Every state reachable from an invariant state (in particular from the
      initial one) by a trace with new call ids satisfies the invariant. */
  lemma {:induction false} RunPreservesInv(s: State, trace: seq<Input>)
    requires Inv(s) && NewCallIds(s, trace)
    ensures Inv(Run(s, trace))
    decreases |trace|
  {
    if |trace| > 0 {
      StepPreservesInv(s, trace[0].event, trace[0].ids);
      RunPreservesInv(Next(s, trace[0].event, trace[0].ids), trace[1..]);
    }
  }

  /** One agent per call: no two registered agents handle the same call, and
      no waiting call is being handled by anyone. */
  lemma OneAgentPerCall(s: State, x: AgentId, y: AgentId)
    requires Inv(s)
    requires x in s.registry.agents && y in s.registry.agents
    requires s.registry.agents[x].activeCallId.Some?
    requires s.registry.agents[x].activeCallId == s.registry.agents[y].activeCallId
    ensures x == y
    ensures s.registry.agents[x].activeCallId.value !in s.queue.callQueue
  {
  }

  /** The coincidence the `AgentAvailable` wiring relies on. When a media
      event causes a waiting call to be handed out, the call is the head of
      the queue, it is handed to the agent owning the event's conference —
      the agent the signal names — and it is redirected into that agent's own
      conference. At most one call leaves the queue per event. */
  lemma DequeuedCallFollowsItsAgent(s: State, e: Event, ids: Fresh)
    requires Inv(s)
    requires e.ParticipantJoined? || e.ParticipantLeft? || e.ParticipantPublished?
    ensures Step(s, e, ids).Success?
    ensures var o := Step(s, e, ids).value;
      o.state.queue.callQueue != s.queue.callQueue ==>
        && Owner(s.registry, e.conference).Some?
        && |s.queue.callQueue| > 0
        && var a := Owner(s.registry, e.conference).value;
           var c := s.queue.callQueue[0];
           && o.state.queue.callQueue == s.queue.callQueue[1..]
           && c in o.state.queue.activeCalls
           && o.state.queue.activeCalls[c] == a
           && a in o.state.registry.agents
           && o.state.registry.agents[a].activeCallId == Some(c)
           && o.state.registry.agents[a].conferenceId.Some?
           && Redirect(c, o.state.registry.agents[a].conferenceId.value, ids.callerParticipant) in o.commands
  {
    match e
    case ParticipantJoined(conf, p) =>
      var t := OnParticipantJoined(s.registry, conf, p);
      JoinedKeepsInv(s, conf, p);
      SettledReactIsQuiet(s.(registry := t.registry), t.outputs, ids);
    case ParticipantLeft(conf, p) =>
      var t := OnParticipantLeft(s.registry, conf, p);
      if Owner(s.registry, conf).Some? {
        LeftSettles(s, conf, p);
        ReactSettles(s.(registry := t.registry), t.outputs, Owner(s.registry, conf).value, ids);
      }
    case ParticipantPublished(conf, p, stream) =>
      var t := OnParticipantPublished(s.registry, conf, p, stream);
      if Owner(s.registry, conf).Some? {
        PublishedSettles(s, conf, p, stream);
        ReactSettles(s.(registry := t.registry), t.outputs, Owner(s.registry, conf).value, ids);
      }
  }
}
