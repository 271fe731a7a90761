/**
 The agent registry: which agents exist, in which order they were first
 registered, which conference belongs to which agent, and the state of each
 agent's media session. Every operation is a pure transition; calls into the
 media SDK and the events the registry raises come back as `Output`s.
 */
module AgentManager {
  import opened Types

  /** A JavaScript `Map` iterates in first-insertion order, so the agent table
      is a map together with the order in which its keys were first set. */
  datatype Registry = Registry(
    agents: map<AgentId, Agent>,
    order: seq<AgentId>,
    conferences: map<ConferenceId, AgentId>)

  /** Events the registry raises to its subscribers. An agent is named by the
      registry key through which its record was reached. */
  datatype Signal = AgentAvailable(agent: AgentId) | CallEnded(call: CallId)

  /** Calls the registry makes into the media SDK. */
  datatype MediaCall =
    | Subscribe(conference: ConferenceId, participant: ParticipantId, stream: StreamId)
    | EndConference(conference: ConferenceId)

  datatype Output = Raise(signal: Signal) | Media(media: MediaCall)

  datatype Transition = Transition(registry: Registry, outputs: seq<Output>)

  const EmptyRegistry := Registry(map[], [], map[])

  /** The iteration order lists every registered agent exactly once, and every
      record is stored under its own id. */
  ghost predicate WellFormed(r: Registry)
  {
    && Distinct(r.order)
    && (forall id :: id in r.order <==> id in r.agents)
    && (forall id :: id in r.agents ==> r.agents[id].id == id)
  }

  /** `r'` differs from `r` at most in the record of agent `id`. */
  ghost predicate OnlyAgentChanged(r: Registry, r': Registry, id: AgentId)
  {
    && r'.order == r.order
    && r'.agents.Keys == r.agents.Keys
    && (forall x :: x in r.agents && x != id ==> r'.agents[x] == r.agents[x])
  }

  predicate Eligible(r: Registry, id: AgentId)
  {
    id in r.agents && IsAvailable(r.agents[id])
  }

  ghost predicate NobodyAvailable(r: Registry)
  {
    forall id :: id in r.agents ==> !IsAvailable(r.agents[id])
  }

  /** No signal is raised: the outputs are SDK calls only. */
  predicate Quiet(outs: seq<Output>)
  {
    forall k :: 0 <= k < |outs| ==> outs[k].Media?
  }

  function Put(r: Registry, id: AgentId, a: Agent): (r': Registry)
    requires id in r.agents
  {
    r.(agents := r.agents[id := a])
  }

  /** Registers `id` with a fresh, disconnected record. Re-registering an id
      replaces its record but keeps its place in the iteration order. */
  function AddAgent(r: Registry, id: AgentId): (r': Registry)
    ensures r'.agents.Keys == r.agents.Keys + {id}
    ensures r'.agents[id] == Agent(id, None, None, None, None, map[])
    ensures forall x :: x in r.agents && x != id ==> r'.agents[x] == r.agents[x]
    ensures id in r.agents ==> r'.order == r.order
    ensures id !in r.agents ==> r'.order == r.order + [id]
    ensures r'.conferences == r.conferences
    ensures WellFormed(r) ==> WellFormed(r')
  {
    var order := if id in r.agents then r.order else r.order + [id];
    var r' := Registry(r.agents[id := NewAgent(id)], order, r.conferences);
    assert WellFormed(r) && id !in r.agents ==> Distinct(order) by {
      if WellFormed(r) && id !in r.agents {
        assert id !in r.order;
      }
    }
    r'
  }

  /** `s` with every occurrence of `x` removed, the rest in order. */
  function Without(s: seq<AgentId>, x: AgentId): (t: seq<AgentId>)
    ensures forall y :: y in t <==> y in s && y != x
    ensures Distinct(s) ==> Distinct(t)
    ensures |t| <= |s|
  {
    if |s| == 0 then []
    else if s[0] == x then Without(s[1..], x)
    else
      var rest := Without(s[1..], x);
      assert Distinct(s) ==> s[0] !in s[1..];
      [s[0]] + rest
  }

  /** Deregisters `id`; the conference table and every call are left as they
      are. The other agents keep their relative iteration order: an absent id
      leaves the order alone, and a present one is cut out where it stood. */
  function RemoveAgent(r: Registry, id: AgentId): (r': Registry)
    ensures r'.agents.Keys == r.agents.Keys - {id}
    ensures forall x :: x in r'.agents ==> r'.agents[x] == r.agents[x]
    ensures forall x :: x in r'.order <==> x in r.order && x != id
    ensures id !in r.order ==> r'.order == r.order
    ensures Distinct(r.order) ==>
      forall k :: 0 <= k < |r.order| && r.order[k] == id ==> r'.order == r.order[..k] + r.order[k+1..]
    ensures r'.conferences == r.conferences
    ensures WellFormed(r) ==> WellFormed(r')
  {
    var order := Without(r.order, id);
    assert id !in r.order ==> order == r.order by {
      if id !in r.order {
        WithoutAbsent(r.order, id);
      }
    }
    assert Distinct(r.order) ==>
      forall k :: 0 <= k < |r.order| && r.order[k] == id ==> order == r.order[..k] + r.order[k+1..]
    by {
      if Distinct(r.order) {
        forall k | 0 <= k < |r.order| && r.order[k] == id
          ensures order == r.order[..k] + r.order[k+1..]
        {
          WithoutAt(r.order, k);
        }
      }
    }
    Registry(r.agents - {id}, order, r.conferences)
  }

  lemma {:induction false} WithoutAbsent(s: seq<AgentId>, x: AgentId)
    requires x !in s
    ensures Without(s, x) == s
  {
    if |s| > 0 {
      WithoutAbsent(s[1..], x);
    }
  }

  /** In a sequence without repeats, removing the element at `k` cuts out
      exactly that position. */
  lemma {:induction false} WithoutAt(s: seq<AgentId>, k: nat)
    requires Distinct(s) && k < |s|
    ensures Without(s, s[k]) == s[..k] + s[k+1..]
  {
    if k == 0 {
      assert s[0] !in s[1..];
      WithoutAbsent(s[1..], s[0]);
    } else {
      var t := s[1..];
      assert s[0] != s[k];
      assert t[k-1] == s[k];
      WithoutAt(t, k - 1);
      assert [s[0]] + (t[..k-1] + t[k..]) == s[..k] + s[k+1..];
    }
  }

  lemma {:induction false} WithoutAppended(s: seq<AgentId>, x: AgentId)
    ensures Without(s + [x], x) == Without(s, x)
  {
    if |s| == 0 {
      assert Without([x][1..], x) == [];
    } else {
      assert (s + [x])[1..] == s[1..] + [x];
      WithoutAppended(s[1..], x);
    }
  }

  /** Registering a new agent and then removing it gives back the registry
      unchanged, iteration order included. */
  lemma AddThenRemove(r: Registry, id: AgentId)
    requires WellFormed(r) && id !in r.agents
    ensures RemoveAgent(AddAgent(r, id), id) == r
  {
    WithoutAppended(r.order, id);
    WithoutAbsent(r.order, id);
    assert (r.agents[id := NewAgent(id)] - {id}) == r.agents;
  }

  /** Dereferences an agent id, failing for an unknown one. */
  function GetAgent(r: Registry, id: AgentId): (res: Result<Agent>)
    ensures res.Success? <==> id in r.agents
    ensures res.Success? ==> res.value == r.agents[id]
    ensures res.Failure? ==> res.error == AgentNotFound(id)
  {
    if id in r.agents then Success(r.agents[id]) else Failure(AgentNotFound(id))
  }

  /** Records the conference and the agent participant the SDK created for
      `id` (passed in as `conf` and `part`) and maps the conference to the
      agent. The stream stays as it was, so the agent becomes routable only
      once its browser publishes. */
  function BringAgentOnline(r: Registry, id: AgentId, conf: ConferenceId, part: ParticipantId): (res: Result<Registry>)
    ensures res.Success? <==> id in r.agents
    ensures res.Failure? ==> res.error == AgentNotFound(id)
    ensures res.Success? ==>
      && OnlyAgentChanged(r, res.value, id)
      && res.value.agents[id] == r.agents[id].(conferenceId := Some(conf), participantId := Some(part))
      && conf in res.value.conferences && res.value.conferences[conf] == r.agents[id].id
      && (forall c :: c in r.conferences && c != conf ==> c in res.value.conferences && res.value.conferences[c] == r.conferences[c])
      && res.value.conferences.Keys == r.conferences.Keys + {conf}
    ensures res.Success? && r.agents[id].streamId.None? ==> !IsAvailable(res.value.agents[id])
  {
    match GetAgent(r, id)
    case Failure(e) => Failure(e)
    case Success(a) =>
      var a' := a.(conferenceId := Some(conf), participantId := Some(part));
      Success(Put(r, id, a').(conferences := r.conferences[conf := a.id]))
  }

  /** Clears the agent's conference, participant, stream and call, and ends
      its conference if it had one. Any call in progress is dropped without a
      signal; the bridged legs and the conference table are left as they
      are. */
  function TakeAgentOffline(r: Registry, id: AgentId): (res: Result<Transition>)
    ensures res.Success? <==> id in r.agents
    ensures res.Failure? ==> res.error == AgentNotFound(id)
    ensures res.Success? ==>
      && OnlyAgentChanged(r, res.value.registry, id)
      && res.value.registry.conferences == r.conferences
      && res.value.registry.agents[id] == Agent(r.agents[id].id, None, None, None, None, r.agents[id].callParticipants)
      && Quiet(res.value.outputs)
      && (r.agents[id].conferenceId.Some? ==> res.value.outputs == [Media(EndConference(r.agents[id].conferenceId.value))])
      && (r.agents[id].conferenceId.None? ==> res.value.outputs == [])
  {
    match GetAgent(r, id)
    case Failure(e) => Failure(e)
    case Success(a) =>
      var a' := a.(conferenceId := None, participantId := None, streamId := None, activeCallId := None);
      var outs := match a.conferenceId
        case Some(conf) => [Media(EndConference(conf))]
        case None => [];
      Success(Transition(Put(r, id, a'), outs))
  }

  /** Index of the first eligible agent in iteration order at or after `k`,
      or `|r.order|` when there is none. */
  function FirstEligibleFrom(r: Registry, k: nat): (i: nat)
    requires k <= |r.order|
    ensures k <= i <= |r.order|
    ensures i < |r.order| ==> Eligible(r, r.order[i])
    ensures forall j :: k <= j < i ==> !Eligible(r, r.order[j])
    decreases |r.order| - k
  {
    if k == |r.order| then k
    else if Eligible(r, r.order[k]) then k
    else FirstEligibleFrom(r, k + 1)
  }

  /** `id` sits at position `i` of the iteration order and no agent before it
      is eligible. */
  ghost predicate FirstAt(r: Registry, i: int, id: AgentId)
  {
    && 0 <= i < |r.order|
    && r.order[i] == id
    && forall j :: 0 <= j < i ==> !Eligible(r, r.order[j])
  }

  /** The first agent, in registration order, that is online and idle; `None`
      when no registered agent is. */
  function GetAvailableAgent(r: Registry): (res: Option<AgentId>)
    ensures res.Some? ==> Eligible(r, res.value)
    ensures res.Some? ==> exists i :: FirstAt(r, i, res.value)
    ensures res.None? ==> forall id :: id in r.order ==> !Eligible(r, id)
  {
    var i := FirstEligibleFrom(r, 0);
    if i < |r.order| then
      assert FirstAt(r, i, r.order[i]);
      Some(r.order[i])
    else None
  }

  /** Over a well-formed registry the search finds an agent exactly when some
      registered agent is available. */
  lemma AvailableAgentIffSomeoneAvailable(r: Registry)
    requires WellFormed(r)
    ensures GetAvailableAgent(r).None? <==> NobodyAvailable(r)
  {
    if GetAvailableAgent(r).None? {
      forall id | id in r.agents
        ensures !IsAvailable(r.agents[id])
      {
        assert id in r.order;
      }
    }
  }

  /** Makes `c` the agent's active call, whatever it was before. */
  function AssignCall(r: Registry, id: AgentId, c: CallId): (res: Result<Registry>)
    ensures res.Success? <==> id in r.agents
    ensures res.Failure? ==> res.error == AgentNotFound(id)
    ensures res.Success? ==>
      && OnlyAgentChanged(r, res.value, id)
      && res.value.conferences == r.conferences
      && res.value.agents[id] == r.agents[id].(activeCallId := Some(c))
      && !Eligible(res.value, id)
  {
    match GetAgent(r, id)
    case Failure(e) => Failure(e)
    case Success(a) => Success(Put(r, id, a.(activeCallId := Some(c))))
  }

  /** Releases the agent from `c` and announces it available, but only when
      `c` is its active call; otherwise nothing happens. */
  function UnassignCall(r: Registry, id: AgentId, c: CallId): (res: Result<Transition>)
    ensures res.Success? <==> id in r.agents
    ensures res.Failure? ==> res.error == AgentNotFound(id)
    ensures res.Success? && r.agents[id].activeCallId == Some(c) ==>
      && OnlyAgentChanged(r, res.value.registry, id)
      && res.value.registry.conferences == r.conferences
      && res.value.registry.agents[id] == r.agents[id].(activeCallId := None)
      && res.value.outputs == [Raise(AgentAvailable(id))]
    ensures res.Success? && r.agents[id].activeCallId != Some(c) ==> res.value == Transition(r, [])
  {
    match GetAgent(r, id)
    case Failure(e) => Failure(e)
    case Success(a) =>
      if a.activeCallId == Some(c) then
        Success(Transition(Put(r, id, a.(activeCallId := None)), [Raise(AgentAvailable(id))]))
      else Success(Transition(r, []))
  }

  /** Unassigning the call just assigned releases the agent and announces it;
      an agent that was idle before is back to its former record. */
  lemma AssignThenUnassign(r: Registry, id: AgentId, c: CallId)
    requires id in r.agents
    ensures var r1 := AssignCall(r, id, c).value;
      var t := UnassignCall(r1, id, c);
      && t.Success?
      && t.value.outputs == [Raise(AgentAvailable(id))]
      && t.value.registry == Put(r, id, r.agents[id].(activeCallId := None))
      && (r.agents[id].activeCallId.None? ==> t.value.registry == r)
  {
    var a := r.agents[id];
    if a.activeCallId.None? {
      assert a.(activeCallId := Some(c)).(activeCallId := None) == a;
      assert r.agents[id := a] == r.agents;
    }
  }

  /** The call the agent is handling, if any; unknown agents fail. */
  function GetActiveCallId(r: Registry, id: AgentId): (res: Result<Option<CallId>>)
    ensures res.Success? <==> id in r.agents
    ensures res.Failure? ==> res.error == AgentNotFound(id)
    ensures res.Success? ==> res.value == r.agents[id].activeCallId
  {
    match GetAgent(r, id)
    case Failure(e) => Failure(e)
    case Success(a) => Success(a.activeCallId)
  }

  /** The registered agent owning conference `conf`, if any. Events for other
      conferences are ignored by every handler. */
  function Owner(r: Registry, conf: ConferenceId): (res: Option<AgentId>)
    ensures res.Some? <==> conf in r.conferences && r.conferences[conf] in r.agents
    ensures res.Some? ==> res.value == r.conferences[conf]
  {
    if conf in r.conferences && r.conferences[conf] in r.agents then Some(r.conferences[conf]) else None
  }

  /** A participant joined conference `conf`. When it is a caller leg entering
      the conference of an agent that has a published stream and an active
      call, the leg is recorded as carrying that call and is subscribed to the
      agent's stream. Nothing else changes. */
  function OnParticipantJoined(r: Registry, conf: ConferenceId, p: ParticipantId): (t: Transition)
    ensures t.registry.conferences == r.conferences
    ensures Quiet(t.outputs) && |t.outputs| <= 1
    ensures Owner(r, conf).None? ==> t == Transition(r, [])
    ensures Owner(r, conf).Some? ==>
      var id := Owner(r, conf).value;
      var a := r.agents[id];
      && OnlyAgentChanged(r, t.registry, id)
      && t.registry.agents[id] == a.(callParticipants := t.registry.agents[id].callParticipants)
      && (t.outputs != [] <==> a.participantId != Some(p) && a.streamId.Some? && a.activeCallId.Some?)
      && (t.outputs != [] ==>
            && t.outputs == [Media(Subscribe(conf, p, a.streamId.value))]
            && t.registry.agents[id].callParticipants == a.callParticipants[p := a.activeCallId.value])
      && (t.outputs == [] ==> t.registry == r)
  {
    match Owner(r, conf)
    case None => Transition(r, [])
    case Some(id) =>
      var a := r.agents[id];
      if a.participantId != Some(p) && a.streamId.Some? && a.activeCallId.Some? then
        Transition(
          Put(r, id, a.(callParticipants := a.callParticipants[p := a.activeCallId.value])),
          [Media(Subscribe(conf, p, a.streamId.value))])
      else Transition(r, [])
  }

  /** A caller leg ends the agent's call only when it is mapped to exactly the
      agent's active call. A leg the agent never recorded is `undefined` in
      the source and never equals the idle `null` call, so it ends nothing. */
  predicate EndsActiveCall(a: Agent, p: ParticipantId)
  {
    p in a.callParticipants && a.activeCallId == Some(a.callParticipants[p])
  }

  /** A participant left conference `conf`.
      - The agent's own participant: the agent is reset to disconnected, its
        legs are forgotten and its conference is ended; no signal is raised.
      - A caller leg carrying the active call: the leg is forgotten,
        `CallEnded` is raised for the call, the agent is freed and
        `AgentAvailable` is raised.
      - Any other leg is just forgotten. */
  function OnParticipantLeft(r: Registry, conf: ConferenceId, p: ParticipantId): (t: Transition)
    ensures t.registry.conferences == r.conferences
    ensures Owner(r, conf).None? ==> t == Transition(r, [])
    ensures Owner(r, conf).Some? ==> OnlyAgentChanged(r, t.registry, Owner(r, conf).value)
    ensures Owner(r, conf).Some? ==>
      var id := Owner(r, conf).value;
      var a := r.agents[id];
      var a' := t.registry.agents[id];
      && a'.id == a.id
      && (a.participantId == Some(p) ==>
            && a' == Agent(a.id, None, None, None, None, map[])
            && t.outputs == [Media(EndConference(conf))])
      && (a.participantId != Some(p) ==>
            && a'.callParticipants == a.callParticipants - {p}
            && a'.conferenceId == a.conferenceId
            && a'.participantId == a.participantId
            && a'.streamId == a.streamId)
      && (a.participantId != Some(p) && EndsActiveCall(a, p) ==>
            && a'.activeCallId.None?
            && t.outputs == [Raise(CallEnded(a.callParticipants[p])), Raise(AgentAvailable(id))])
      && (a.participantId != Some(p) && !EndsActiveCall(a, p) ==>
            && a'.activeCallId == a.activeCallId
            && t.outputs == [])
  {
    match Owner(r, conf)
    case None => Transition(r, [])
    case Some(id) =>
      var a := r.agents[id];
      if a.participantId == Some(p) then
        Transition(Put(r, id, Agent(a.id, None, None, None, None, map[])), [Media(EndConference(conf))])
      else
        var a' := a.(callParticipants := a.callParticipants - {p});
        if EndsActiveCall(a, p) then
          Transition(
            Put(r, id, a'.(activeCallId := None)),
            [Raise(CallEnded(a.callParticipants[p])), Raise(AgentAvailable(id))])
        else Transition(Put(r, id, a'), [])
  }

  /** A participant published stream `s` in conference `conf`. The agent's own
      participant publishing records the stream and raises `AgentAvailable`;
      anyone else's stream is subscribed to by the agent's participant, when
      the agent has one. */
  function OnParticipantPublished(r: Registry, conf: ConferenceId, p: ParticipantId, s: StreamId): (t: Transition)
    ensures t.registry.conferences == r.conferences
    ensures Owner(r, conf).None? ==> t == Transition(r, [])
    ensures Owner(r, conf).Some? ==>
      var id := Owner(r, conf).value;
      var a := r.agents[id];
      && OnlyAgentChanged(r, t.registry, id)
      && (a.participantId == Some(p) ==>
            && t.registry.agents[id] == a.(streamId := Some(s))
            && t.outputs == [Raise(AgentAvailable(id))])
      && (a.participantId != Some(p) ==> t.registry == r && Quiet(t.outputs))
      && (a.participantId != Some(p) && a.participantId.Some? ==>
            t.outputs == [Media(Subscribe(conf, a.participantId.value, s))])
      && (a.participantId.None? ==> t.outputs == [])
  {
    match Owner(r, conf)
    case None => Transition(r, [])
    case Some(id) =>
      var a := r.agents[id];
      if a.participantId == Some(p) then
        Transition(Put(r, id, a.(streamId := Some(s))), [Raise(AgentAvailable(id))])
      else if a.participantId.Some? then
        Transition(r, [Media(Subscribe(conf, a.participantId.value, s))])
      else Transition(r, [])
  }
}
