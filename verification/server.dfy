/**
 The wiring of the service: how external events (HTTP requests from agents'
 browsers, telephony callbacks and media SDK events) drive the registry and
 the queue, and which commands go out to the telephony gateway and the media
 SDK. Each event is handled to completion before the next one, so a handler
 is a function from state to state and commands.
 */
module Server {
  import opened Types
  import AgentManager
  import CallQueue

  datatype State = State(registry: AgentManager.Registry, queue: CallQueue.Queue)

  const Initial := State(AgentManager.EmptyRegistry, CallQueue.EmptyQueue)

  datatype Event =
    | Login(token: AgentId)                          // POST /login with its freshly generated token
    | SetStatus(statusToken: Option<AgentId>, online: bool) // POST /setStatus
    | Hangup(agentToken: AgentId)                    // POST /hangup
    | IncomingCall(call: CallId)                     // telephony: a new call arrives
    | CallDisconnected(call: CallId)                 // telephony: a call has ended
    | ParticipantJoined(conference: ConferenceId, participant: ParticipantId)
    | ParticipantLeft(conference: ConferenceId, participant: ParticipantId)
    | ParticipantPublished(conference: ConferenceId, participant: ParticipantId, stream: StreamId)

  /** Identifiers the media SDK creates while an event is handled: the
      conference and agent participant of a bring-online, and the phone-side
      participant created before answering or redirecting a call. */
  datatype Fresh = Fresh(
    conference: ConferenceId,
    agentParticipant: ParticipantId,
    callerParticipant: ParticipantId)

  datatype Command =
    | Answer(call: CallId, conference: ConferenceId, participant: ParticipantId)
    | Hold(call: CallId)
    | Redirect(call: CallId, conference: ConferenceId, participant: ParticipantId)
    | Terminate(call: CallId)
    | Sdk(media: AgentManager.MediaCall)

  datatype Outcome = Outcome(state: State, commands: seq<Command>)

  function ConferenceOf(r: AgentManager.Registry, id: AgentId): (conf: Option<ConferenceId>)
  {
    if id in r.agents then r.agents[id].conferenceId else None
  }

  /** The two queue callbacks: an answered call is bridged into its agent's
      conference (when the agent has one) through a new phone participant; a
      queued call is put on hold. */
  function OnCallRouted(r: AgentManager.Registry, d: CallQueue.Decision, ids: Fresh): (cmds: seq<Command>)
  {
    match d
    case ShouldAnswer(c, a) =>
      (match ConferenceOf(r, a)
       case Some(conf) => [Answer(c, conf, ids.callerParticipant)]
       case None => [])
    case ShouldHold(c) => [Hold(c)]
  }

  /** The `AgentAvailable` subscriber: takes at most one call off the queue
      (handed to whichever agent the queue picks) and redirects it into the
      conference of the agent named by the signal. */
  function OnAgentAvailable(s: State, a: AgentId, ids: Fresh): (o: Outcome)
  {
    var d := CallQueue.GetNextActiveCallId(s.queue, s.registry);
    var s' := State(d.registry, d.queue);
    var cmds := match d.next
      case None => []
      case Some(c) =>
        (match ConferenceOf(s'.registry, a)
         case Some(conf) => [Redirect(c, conf, ids.callerParticipant)]
         case None => []);
    Outcome(s', cmds)
  }

  /** Delivers one registry output. No subscriber is registered for the
      registry's `CallEnded` signal, so it is dropped. */
  function ReactOne(s: State, out: AgentManager.Output, ids: Fresh): (o: Outcome)
  {
    match out
    case Raise(AgentAvailable(a)) => OnAgentAvailable(s, a, ids)
    case Raise(CallEnded(_)) => Outcome(s, [])
    case Media(m) => Outcome(s, [Sdk(m)])
  }

  /** Delivers registry outputs in the order they were raised. */
  function React(s: State, outs: seq<AgentManager.Output>, ids: Fresh): (o: Outcome)
    decreases |outs|
  {
    if |outs| == 0 then Outcome(s, [])
    else
      var first := ReactOne(s, outs[0], ids);
      var rest := React(first.state, outs[1..], ids);
      Outcome(rest.state, first.commands + rest.commands)
  }

  function WithRegistry(s: State, t: AgentManager.Transition, ids: Fresh): (o: Outcome)
  {
    React(s.(registry := t.registry), t.outputs, ids)
  }

  /** Handles one event. A thrown `AgentNotFound` aborts the handler before it
      changes anything. */
  function Step(s: State, e: Event, ids: Fresh): (res: Result<Outcome>)
  {
    match e
    case Login(token) =>
      Success(Outcome(s.(registry := AgentManager.AddAgent(s.registry, token)), []))
    case SetStatus(agent, online) =>
      (match agent
       case None => Success(Outcome(s, []))
       case Some(id) =>
         if online then
           (match AgentManager.BringAgentOnline(s.registry, id, ids.conference, ids.agentParticipant)
            case Failure(err) => Failure(err)
            case Success(r') => Success(Outcome(s.(registry := r'), [])))
         else
           (match AgentManager.TakeAgentOffline(s.registry, id)
            case Failure(err) => Failure(err)
            case Success(t) => Success(WithRegistry(s, t, ids))))
    case Hangup(id) =>
      (match AgentManager.GetActiveCallId(s.registry, id)
       case Failure(err) => Failure(err)
       case Success(None) => Success(Outcome(s, []))
       case Success(Some(c)) => Success(Outcome(s, [Terminate(c)])))
    case IncomingCall(c) =>
      var routed := CallQueue.ConnectOrQueueCall(s.queue, s.registry, c);
      Success(Outcome(State(routed.registry, routed.queue), OnCallRouted(routed.registry, routed.decision, ids)))
    case CallDisconnected(_) =>
      // The telephony gateway's call-ended callback is never registered.
      Success(Outcome(s, []))
    case ParticipantJoined(conf, p) =>
      Success(WithRegistry(s, AgentManager.OnParticipantJoined(s.registry, conf, p), ids))
    case ParticipantLeft(conf, p) =>
      Success(WithRegistry(s, AgentManager.OnParticipantLeft(s.registry, conf, p), ids))
    case ParticipantPublished(conf, p, stream) =>
      Success(WithRegistry(s, AgentManager.OnParticipantPublished(s.registry, conf, p, stream), ids))
  }

  /** The state after an event; a failed handler leaves the state as it was. */
  function Next(s: State, e: Event, ids: Fresh): (s': State)
  {
    match Step(s, e, ids)
    case Success(o) => o.state
    case Failure(_) => s
  }

  datatype Input = Input(event: Event, ids: Fresh)

  function Run(s: State, trace: seq<Input>): (s': State)
    decreases |trace|
  {
    if |trace| == 0 then s
    else Run(Next(s, trace[0].event, trace[0].ids), trace[1..])
  }
}
