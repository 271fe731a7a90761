/**
 Shared vocabulary of the call-routing engine: identifiers, the agent record,
 the two error kinds, and the optional/result wrappers used for `null` and for
 thrown errors.
 */
module Types {

  /** Every identifier handed out by the media SDK, the telephony gateway or
      `/login` is an opaque, non-empty string. Non-emptiness makes the
      source's truthiness tests (`if (agentId)`, `if (agent.streamId)`)
      coincide with "is present". */
  type Id = s: string | |s| > 0 witness "id"

  type AgentId = Id
  type ConferenceId = Id
  type ParticipantId = Id
  type StreamId = Id
  type CallId = Id

  /** `null` (or an absent map entry) versus a present value. */
  datatype Option<+T> = None | Some(value: T)

  /** The two error classes of the service. Only `AgentNotFound` is ever
      raised; `AgentOffline` is declared and never produced. */
  datatype Error = AgentNotFound(id: AgentId) | AgentOffline(id: AgentId)

  /** An operation that either succeeds or throws one of the errors above. */
  datatype Result<+T> = Success(value: T) | Failure(error: Error)

  /** One agent: its identity, the four independently optional references
      to its conference, its own media participant, its published stream and
      the call it is handling, plus the caller legs bridged into its
      conference (caller participant -> call id). */
  datatype Agent = Agent(
    id: AgentId,
    conferenceId: Option<ConferenceId>,
    participantId: Option<ParticipantId>,
    streamId: Option<StreamId>,
    activeCallId: Option<CallId>,
    callParticipants: map<ParticipantId, CallId>)

  /** The record `addAgent` creates: nothing connected, no legs. */
  function NewAgent(id: AgentId): (a: Agent)
  {
    Agent(id, None, None, None, None, map[])
  }

  /** An agent is online once its conference, its participant and its
      published stream are all known. */
  predicate IsOnline(a: Agent)
  {
    a.conferenceId.Some? && a.participantId.Some? && a.streamId.Some?
  }

  /** Online and not handling a call: eligible for routing. */
  predicate IsAvailable(a: Agent)
  {
    IsOnline(a) && a.activeCallId.None?
  }

  ghost predicate Distinct<T>(s: seq<T>)
  {
    forall i, j :: 0 <= i < j < |s| ==> s[i] != s[j]
  }
}
