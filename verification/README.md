# Call-centre routing engine

A Dafny model of the routing core of a WebRTC call centre. Agents log in from a browser, go
online with a media conference of their own, and take phone calls bridged into that conference.
The model covers three parts of the service:

- **The agent registry** (`WebRtcAgentManager`). It is an insertion-ordered table of agents and
  a conference → agent table. It has the operations add, remove, bring online, take offline,
  pick the first available agent, assign a call, unassign a call and read the active call. It
  also has the three media-server callbacks (participant joined, left and published).
- **The call queue** (`CallQueueManager`). It holds the FIFO of callers on hold and the table
  of calls handed to an agent. For each new call it decides "answer now" or "put on hold". It
  hands out waiting calls as agents free up.
- **The wiring** (`server.ts`). It connects incoming calls to the queue, queue decisions to
  answer and hold commands, and the registry's `AgentAvailable` signal to the dequeue-and-redirect
  path. It also covers the state-changing decisions of `/login`, `/setStatus` and `/hangup`.

The whole service is a pure state machine:

- `Server.State` is the registry together with the queue.
- `Server.Step` handles one `Event` to completion. It returns the new state and the `Command`s
  sent to the telephony gateway (answer, hold, redirect, terminate) and to the media SDK
  (subscribe, end conference).
- Identifiers the SDK creates while an event is handled are parameters (`Server.Fresh`).
- A JavaScript `Map` iterates in first-insertion order, so the agent table is a `map` plus an
  `order` sequence.
- Identifiers are non-empty strings. The source's truthiness tests therefore coincide with
  "present".
- The registry's callbacks return their effects as `Output`s. `Server.React` delivers them
  synchronously and in order, as the single event loop does.

Files:

- `types.dfy`: identifiers, the agent record and the errors.
- `agent_manager.dfy`: the registry.
- `call_queue.dfy`: the queue.
- `server.dfy`: the wiring.
- `invariants.dfy`: the routing invariant and its preservation by every event.
- `wiring.dfy`: per-route properties that hold in every state.
- `scenarios.dfy`: concrete traces.

## Model

| member | source | states |
|---|---|---|
| AgentManager.AddAgent | src/WebRtcAgentManager.ts:167-177 | The new record has every reference null and no caller legs. Re-adding an id overwrites its record but keeps its place in iteration order; a new id goes last. Other agents and the conference table are untouched, and well-formedness is kept. |
| AgentManager.RemoveAgent | src/WebRtcAgentManager.ts:183-185 | Only the id is deregistered, and every other record keeps its value. An unregistered id leaves the iteration order as it was. Otherwise the id is cut out at its position, so the other agents keep their relative order, as JavaScript `Map.delete` does. Conferences are untouched, and well-formedness is kept. |
| AgentManager.AddThenRemove | src/WebRtcAgentManager.ts:167-185 | Adding a new agent and then removing it gives back exactly the original registry, iteration order included. |
| AgentManager.GetAgent | src/WebRtcAgentManager.ts:269-276 | Returns the stored record exactly when the id is registered. Otherwise it fails with AgentNotFound carrying that id. |
| AgentManager.BringAgentOnline | src/WebRtcAgentManager.ts:193-202 | Records the SDK-created conference and participant and maps the conference to the agent. The stream is not set, so an agent without one is still not available. An unknown id fails with AgentNotFound and changes nothing. |
| AgentManager.TakeAgentOffline | src/WebRtcAgentManager.ts:208-218 | Clears conference, participant, stream and active call, and raises no signal. Ends the conference only if there was one. Caller legs and the conference table are left as they were. |
| AgentManager.FirstEligibleFrom | src/WebRtcAgentManager.ts:225-229 | The scan stops at the first agent in iteration order that is online (conference, participant and stream set) and has no active call. Every agent before it is ineligible. |
| AgentManager.GetAvailableAgent | src/WebRtcAgentManager.ts:223-231 | Any result is online and idle, and it is the first such agent in iteration order. No result means no agent in the order is eligible. |
| AgentManager.AvailableAgentIffSomeoneAvailable | src/WebRtcAgentManager.ts:223-231 | Over a well-formed registry, "no agent returned" holds if and only if no registered agent is available. |
| AgentManager.AssignCall | src/WebRtcAgentManager.ts:238-241 | Sets the active call unconditionally and touches no other agent. Afterwards the agent is not eligible. An unknown id fails with AgentNotFound. |
| AgentManager.UnassignCall | src/WebRtcAgentManager.ts:248-254 | When the given call is the agent's active call, it is cleared and AgentAvailable is raised for that agent. Otherwise nothing changes and nothing is raised. An unknown id fails with AgentNotFound. |
| AgentManager.AssignThenUnassign | src/WebRtcAgentManager.ts:238-254 | Unassigning the call just assigned always releases the agent and announces it. An agent that was idle before gets its former record back. |
| AgentManager.GetActiveCallId | src/WebRtcAgentManager.ts:260-263 | Returns the agent's active call, or null. An unknown id fails with AgentNotFound. |
| AgentManager.Owner | src/WebRtcAgentManager.ts:114-117 | The two-step lookup every callback starts with: conference to agent id, then agent id to record. It yields an agent exactly when the conference is mapped to an id that is still registered, and then it yields that id. |
| AgentManager.OnParticipantJoined | src/WebRtcAgentManager.ts:61-81 | A leg other than the agent's own participant, joining while the agent has a stream and an active call, is recorded as carrying that call and subscribed to the agent's stream. In every other case, and for unknown conferences, nothing changes. |
| AgentManager.OnParticipantLeft | src/WebRtcAgentManager.ts:83-110 | If the agent's own participant leaves, the agent is fully reset and its conference is ended, with no signal. A leg mapped to exactly the active call leaves: the leg is forgotten, CallEnded and then AgentAvailable are raised, and the call is cleared. Any other leg is just forgotten. An unrecorded leg never matches an idle agent. |
| AgentManager.OnParticipantPublished | src/WebRtcAgentManager.ts:112-132 | The agent's own participant publishing sets the stream and raises AgentAvailable. Another participant's stream is only subscribed to by the agent's participant, if it has one, and the registry is unchanged. |
| CallQueue.ConnectOrQueueCall | src/CallQueueManager.ts:57-73 | With an agent available, the call is assigned to the first one, recorded in activeCalls and answered by that agent, and the queue is unchanged. Afterwards that agent is no longer the one returned. With none available, the call is appended at the tail and held, and agents and activeCalls are unchanged. |
| CallQueue.DisconnectCall | src/CallQueueManager.ts:79-85 | A handed-out call is removed from activeCalls and unassigned from its agent; the removal stands even if that agent is gone. Any other call is a no-op. |
| CallQueue.DisconnectReleasesAgent | src/CallQueueManager.ts:79-85 | Disconnecting the active call of a registered agent frees that agent and raises AgentAvailable. Afterwards the call has no assigned agent. |
| CallQueue.GetAssignedAgent | src/CallQueueManager.ts:91-93 | Exactly the activeCalls lookup: present if and only if the call is in the table. |
| CallQueue.AnsweredCallIsAssigned | src/CallQueueManager.ts:57-93 | A call just answered is reported as assigned to the answering agent. Holding a call leaves its assignment as it was. |
| CallQueue.GetNextActiveCallId | src/CallQueueManager.ts:98-116 | An empty queue, or nobody available, returns nothing and changes nothing. Otherwise the head is popped, assigned to the first available agent, recorded in activeCalls and returned. |
| CallQueue.FifoExample | src/CallQueueManager.ts:98-116 | The queue [c1, c2] with an agent free hands out c1 and leaves [c2]. |
| Wiring.IncomingCallIsAnsweredOrHeld | src/server.ts:41-66 | Every incoming call yields exactly one command. With an available agent, it is an answer into that agent's conference through the fresh caller participant, and the call is assigned to that agent. Otherwise it is a hold, with the call at the tail of the queue and nothing else changed. |
| Wiring.AvailableSignalTakesAtMostOne | src/server.ts:74-88 | One AgentAvailable delivery either changes nothing, or takes exactly the head of the queue and hands it to the first available agent, whoever that is. A redirect is sent exactly when a call was taken and the signalled agent has a conference. It carries the taken call into the signalled agent's conference through the fresh caller participant, even when the queue picked a different agent. |
| Wiring.CallDisconnectedIsIgnored | src/server.ts:41-88 | No call-ended handler is registered, so a gateway disconnect changes nothing and emits nothing. |
| Wiring.ActiveCallsNeverShrink | src/server.ts:41-88 | No event removes an entry from activeCalls. |
| Wiring.LoginRegistersAgent | src/server.ts:108-120 | /login registers the token as a new, disconnected, ineligible agent, leaves the queue alone and emits nothing. |
| Wiring.SetStatusOnline | src/server.ts:125-141 | /setStatus without a token changes nothing. Going online with a known token records the created conference and participant. An unknown token fails with AgentNotFound. |
| Wiring.SetStatusOffline | src/server.ts:125-141 | Going offline clears the agent's connection and active call and ends its conference if it had one. It issues no call command and leaves the queue untouched. An unknown token fails with AgentNotFound. |
| Wiring.HangupTerminatesActiveCall | src/server.ts:146-163 | /hangup terminates the agent's active call when it has one and otherwise does nothing. State never changes, and an unknown token fails with AgentNotFound. |
| Wiring.OnlyAgentNotFoundIsRaised | src/types.ts:10-20 | The only failure any handler produces is AgentNotFound, carrying the token it was given, and only from /setStatus or /hangup. AgentOffline is never produced. |
| Invariants.InitialSatisfiesInv | src/server.ts:25-30 | The freshly constructed managers satisfy the routing invariant. |
| Invariants.StepPreservesInv | src/server.ts:41-88 | Every event preserves the routing invariant, provided an incoming call id is new. The invariant has four parts: well-formed layered agent records; distinct waiting calls never handed out; each agent's active call recorded against it; callers wait only while nobody is available. |
| Invariants.RunPreservesInv | src/server.ts:41-88 | Every state reachable by a trace with new call ids satisfies the invariant. |
| Invariants.OneAgentPerCall | src/CallQueueManager.ts:11-14 | Under the invariant, no two agents handle the same call, and no waiting call is being handled. |
| Invariants.DispatchSettles | src/CallQueueManager.ts:98-116 | Delivering AgentAvailable for the only agent that may be available restores the invariant. A call leaves the queue only by going to that agent. |
| Invariants.DequeuedCallFollowsItsAgent | src/server.ts:74-88 | Under the invariant, a media event that takes a call off the queue takes its head. It assigns the call to the agent owning the event's conference and redirects it into that agent's own conference. The queue's pick and the signalled agent coincide. |
| Scenarios.HandOverWhenCallerLeaves | src/WebRtcAgentManager.ts:97-106 | Concrete trace: c1 is answered and c2 held. When c1's leg leaves the conference, the agent is freed and c2 is redirected to it. |
| Scenarios.ActiveCallsNotInjective | src/CallQueueManager.ts:11-14 | A reachable state records two different calls in activeCalls against the same agent. |
| Scenarios.MisrouteWithoutInvariant | src/server.ts:74-88 | Outside the invariant, the queue hands a call to one agent while the redirect targets another agent's conference. |

## Where the code and the design differ

- activeCalls is described as tracking which agent handles each call. Its only deletion is in
  `disconnectCall`, and no call-ended handler is ever registered (`src/server.ts:41-88`), so
  entries are never removed. `Scenarios.ActiveCallsNotInjective` shows an agent recorded against
  two calls. "One call per agent" is therefore stated over each agent's `activeCallId`
  (`Invariants.OneAgentPerCall`), not over activeCalls.
- The registry raises `CallEnded`, but nobody subscribes to it. `Server.ReactOne` drops it.
- `AgentOffline` is declared and never raised.
- Taking an agent offline during a call drops the call silently. The call stays in activeCalls,
  and the phone side gets no command.

## Left out

- The voice-call manager (BXML generation, its HTTP routes, the gateway API calls) is not part of this model; its effects appear only as the `Answer`, `Hold`, `Redirect` and `Terminate` commands.
- The media SDK's own behaviour (connect, start conference, create participant, subscribe, end conference) is not modelled. `subscribe` and `endConference` are sent as `Sdk` commands. `startConference` and `createParticipant` (for the agent when going online, and for the caller before an answer or redirect) send no command: they appear only through their results, the `Fresh` parameters.
- Interleaving of `async` handlers across `await` points is not modelled. Each event is handled atomically, and SDK ids are fixed when the event starts.
- Express plumbing, the HTTP responses (including the conference and participant sent back by `/setStatus`), `/ping`, static files, environment configuration and logging are omitted.
- The browser frontend is not part of this model.
- Error message texts are omitted. Errors are the `Error` datatype, carrying the agent id.
- Empty-string identifiers are excluded by the `Id` subset type, so JavaScript truthiness equals presence.
- Server.Step: a `/hangup` request without a token is modelled as a token naming no registered agent (AgentNotFound), which is what `getAgent(undefined)` does.
- Server.Step: the `/setStatus` `online` flag is a boolean; other truthy or falsy JSON values are not modelled.
- AgentManager.RemoveAgent is modelled but reachable from no route or callback, so no wiring lemma uses it.
- CallQueue.DisconnectCall is modelled but unreachable from the wiring, because its handler is never registered.
