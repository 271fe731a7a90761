/**
 Concrete runs of the service. The first follows one agent through a call, a
 second caller waiting, and the hand-over when the first caller hangs up; it
 also shows that `activeCalls` ends up holding two calls for that one agent.
 The second shows why the `AgentAvailable` wiring needs the routing
 invariant: from a state that violates it, the queue hands the call to one
 agent while the redirect goes to another agent's conference.
 */
module Scenarios {
  import opened Types
  import opened AgentManager
  import opened CallQueue
  import opened Server

  const Ids1 := Fresh("conf-a", "part-a", "leg-1")
  const Ids2 := Fresh("conf-a", "part-a", "leg-2")

  const Confs: map<ConferenceId, AgentId> := map["conf-a" := "a"]
  const A2: Agent := Agent("a", Some("conf-a"), Some("part-a"), None, None, map[])
  const A3 := A2.(streamId := Some("stream-a"))
  const A4 := A3.(activeCallId := Some("c1"))
  const A6 := A4.(callParticipants := map["leg-1" := "c1"])
  const A7 := A3.(activeCallId := Some("c2"))

  const S1 := State(Registry(map["a" := NewAgent("a")], ["a"], map[]), EmptyQueue)
  const S2 := State(Registry(map["a" := A2], ["a"], Confs), EmptyQueue)
  const S3 := State(Registry(map["a" := A3], ["a"], Confs), EmptyQueue)
  const S4 := State(Registry(map["a" := A4], ["a"], Confs), Queue([], map["c1" := "a"]))
  const S5 := State(Registry(map["a" := A4], ["a"], Confs), Queue(["c2"], map["c1" := "a"]))
  const S6 := State(Registry(map["a" := A6], ["a"], Confs), Queue(["c2"], map["c1" := "a"]))
  const S7 := State(Registry(map["a" := A7], ["a"], Confs), Queue([], map["c1" := "a", "c2" := "a"]))

  lemma LoginStep()
    ensures Step(Initial, Login("a"), Ids1) == Success(Outcome(S1, []))
  {
    assert AddAgent(EmptyRegistry, "a") == S1.registry;
  }

  lemma OnlineStep()
    ensures Step(S1, SetStatus(Some("a"), true), Ids1) == Success(Outcome(S2, []))
  {
    var a := NewAgent("a").(conferenceId := Some("conf-a"), participantId := Some("part-a"));
    assert a == A2;
    assert S1.registry.agents["a" := a] == map["a" := A2];
    assert S1.registry.conferences["conf-a" := "a"] == Confs;
    assert BringAgentOnline(S1.registry, "a", "conf-a", "part-a") == Success(S2.registry);
  }

  lemma PublishStep()
    ensures Step(S2, ParticipantPublished("conf-a", "part-a", "stream-a"), Ids1) == Success(Outcome(S3, []))
  {
    assert Owner(S2.registry, "conf-a") == Some("a");
    assert S2.registry.agents["a" := A3] == map["a" := A3];
    var t := OnParticipantPublished(S2.registry, "conf-a", "part-a", "stream-a");
    assert t == Transition(S3.registry, [Raise(AgentAvailable("a"))]);
    assert S2.(registry := S3.registry) == S3;
    assert OnAgentAvailable(S3, "a", Ids1) == Outcome(S3, []);
    assert React(S3, [], Ids1) == Outcome(S3, []);
    assert React(S3, t.outputs, Ids1) == Outcome(S3, []);
  }

  lemma FirstCallStep()
    ensures Step(S3, IncomingCall("c1"), Ids1) == Success(Outcome(S4, [Answer("c1", "conf-a", "leg-1")]))
  {
    assert FirstEligibleFrom(S3.registry, 0) == 0;
    assert GetAvailableAgent(S3.registry) == Some("a");
    assert S3.registry.agents["a" := A4] == map["a" := A4];
    assert AssignCall(S3.registry, "a", "c1") == Success(S4.registry);
    assert EmptyQueue.activeCalls["c1" := "a"] == map["c1" := "a"];
  }

  lemma SecondCallStep()
    ensures Step(S4, IncomingCall("c2"), Ids1) == Success(Outcome(S5, [Hold("c2")]))
  {
    assert FirstEligibleFrom(S4.registry, 1) == 1;
    assert FirstEligibleFrom(S4.registry, 0) == 1;
    assert GetAvailableAgent(S4.registry) == None;
    assert S4.queue.callQueue + ["c2"] == ["c2"];
  }

  lemma JoinStep()
    ensures Step(S5, ParticipantJoined("conf-a", "leg-1"), Ids1) == Success(Outcome(S6, [Sdk(Subscribe("conf-a", "leg-1", "stream-a"))]))
  {
    assert Owner(S5.registry, "conf-a") == Some("a");
    assert A4.callParticipants["leg-1" := "c1"] == map["leg-1" := "c1"];
    assert S5.registry.agents["a" := A6] == map["a" := A6];
    var t := OnParticipantJoined(S5.registry, "conf-a", "leg-1");
    assert t == Transition(S6.registry, [Media(Subscribe("conf-a", "leg-1", "stream-a"))]);
    assert S5.(registry := S6.registry) == S6;
    assert React(S6, [], Ids1) == Outcome(S6, []);
    assert React(S6, t.outputs, Ids1) == Outcome(S6, [Sdk(Subscribe("conf-a", "leg-1", "stream-a"))]);
  }

  lemma LeaveStep()
    ensures Step(S6, ParticipantLeft("conf-a", "leg-1"), Ids2) == Success(Outcome(S7, [Redirect("c2", "conf-a", "leg-2")]))
  {
    assert Owner(S6.registry, "conf-a") == Some("a");
    assert A6.callParticipants - {"leg-1"} == map[];
    assert EndsActiveCall(A6, "leg-1");
    assert A6.(callParticipants := map[]).(activeCallId := None) == A3;
    assert S6.registry.agents["a" := A3] == map["a" := A3];
    var t := OnParticipantLeft(S6.registry, "conf-a", "leg-1");
    var freed := Registry(map["a" := A3], ["a"], Confs);
    assert t == Transition(freed, [Raise(CallEnded("c1")), Raise(AgentAvailable("a"))]);
    var s := State(freed, S6.queue);
    assert FirstEligibleFrom(freed, 0) == 0;
    assert GetAvailableAgent(freed) == Some("a");
    assert freed.agents["a" := A7] == map["a" := A7];
    assert AssignCall(freed, "a", "c2") == Success(S7.registry);
    assert S6.queue.callQueue[1..] == [];
    assert S6.queue.activeCalls["c2" := "a"] == map["c1" := "a", "c2" := "a"];
    assert GetNextActiveCallId(S6.queue, freed) == Dispatched(S7.queue, S7.registry, Some("c2"));
    assert OnAgentAvailable(s, "a", Ids2) == Outcome(S7, [Redirect("c2", "conf-a", "leg-2")]);
    assert S6.(registry := freed) == s;
    assert React(S7, [], Ids2) == Outcome(S7, []);
    assert React(s, t.outputs[1..], Ids2) == Outcome(S7, [Redirect("c2", "conf-a", "leg-2")]);
    assert React(s, t.outputs, Ids2) == Outcome(S7, [Redirect("c2", "conf-a", "leg-2")]);
  }

  function HandOverTrace(): (trace: seq<Input>)
  {
    [ Input(Login("a"), Ids1),
      Input(SetStatus(Some("a"), true), Ids1),
      Input(ParticipantPublished("conf-a", "part-a", "stream-a"), Ids1),
      Input(IncomingCall("c1"), Ids1),
      Input(IncomingCall("c2"), Ids1),
      Input(ParticipantJoined("conf-a", "leg-1"), Ids1),
      Input(ParticipantLeft("conf-a", "leg-1"), Ids2) ]
  }

  /** Agent `a` logs in, goes online and publishes; call `c1` is answered by
      `a`, call `c2` is held; `c1`'s leg joins and then leaves the conference,
      which ends `c1`, frees `a` and hands `c2` to `a` by redirect. */
  lemma HandOverWhenCallerLeaves()
    ensures Step(S3, IncomingCall("c1"), Ids1).value.commands == [Answer("c1", "conf-a", "leg-1")]
    ensures Step(S4, IncomingCall("c2"), Ids1).value.commands == [Hold("c2")]
    ensures Step(S6, ParticipantLeft("conf-a", "leg-1"), Ids2).value.commands == [Redirect("c2", "conf-a", "leg-2")]
    ensures Run(Initial, HandOverTrace()) == S7
    ensures S7.queue.callQueue == [] && S7.registry.agents["a"].activeCallId == Some("c2")
  {
    LoginStep();
    OnlineStep();
    PublishStep();
    FirstCallStep();
    SecondCallStep();
    JoinStep();
    LeaveStep();
    var t := HandOverTrace();
    assert Run(S7, t[7..]) == S7;
    assert Run(S6, t[6..]) == S7;
    assert Run(S5, t[5..]) == S7;
    assert Run(S4, t[4..]) == S7;
    assert Run(S3, t[3..]) == S7;
    assert Run(S2, t[2..]) == S7;
    assert Run(S1, t[1..]) == S7;
  }

  /** In a state the service reaches, `activeCalls` records two different
      calls against the same agent. */
  lemma ActiveCallsNotInjective()
    ensures exists c1: CallId, c2: CallId ::
      var q := Run(Initial, HandOverTrace()).queue;
      && c1 != c2 && c1 in q.activeCalls && c2 in q.activeCalls
      && q.activeCalls[c1] == q.activeCalls[c2]
  {
    HandOverWhenCallerLeaves();
    var q := Run(Initial, HandOverTrace()).queue;
    assert "c1" in q.activeCalls && "c2" in q.activeCalls;
    assert q.activeCalls["c1"] == q.activeCalls["c2"];
  }

  const MA: Agent := Agent("a", Some("conf-a"), Some("part-a"), Some("stream-a"), None, map[])
  const MB: Agent := Agent("b", Some("conf-b"), Some("part-b"), None, None, map[])
  const MB1 := MB.(streamId := Some("stream-b"))
  const MConfs: map<ConferenceId, AgentId> := map["conf-a" := "a", "conf-b" := "b"]
  const M0 := State(Registry(map["a" := MA, "b" := MB], ["a", "b"], MConfs), Queue(["c"], map[]))
  const M1 := State(Registry(map["a" := MA, "b" := MB1], ["a", "b"], MConfs), Queue(["c"], map[]))
  const M2 := State(Registry(map["a" := MA.(activeCallId := Some("c")), "b" := MB1], ["a", "b"], MConfs),
                    Queue([], map["c" := "a"]))

  /** Outside the invariant the wiring misroutes: agent `b` publishes while
      `a`, first in registration order, is already idle and a call waits. The
      queue hands the call to `a`, yet the redirect targets `b`'s conference. */
  lemma MisrouteWithoutInvariant()
    ensures Eligible(M0.registry, "a") && M0.queue.callQueue == ["c"]
    ensures var o := Step(M0, ParticipantPublished("conf-b", "part-b", "stream-b"), Ids1).value;
      && "c" in o.state.queue.activeCalls
      && o.state.queue.activeCalls["c"] == "a"
      && o.commands == [Redirect("c", "conf-b", "leg-1")]
  {
    var r := M0.registry;
    assert Owner(r, "conf-b") == Some("b");
    assert r.agents["b" := MB1] == M1.registry.agents;
    var t := OnParticipantPublished(r, "conf-b", "part-b", "stream-b");
    assert t == Transition(M1.registry, [Raise(AgentAvailable("b"))]);
    assert M0.(registry := M1.registry) == M1;
    var r1 := M1.registry;
    assert FirstEligibleFrom(r1, 0) == 0;
    assert GetAvailableAgent(r1) == Some("a");
    assert r1.agents["a" := MA.(activeCallId := Some("c"))] == M2.registry.agents;
    assert AssignCall(r1, "a", "c") == Success(M2.registry);
    assert M1.queue.callQueue[1..] == [];
    assert M1.queue.activeCalls["c" := "a"] == map["c" := "a"];
    assert GetNextActiveCallId(M1.queue, r1) == Dispatched(M2.queue, M2.registry, Some("c"));
    assert ConferenceOf(M2.registry, "b") == Some("conf-b");
    assert OnAgentAvailable(M1, "b", Ids1) == Outcome(M2, [Redirect("c", "conf-b", "leg-1")]);
    assert React(M2, [], Ids1) == Outcome(M2, []);
    assert React(M1, t.outputs, Ids1) == Outcome(M2, [Redirect("c", "conf-b", "leg-1")]);
  }
}
