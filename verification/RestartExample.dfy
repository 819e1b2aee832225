/** One deployment and one restart of its engine: the engine that was running before is never told to stop. */
module RestartExample {
  import opened Common
  import opened Fleet
  import opened Orchestrator
  import opened EngineLedger

  const HOST := Assignment("n", Role.Host, 0, 32, false)
  const PLAN := Plan("p", "m", "q4", [HOST])

  /** Every node resolves and every start reports READY, under another handle when it names no layers: a restart. */
  function Answering(): (env: Env) {
    Env((t, n) => Some(Endpoint("agent", "engine")),
        (t, a, r: StartRequest) => Stream([ReadyEvent(if r.layerEnd == 0 then "h2" else "h1")]), t => true, t => "d")
  }

  lemma PlanUsable()
    ensures Usable(PLAN) && Order(PLAN) == [HOST]
  {
    assert PLAN.assignments[..0] == [];
    assert WithRole([], Worker) == [] && WithRole([], Role.Host) == [];
  }

  lemma NotBlocked(full: seq<Event>, nodeId: string)
    ensures !Blocked(Answering(), full, nodeId)
  {
    if full != [] && full[|full| - 1].StartEngine? {
      AnswerHandle(full[..|full| - 1], full[|full| - 1].at.agentAddr, full[|full| - 1].req);
    }
  }

  lemma AnswerHandle(t: seq<Event>, a: string, r: StartRequest)
    ensures ReadyHandle(Answering().start(t, a, r)) == Some(if r.layerEnd == 0 then "h2" else "h1")
  {
    var h := if r.layerEnd == 0 then "h2" else "h1";
    assert Answering().start(t, a, r) == Stream([ReadyEvent(h)]);
    assert Outcome([ReadyEvent(h)]) == Some(h);
  }

  /** The start at i, for the next assignment and where the resolver pointed, was answered by this READY report. */
  ghost predicate Answered(env: Env, p: Plan, full: seq<Event>, i: nat, x: (EngineRef, Endpoint))
    requires Usable(p)
  {
    && i < |full| && full[i].StartEngine? && NextStart(p, Readies(full[..i]), full[i])
    && env.resolve(full[..i], full[i].nodeId) == Some(x.1)
    && ReadyHandle(env.start(full[..i], x.1.agentAddr, full[i].req)) == Some(x.0.handle)
  }

  /** In a trace from the beginning, every engine READY is the agent's answer to the start of an assignment. */
  lemma {:induction false} ReadyAnswered(env: Env, p: Plan, full: seq<Event>, m: nat, x: (EngineRef, Endpoint))
    requires Usable(p) && m <= |full| && Choreographed(p, full) && Follows(env, full[..m], 0) && x in Readies(full[..m])
    ensures exists i: nat :: Answered(env, p, full, i, x)
    decreases m
  {
    var t := full[..m];
    assert t[..m - 1] == full[..m - 1];
    if x in Readies(full[..m - 1]) {
      ReadyAnswered(env, p, full, m - 1, x);
    } else {
      assert full[..m - 1][..m - 2] == full[..m - 2];
      ChoreographedAt(p, full, m - 2);
      assert Answered(env, p, full, m - 2, x);
    }
  }

  /** If one engine became READY in a choreographed trace from the beginning, it is this one, under the first handle. */
  lemma FirstHandle(full: seq<Event>, m: nat)
    requires Usable(PLAN) && Choreographed(PLAN, full) && InOrder(PLAN, Readies(full)) && |Readies(full)| == 1
    requires m <= |full| && Follows(Answering(), full[..m], 0) && Readies(full[..m]) == Readies(full)
    ensures Refs(Readies(full)) == [EngineRef("n", "agent", Role.Host, "h1")]
  {
    PlanUsable();
    var x := Readies(full)[0];
    ReadyAnswered(Answering(), PLAN, full, m, x);
    var i: nat :| Answered(Answering(), PLAN, full, i, x);
    AnswerHandle(full[..i], x.1.agentAddr, full[i].req);
  }

  /** Nothing is blocked, so the one engine becomes READY. */
  lemma OneReady(full: seq<Event>)
    requires Usable(PLAN) && Choreographed(PLAN, full) && InOrder(PLAN, Readies(full))
    requires Explained(Answering(), PLAN, full, 0)
    ensures Refs(Readies(full)) == [EngineRef("n", "agent", Role.Host, "h1")]
  {
    PlanUsable();
    assert full[0..] == full;
    var m :| 0 <= m <= |full| && Follows(Answering(), full[..m], 0) && Readies(full[0..m]) == Readies(full[0..])
             && (|Readies(full[0..])| < |Order(PLAN)| ==>
                   Blocked(Answering(), full[..m], Order(PLAN)[|Readies(full[0..])|].nodeId));
    assert full[0..m] == full[..m];
    NotBlocked(full[..m], "n");
    FirstHandle(full, m);
  }

  /** Applying the plan from nothing brings up one engine, under the first handle. */
  lemma Applies(s: Snapshot, r: Applied, s1: Snapshot)
    requires ApplyOutcome(Answering(), true, s, Some(PLAN), r, s1) && s.deployments == [] && s.trace == []
    ensures Stops(s1.trace) == [] && Reported(s1.trace) == {("agent", "h1")}
    ensures |s1.deployments| == 1 && s1.deployments[0].id == "d"
    ensures s1.deployments[0].detail.engines == [EngineRef("n", "agent", Role.Host, "h1")]
  {
    PlanUsable();
    assert s1.trace[0..] == s1.trace;
    OneReady(s1.trace);
    assert HandleOf(Refs(Readies(s1.trace))[0]) == ("agent", "h1");
  }

  /** Restarting that engine replaces its handle and stops nothing. */
  lemma Restarts(s: Snapshot, ok: bool, s1: Snapshot)
    requires RestartOutcome(Answering(), s, "d", "n", ok, s1)
    requires |s.deployments| == 1 && s.deployments[0].id == "d"
    requires s.deployments[0].detail.engines == [EngineRef("n", "agent", Role.Host, "h1")]
    ensures ok && Stops(s1.trace) == Stops(s.trace) && Reported(s.trace) <= Reported(s1.trace)
    ensures |s1.deployments| == 1 && s1.deployments[0].detail.engines == [EngineRef("n", "agent", Role.Host, "h2")]
  {
    var row := s.deployments[0];
    EngineOnFirst(row.detail.engines, "n", 0);
    AnswerHandle(s.trace, "agent", RestartRequest(row, 0));
    var start := StartEngine("n", Endpoint("agent", ""), RestartRequest(row, 0));
    var ready := EngineReady(EngineRef("n", "agent", Role.Host, "h2"), Endpoint("agent", ""));
    var again := RowWritten(Restarted(row, 0, "h2"));
    var tail := [start] + [ready] + [again];
    RestartTail(start, ready, again);
    assert s1.trace == s.trace + tail;
    TraceGrows(s.trace, tail);
    TraceConcat(s.trace, tail);
  }

  lemma Unaccounted(s: Snapshot)
    requires Stops(s.trace) == [] && |s.deployments| == 1
    requires s.deployments[0].detail.engines == [EngineRef("n", "agent", Role.Host, "h2")]
    ensures !Accounted(s, ("agent", "h1"))
  {
  }

  /** From an empty registry: deploy, restart, and the first engine is neither recorded nor ever told to stop. */
  method EngineLeft(c: Controller) returns (h: Handle)
    requires c.env == Answering() && c.hasAgents && c.cluster.deployments == [] && c.cluster.trace == []
    modifies c.cluster
    ensures h in Reported(c.cluster.trace) && !Accounted(c.cluster.Now(), h)
  {
    ghost var s := c.cluster.Now();
    var r := c.Apply(Some(PLAN));
    Applies(s, r, c.cluster.Now());
    s := c.cluster.Now();
    var ok := c.RestartEngine("d", "n");
    Restarts(s, ok, c.cluster.Now());
    Unaccounted(c.cluster.Now());
    h := ("agent", "h1");
  }
}
