/** A failover on a fleet of two nodes with a willing environment: it recovers, and leaves its model without a route. */
module FailoverExample {
  import opened Common
  import opened Fleet
  import opened Orchestrator
  import opened Failover

  const PLAN := Plan("p2", "m", "q4", [HOST])
  const HOST := Assignment("n2", Role.Host, 0, 32, false)

  /** The deployment whose node went down. */
  const OLD := Deployment("old", "m", "p1", Active,
                          Detail("m", "q4", "n1", "http://engine1", [EngineRef("n1", "agent1", Role.Host, "h1")],
                                 "p2", false))

  /** Every node resolves, every start reports READY and the gateway takes every call. */
  function Willing(): (env: Env) {
    Env((t, n) => Some(Endpoint("agent2", "engine2")), (t, a, r) => Stream([ReadyEvent("h2")]), t => true, t => "new")
  }

  /** Before the failover the model is routed to the deployment whose node went down. */
  function Before(): (s: Snapshot) {
    Snapshot([OLD], map["p2" := PLAN], map["m" := RouteOf(OLD)], [])
  }

  lemma PlanUsable()
    ensures Usable(PLAN) && Order(PLAN) == [HOST]
  {
    assert PLAN.assignments[..0] == [];
    assert WithRole([], Worker) == [] && WithRole([], Role.Host) == [];
  }

  /** Such an environment blocks no engine, so an accepted plan always comes up. */
  lemma WillingRealizes(s: Snapshot, plan: Plan, a: Applied, s1: Snapshot)
    requires ApplyOutcome(Willing(), true, s, Some(plan), a, s1) && Usable(plan)
    ensures !a.FailedDeployment?
  {
    forall full, nodeId ensures !Blocked(Willing(), full, nodeId) {
      assert Outcome([ReadyEvent("h2")]) == Some("h2");
    }
  }

  lemma Recovers(orch: Controller, r: FailoverResult, s1: Snapshot)
    requires orch.env == Willing() && orch.hasAgents && FailoverOutcome(orch, Before(), "old", r, s1)
    ensures r.Recovered?
  {
    PlanUsable();
    if r.ApplyFailed? {
      var a: Applied :| !a.Deployed? && ApplyOutcome(Willing(), true, Before(), Some(PLAN), a, s1);
      WillingRealizes(Before(), PLAN, a, s1);
    }
  }

  /** From that state and environment, the call of Failover recovers and ends without a route for the model. */
  method RouteLost(act: Actuator) returns (r: FailoverResult)
    requires act.orch.env == Willing() && act.orch.hasAgents && act.orch.cluster.Now() == Before()
    modifies act.orch.cluster
    ensures "m" in Before().routes && r.Recovered? && "m" !in act.orch.cluster.routes
  {
    r := act.Failover("old");
    Recovers(act.orch, r, act.orch.cluster.Now());
    AcceptingGatewayUnroutes(act.orch, Before(), "old", r.newId, act.orch.cluster.Now());
  }
}
