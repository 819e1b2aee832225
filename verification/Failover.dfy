/** Recovery by the actuator: make the replacement first, then break the failed deployment. */
module Failover {
  import opened Common
  import opened Fleet
  import opened Orchestrator
  import opened Routes

  datatype FailoverResult = NotFound | NoAlternatePlan | PlanMissing | ApplyFailed | Recovered(newId: string)

  /** No stop is issued before this row was written. */
  ghost predicate StopsOnlyAfter(tr: seq<Event>, row: Deployment) {
    forall i :: 0 <= i < |tr| && tr[i].StopEngine? ==> exists j :: 0 <= j < i && tr[j] == RowWritten(row)
  }

  lemma {:induction false} StopsAre(tr: seq<Event>, a: string, h: string)
    ensures (a, h) in Stops(tr) <==> exists i :: 0 <= i < |tr| && tr[i] == StopEngine(a, h)
  {
    if tr != [] {
      var front := tr[..|tr| - 1];
      StopsAre(front, a, h);
      if i :| 0 <= i < |front| && front[i] == StopEngine(a, h) {
        assert tr[i] == StopEngine(a, h);
      }
      if i :| 0 <= i < |tr| && tr[i] == StopEngine(a, h) {
        if i < |front| { assert front[i] == tr[i]; }
      }
    }
  }

  lemma NoStopEvents(tr: seq<Event>)
    requires Stops(tr) == []
    ensures forall i :: 0 <= i < |tr| ==> !tr[i].StopEngine?
  {
    forall i | 0 <= i < |tr| ensures !tr[i].StopEngine? {
      if tr[i].StopEngine? { StopsAre(tr, tr[i].agentAddr, tr[i].handle); }
    }
  }

  lemma MakeThenBreak(make: seq<Event>, undo: seq<Event>, row: Deployment)
    requires Stops(make) == [] && RowWritten(row) in make
    ensures StopsOnlyAfter(make + undo, row)
  {
    var tr := make + undo;
    var j :| 0 <= j < |make| && make[j] == RowWritten(row);
    NoStopEvents(make);
    forall i | 0 <= i < |tr| && tr[i].StopEngine? ensures exists j :: 0 <= j < i && tr[j] == RowWritten(row) {
      assert tr[j] == RowWritten(row);
    }
  }

  class Actuator {
    const orch: Controller

    constructor (orch: Controller)
      ensures this.orch == orch
    {
      this.orch := orch;
    }

    /**
     * Applies the alternate plan, then tears the failed deployment down. Nothing of the old deployment is
     * touched unless and until the replacement is ACTIVE.
     */
    method Failover(id: string) returns (r: FailoverResult)
      requires orch.cluster.Valid()
      modifies orch.cluster
      ensures orch.cluster.Valid() && orch.cluster.plans == old(orch.cluster.plans)
      ensures old(orch.cluster.trace) <= orch.cluster.trace
      ensures FailoverOutcome(orch, old(orch.cluster.Now()), id, r, orch.cluster.Now())
      ensures !r.Recovered? ==>
                && old(orch.cluster.deployments) <= orch.cluster.deployments
                && orch.cluster.routes == old(orch.cluster.routes)
                && Stops(orch.cluster.trace[|old(orch.cluster.trace)|..]) ==
                  Reversed(Refs(Readies(orch.cluster.trace[|old(orch.cluster.trace)|..])))
    {
      var cluster := orch.cluster;
      ghost var before, t0 := cluster.deployments, cluster.trace;
      assert t0[|t0|..] == [];
      var found := Find(cluster.deployments, id);
      if found.None? { return NotFound; }
      var row := cluster.deployments[found.value];
      if row.detail.failoverPlanId == "" { return NoAlternatePlan; }
      if row.detail.failoverPlanId !in cluster.plans { return PlanMissing; }
      var plan := cluster.plans[row.detail.failoverPlanId];
      var applied := orch.Apply(Some(plan));
      if !applied.Deployed? { return ApplyFailed; }
      ghost var mid := cluster.Now();
      assert mid.deployments[found.value] == row;
      FindUnique(mid.deployments, found.value);
      var torn := orch.Teardown(id);
      RecoveredOutcome(orch, old(cluster.Now()), id, applied.id, mid, cluster.Now());
      r := Recovered(applied.id);
    }

    /** Cleanup of an orphaned deployment is a plain teardown. */
    method Cleanup(id: string) returns (ok: bool)
      requires orch.cluster.Valid()
      modifies orch.cluster
      ensures orch.cluster.Valid() && orch.cluster.plans == old(orch.cluster.plans)
      ensures old(orch.cluster.trace) <= orch.cluster.trace
      ensures TeardownOutcome(orch.env, old(orch.cluster.Now()), id, ok, orch.cluster.Now())
    {
      ok := orch.Teardown(id);
    }
  }

  /** What each result says about the world before and after. */
  ghost predicate FailoverOutcome(orch: Controller, s: Snapshot, id: string, r: FailoverResult, s1: Snapshot) {
    var found := Find(s.deployments, id);
    if r.NotFound? then found.None? && s1 == s
    else
      && found.Some?
      && var planId := s.deployments[found.value].detail.failoverPlanId;
         match r
         case NoAlternatePlan => planId == "" && s1 == s
         case PlanMissing => planId != "" && planId !in s.plans && s1 == s
         case ApplyFailed =>
           && s1.plans == s.plans && s1.routes == s.routes && s.trace <= s1.trace
           && planId != "" && planId in s.plans && s.deployments <= s1.deployments
           && exists a: Applied ::
                !a.Deployed? && ApplyOutcome(orch.env, orch.hasAgents, s, Some(s.plans[planId]), a, s1)
         case Recovered(newId) =>
           && s1.plans == s.plans && planId != "" && planId in s.plans && s.trace <= s1.trace
           && RecoveredFrom(s.deployments, found.value, s.plans[planId], s1.deployments, s1.trace[|s.trace|..])
           && newId == s1.deployments[|s.deployments|].id
           && s1.routes ==
             FailoverRoutes(orch.env, s.routes, s1.trace, s1.deployments[|s.deployments|], s.deployments[found.value])
           && exists mid :: AppliedThenTornDown(orch, s, id, s.plans[planId], newId, mid, s1)
  }

  /** The plan was realized, by agents that answered as the trace says, and then the old deployment was torn down. */
  ghost predicate AppliedThenTornDown(orch: Controller, s: Snapshot, id: string, plan: Plan, newId: string,
                                      mid: Snapshot, s1: Snapshot) {
    && ApplyOutcome(orch.env, orch.hasAgents, s, Some(plan), Deployed(newId), mid)
    && TeardownOutcome(orch.env, mid, id, true, s1)
  }

  /** Which result a failover has, as far as the registry decides it, and that then nothing was done. */
  lemma FailoverReasons(orch: Controller, s: Snapshot, id: string, r: FailoverResult, s1: Snapshot)
    requires FailoverOutcome(orch, s, id, r, s1)
    ensures r == NotFound <==> Find(s.deployments, id).None?
    ensures r != NotFound ==>
              var alternate := s.deployments[Find(s.deployments, id).value].detail.failoverPlanId;
              && (r == NoAlternatePlan <==> alternate == "")
              && (r == PlanMissing <==> alternate != "" && alternate !in s.plans)
    ensures r == NotFound || r == NoAlternatePlan || r == PlanMissing ==> s1 == s
  {
  }

  // ---- The gateway table ------------------------------------------------------------------

  /** The part of a failover's trace before the teardown; it ends with the push of the new route. */
  function MadeTrace(full: seq<Event>, row: Deployment): (t: seq<Event>) {
    if |TeardownTrace(row)| <= |full| then full[..|full| - |TeardownTrace(row)|] else []
  }

  /** The gateway accepts the push of the new route. */
  predicate PushAccepted(env: Env, full: seq<Event>, row: Deployment) {
    var t := MadeTrace(full, row);
    t != [] && env.gatewayOk(t[..|t| - 1])
  }

  /** The teardown asks the gateway to drop the old deployment's model, and the gateway accepts. */
  predicate DropAccepted(env: Env, full: seq<Event>, row: Deployment) {
    && row.detail.modelId != ""
    && env.gatewayOk(MadeTrace(full, row) + [RowWritten(row.(state := Stopping))]
                     + StopEvents(Reversed(row.detail.engines)))
  }

  /** First the new route is pushed, then the route of the old deployment's model is dropped. */
  function FailoverRoutes(env: Env, routes: map<string, Route>, full: seq<Event>, made: Deployment,
                          row: Deployment): (r: map<string, Route>) {
    var pushed := if PushAccepted(env, full, row) then routes[made.detail.modelId := RouteOf(made)] else routes;
    if DropAccepted(env, full, row) then pushed - {row.detail.modelId} else pushed
  }

  /**
   * When the recovered model is routed right after the failover: to the new deployment if and only if the gateway took
   * the push (or held that very route) and did not then drop the model; to anything if and only if it took the push or
   * held a route and did not then drop the model.
   */
  lemma RoutedRightAfter(orch: Controller, s: Snapshot, id: string, newId: string, s1: Snapshot)
    requires FailoverOutcome(orch, s, id, Recovered(newId), s1)
    ensures var row, made := s.deployments[Find(s.deployments, id).value], s1.deployments[|s.deployments|];
            var m := made.modelId;
            var pushed := PushAccepted(orch.env, s1.trace, row);
            var dropped := row.detail.modelId == m && DropAccepted(orch.env, s1.trace, row);
            && (At(s1.routes, m) == Some(RouteOf(made)) <==>
                (pushed || At(s.routes, m) == Some(RouteOf(made))) && !dropped)
            && (m in s1.routes <==> (pushed || m in s.routes) && !dropped)
  {
    MadeFacts(orch, s, id, newId, s1);
    FailoverRoutesAt(orch.env, s.routes, s1.trace, s1.deployments[|s.deployments|],
                     s.deployments[Find(s.deployments, id).value]);
  }

  lemma FailoverRoutesAt(env: Env, routes: map<string, Route>, full: seq<Event>, made: Deployment, row: Deployment)
    ensures var after, m := FailoverRoutes(env, routes, full, made, row), made.detail.modelId;
            var pushed := PushAccepted(env, full, row);
            var dropped := row.detail.modelId == m && DropAccepted(env, full, row);
            && (At(after, m) == Some(RouteOf(made)) <==> (pushed || At(routes, m) == Some(RouteOf(made))) && !dropped)
            && (m in after <==> (pushed || m in routes) && !dropped)
  {
  }

  /** The new row is for the plan's model, and something happened before the teardown. */
  lemma MadeFacts(orch: Controller, s: Snapshot, id: string, newId: string, s1: Snapshot)
    requires FailoverOutcome(orch, s, id, Recovered(newId), s1)
    ensures var row, made := s.deployments[Find(s.deployments, id).value], s1.deployments[|s.deployments|];
            && made.detail.modelId == made.modelId == s.plans[row.detail.failoverPlanId].modelId
            && MadeTrace(s1.trace, row) != []
  {
    var row, made := s.deployments[Find(s.deployments, id).value], s1.deployments[|s.deployments|];
    var plan, tr := s.plans[row.detail.failoverPlanId], s1.trace[|s.trace|..];
    var make :| tr == make + TeardownTrace(row) && Realized(plan, made, make, true);
    assert RowWritten(made) in make;
    assert |s1.trace| >= |tr| > |TeardownTrace(row)|;
  }

  /**
   * With a gateway that takes every call, the recovered model is left without a route exactly when the plan is for the
   * model recorded with the failed deployment.
   */
  lemma AcceptingGatewayUnroutes(orch: Controller, s: Snapshot, id: string, newId: string, s1: Snapshot)
    requires FailoverOutcome(orch, s, id, Recovered(newId), s1) && forall t :: orch.env.gatewayOk(t)
    ensures var row := s.deployments[Find(s.deployments, id).value];
            var m := s.plans[row.detail.failoverPlanId].modelId;
            m in s1.routes <==> row.detail.modelId == "" || row.detail.modelId != m
  {
    MadeFacts(orch, s, id, newId, s1);
    AcceptedRoutesAt(orch.env, s.routes, s1.trace, s1.deployments[|s.deployments|],
                     s.deployments[Find(s.deployments, id).value]);
  }

  lemma AcceptedRoutesAt(env: Env, routes: map<string, Route>, full: seq<Event>, made: Deployment, row: Deployment)
    requires (forall t :: env.gatewayOk(t)) && MadeTrace(full, row) != []
    ensures var m := made.detail.modelId;
            m in FailoverRoutes(env, routes, full, made, row) <==> row.detail.modelId == "" || row.detail.modelId != m
  {
    FailoverRoutesAt(env, routes, full, made, row);
  }

  /**
   * A completed failover: the old row STOPPED in place, a new ACTIVE row last, the stops exactly the old engines,
   * host first, after it.
   */
  ghost predicate RecoveredFrom(before: seq<Deployment>, k: nat, plan: Plan, after: seq<Deployment>, tr: seq<Event>)
    requires k < |before|
  {
    && |after| == |before| + 1
    && after[..|before|] == before[k := before[k].(state := Stopped)]
    && var made := after[|before|];
       && made.state == Active && made.modelId == plan.modelId && made.detail.endpoint != ""
       && Usable(plan) && (exists make :: tr == make + TeardownTrace(before[k]) && Realized(plan, made, make, true))
       && Stops(tr) == Reversed(before[k].detail.engines)
       && StopsOnlyAfter(tr, made)
  }

  /** Applying the alternate plan and then tearing the old deployment down, put together. */
  lemma RecoveredOutcome(orch: Controller, s: Snapshot, id: string, newId: string, mid: Snapshot, s1: Snapshot)
    requires UniqueIds(mid.deployments) && Find(s.deployments, id).Some?
    requires var planId := s.deployments[Find(s.deployments, id).value].detail.failoverPlanId;
             planId != "" && planId in s.plans && AppliedThenTornDown(orch, s, id, s.plans[planId], newId, mid, s1)
    ensures FailoverOutcome(orch, s, id, Recovered(newId), s1)
  {
    var k := Find(s.deployments, id).value;
    var row := s.deployments[k];
    assert mid.deployments[k] == row;
    FindUnique(mid.deployments, k);
    TailConcat(mid.trace, |s.trace|, TeardownTrace(row));
    RecoveredRows(s.deployments, k, s.plans[row.detail.failoverPlanId], mid.deployments, s.trace, mid.trace);
    RecoveredTable(orch.env, s.routes, mid.routes, mid.trace, mid.deployments[|s.deployments|], row);
  }

  lemma RecoveredRows(before: seq<Deployment>, k: nat, plan: Plan, mid: seq<Deployment>, t0: seq<Event>, t1: seq<Event>)
    requires k < |before| && t0 <= t1 && |mid| == |before| + 1 && mid[..|before|] == before && Usable(plan)
    requires Realized(plan, mid[|before|], t1[|t0|..], true)
    ensures RecoveredFrom(before, k, plan, mid[k := before[k].(state := Stopped)],
                          t1[|t0|..] + TeardownTrace(before[k]))
  {
    RecoveredTrace(t0, t1, before[k], mid[|before|]);
    assert mid[k := before[k].(state := Stopped)][..|before|] == before[k := before[k].(state := Stopped)];
  }

  lemma RecoveredTable(env: Env, routes: map<string, Route>, mid: map<string, Route>, t1: seq<Event>, made: Deployment,
                       row: Deployment)
    requires Published(env, routes, mid, t1, made)
    ensures FailoverRoutes(env, routes, t1 + TeardownTrace(row), made, row) ==
            Unrouted(env, mid, t1 + [RowWritten(row.(state := Stopping))] + StopEvents(Reversed(row.detail.engines)),
                     row.detail.modelId)
  {
    assert MadeTrace(t1 + TeardownTrace(row), row) == t1;
  }

  lemma RecoveredTrace(t0: seq<Event>, t1: seq<Event>, row: Deployment, made: Deployment)
    requires t0 <= t1 && Stops(t1[|t0|..]) == [] && RowWritten(made) in t1[|t0|..]
    ensures var tr := t1[|t0|..] + TeardownTrace(row);
            Stops(tr) == Reversed(row.detail.engines) && StopsOnlyAfter(tr, made)
  {
    TeardownStops(row);
    TraceConcat(t1[|t0|..], TeardownTrace(row));
    MakeThenBreak(t1[|t0|..], TeardownTrace(row), made);
  }

  /** With fresh handles, a failover that did not complete has told no old engine to stop. */
  lemma OldEnginesUntouched(tr: seq<Event>, retired: seq<EngineRef>, e: EngineRef)
    requires Stops(tr) == Reversed(Refs(Readies(tr))) && e in retired
    requires forall i, j :: 0 <= i < |Readies(tr)| && 0 <= j < |retired| ==>
               Readies(tr)[i].0.handle != retired[j].handle
    ensures StopEngine(e.agentAddr, e.handle) !in tr
  {
    StopsAre(tr, e.agentAddr, e.handle);
    var j :| 0 <= j < |retired| && retired[j] == e;
    var stops := Stops(tr);
    forall i | 0 <= i < |stops| ensures stops[i] != (e.agentAddr, e.handle) {
      assert stops[i].1 == Readies(tr)[|stops| - 1 - i].0.handle;
    }
  }

  /**
   * Whatever the gateway table has become, whatever of it the next route pass observes and however its other calls
   * fail, that pass routes the recovered model to the new deployment unless the push of this very model fails.
   */
  lemma RoutedAfterFailover(orch: Controller, s: Snapshot, id: string, newId: string, s1: Snapshot,
                            routes: map<string, Route>, observed: set<string>, f: Faults)
    requires FailoverOutcome(orch, s, id, Recovered(newId), s1)
    requires s1.deployments[|s.deployments|].modelId != ""
    requires !FailedAt(Desired(s1.deployments), observed, f, s1.deployments[|s.deployments|].modelId)
    ensures var row, made := s.deployments[Find(s.deployments, id).value], s1.deployments[|s.deployments|];
            var after := AfterRoutes(routes, Desired(s1.deployments), observed, f);
            && At(after, made.modelId) == Some(RouteFor(made))
            && made.modelId == s.plans[row.detail.failoverPlanId].modelId && made.state == Active
            && (made.modelId == ModelOf(row) ==> At(after, ModelOf(row)) == Some(RouteFor(made)))
  {
    var m := s1.deployments[|s.deployments|].modelId;
    var want := Desired(s1.deployments);
    DesiredIsLast(s1.deployments, m);
    assert LastFor(s1.deployments, m, |s.deployments|);
    assert At(AfterRoutes(routes, want, observed, f), m) == AfterAt(At(routes, m), At(want, m), m in observed, f, m);
  }
}
