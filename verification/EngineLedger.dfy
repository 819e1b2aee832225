/** Which engines are still accounted for, over every run of the operations that start and stop them. */
module EngineLedger {
  import opened Common
  import opened Fleet
  import opened Orchestrator
  import Failover

  // ---- Handles ----------------------------------------------------------------------------

  /** An engine as a stop command names it. */
  type Handle = (string, string)

  function HandleOf(e: EngineRef): (h: Handle) { (e.agentAddr, e.handle) }

  function Handles(es: seq<EngineRef>): (hs: set<Handle>) { set i | 0 <= i < |es| :: HandleOf(es[i]) }

  /** The engines that have reported READY. */
  function Reported(t: seq<Event>): (hs: set<Handle>) { Handles(Refs(Readies(t))) }

  /** The engines that have been told to stop. */
  function Told(t: seq<Event>): (hs: set<Handle>) { set h | h in Stops(t) }

  predicate Live(d: Deployment) { d.state != Stopped && d.state != State.Failed }

  /** A deployment that has not ended records this engine. */
  ghost predicate Held(ds: seq<Deployment>, h: Handle) {
    exists i :: 0 <= i < |ds| && Live(ds[i]) && h in Handles(ds[i].detail.engines)
  }

  ghost predicate OnRecord(ds: seq<Deployment>, h: Handle) {
    exists i :: 0 <= i < |ds| && h in Handles(ds[i].detail.engines)
  }

  /** Nothing is left running unknown: the engine can still be found, or was told to stop. */
  ghost predicate Accounted(s: Snapshot, h: Handle) {
    h in Told(s.trace) || Held(s.deployments, h)
  }

  lemma HandlesConcat(a: seq<EngineRef>, b: seq<EngineRef>)
    ensures Handles(a + b) == Handles(a) + Handles(b)
  {
    var t := a + b;
    forall h | h in Handles(a) + Handles(b) ensures h in Handles(t) {
      if h in Handles(a) {
        var i :| 0 <= i < |a| && HandleOf(a[i]) == h;
        assert HandleOf(t[i]) == h;
      } else {
        var i :| 0 <= i < |b| && HandleOf(b[i]) == h;
        assert HandleOf(t[|a| + i]) == h;
      }
    }
  }

  lemma ReversedHandles(es: seq<EngineRef>, h: Handle)
    ensures h in Reversed(es) <==> h in Handles(es)
  {
    if h in Handles(es) {
      var i :| 0 <= i < |es| && HandleOf(es[i]) == h;
      assert Reversed(es)[|es| - 1 - i] == h;
    }
    if h in Reversed(es) {
      var i :| 0 <= i < |es| && Reversed(es)[i] == h;
      assert HandleOf(es[|es| - 1 - i]) == h;
    }
  }

  /** What a longer trace adds. */
  lemma TraceGrows(t: seq<Event>, tail: seq<Event>)
    ensures Reported(t + tail) == Reported(t) + Reported(tail)
    ensures Told(t + tail) == Told(t) + Told(tail)
  {
    TraceConcat(t, tail);
    assert Refs(Readies(t) + Readies(tail)) == Refs(Readies(t)) + Refs(Readies(tail));
    HandlesConcat(Refs(Readies(t)), Refs(Readies(tail)));
  }

  // ---- Operations -------------------------------------------------------------------------

  datatype Op =
    | ApplyPlan(plan: Option<Plan>)
    | TearDown(id: string)
    | FailOver(id: string)
    | Restart(id: string, nodeId: string)
    | Stamp(id: string, planId: string)

  /** One operation, as its method's contract describes it; stamping a failover plan on a row only rewrites that row. */
  ghost predicate Does(c: Controller, s: Snapshot, op: Op, s1: Snapshot) {
    match op
    case ApplyPlan(plan) => exists r :: ApplyOutcome(c.env, c.hasAgents, s, plan, r, s1)
    case TearDown(id) => exists ok :: TeardownOutcome(c.env, s, id, ok, s1)
    case FailOver(id) => exists r :: Failover.FailoverOutcome(c, s, id, r, s1)
    case Restart(id, nodeId) => exists ok :: RestartOutcome(c.env, s, id, nodeId, ok, s1)
    case Stamp(id, planId) => Stamped(s, id, planId, s1)
  }

  ghost predicate Stamped(s: Snapshot, id: string, planId: string, s1: Snapshot) {
    var found := Find(s.deployments, id);
    && found.Some?
    && var row := s.deployments[found.value];
       var stamped := row.(detail := row.detail.(failoverPlanId := planId));
       s1.deployments == s.deployments[found.value := stamped] && s1.trace == s.trace + [RowWritten(stamped)]
  }

  /** A restart that succeeds here replaces this handle in its row. */
  ghost predicate Replaces(c: Controller, s: Snapshot, op: Op, h: Handle) {
    && op.Restart? && RestartHandle(c.env, s.deployments, s.trace, op.id, op.nodeId).Some?
    && var engines := s.deployments[Find(s.deployments, op.id).value].detail.engines;
       h == HandleOf(engines[EngineOn(engines, op.nodeId).value])
  }

  /**
   * What any operation does to rows and trace, in four shapes. A new row last records exactly what became READY, and
   * all of it was stopped if the row is not live. One row ends and all it records was stopped. One row has one engine's
   * handle replaced by one that became READY. Or nothing starts or stops, and no row's engines or state change.
   */
  datatype Effect =
    | Grows(row: Deployment)
    | Ends(k: nat)
    | Swaps(k: nat, j: nat, handle: string)
    | Quiet(k: nat, row: Deployment)

  ghost predicate Has(s: Snapshot, e: Effect, s1: Snapshot) {
    && s.trace <= s1.trace
    && var tail := s1.trace[|s.trace|..];
       match e
       case Grows(row) =>
         && s1.deployments == s.deployments + [row] && row.detail.engines == Refs(Readies(tail))
         && Stops(tail) == if Live(row) then [] else Reversed(row.detail.engines)
       case Ends(k) =>
         && k < |s.deployments| && s1.deployments == s.deployments[k := s.deployments[k].(state := Stopped)]
         && Readies(tail) == [] && Stops(tail) == Reversed(s.deployments[k].detail.engines)
       case Swaps(k, j, handle) =>
         && k < |s.deployments| && j < |s.deployments[k].detail.engines|
         && s1.deployments == s.deployments[k := Restarted(s.deployments[k], j, handle)]
         && Reported(tail) == {(s.deployments[k].detail.engines[j].agentAddr, handle)} && |Readies(tail)| == 1
         && Stops(tail) == []
       case Quiet(k, row) =>
         && Readies(tail) == [] && Stops(tail) == []
         && (s1.deployments == s.deployments
             || (k < |s.deployments| && s1.deployments == s.deployments[k := row]
                 && row.detail.engines == s.deployments[k].detail.engines && row.state == s.deployments[k].state))
  }

  /** The effect swaps this handle out. */
  ghost predicate SwapsOut(s: Snapshot, e: Effect, h: Handle) {
    && e.Swaps? && e.k < |s.deployments| && e.j < |s.deployments[e.k].detail.engines|
    && h == HandleOf(s.deployments[e.k].detail.engines[e.j])
  }

  // ---- Each operation has such effects ----------------------------------------------------

  lemma ApplyEffect(c: Controller, s: Snapshot, plan: Option<Plan>, r: Applied, s1: Snapshot) returns (e: Effect)
    requires ApplyOutcome(c.env, c.hasAgents, s, plan, r, s1)
    ensures Has(s, e, s1) && !e.Swaps?
  {
    if r.Refused? {
      assert s.trace[|s.trace|..] == [];
      e := Quiet(0, FreshRow(Plan("", "", "", []), ""));
    } else {
      var n := |s.deployments|;
      assert s1.deployments == s1.deployments[..n] + [s1.deployments[n]];
      e := Grows(s1.deployments[n]);
    }
  }

  lemma TeardownEffect(c: Controller, s: Snapshot, id: string, ok: bool, s1: Snapshot) returns (e: Effect)
    requires TeardownOutcome(c.env, s, id, ok, s1)
    ensures Has(s, e, s1) && !e.Swaps?
  {
    if ok {
      var k := Find(s.deployments, id).value;
      assert s1.trace[|s.trace|..] == TeardownTrace(s.deployments[k]);
      TeardownStops(s.deployments[k]);
      e := Ends(k);
    } else {
      assert s.trace[|s.trace|..] == [];
      e := Quiet(0, FreshRow(Plan("", "", "", []), ""));
    }
  }

  lemma RestartEffect(c: Controller, s: Snapshot, id: string, nodeId: string, ok: bool, s1: Snapshot)
    returns (e: Effect)
    requires RestartOutcome(c.env, s, id, nodeId, ok, s1)
    ensures Has(s, e, s1)
    ensures forall h :: SwapsOut(s, e, h) <==> Replaces(c, s, Restart(id, nodeId), h)
  {
    var found := Find(s.deployments, id);
    e := Quiet(0, FreshRow(Plan("", "", "", []), ""));
    if found.None? || EngineOn(s.deployments[found.value].detail.engines, nodeId).None? {
      assert s.trace[|s.trace|..] == [];
    } else {
      var row := s.deployments[found.value];
      var j := EngineOn(row.detail.engines, nodeId).value;
      var at, req := Endpoint(row.detail.engines[j].agentAddr, ""), RestartRequest(row, j);
      var start := StartEngine(nodeId, at, req);
      if !ok {
        LoneEvent(start);
        assert s1.trace[|s.trace|..] == [start];
      } else {
        var h := RestartHandle(c.env, s.deployments, s.trace, id, nodeId).value;
        var ready := EngineReady(EngineRef(nodeId, at.agentAddr, req.role, h), at);
        var again := RowWritten(Restarted(row, j, h));
        RestartTail(start, ready, again);
        assert s1.trace[|s.trace|..] == [start] + [ready] + [again];
        e := Swaps(found.value, j, h);
      }
    }
  }

  lemma LoneEvent(e: Event)
    requires !e.EngineReady? && !e.StopEngine?
    ensures Readies([e]) == [] && Stops([e]) == []
  {
    TraceAppend([], e);
    assert [] + [e] == [e];
  }

  lemma RestartTail(start: Event, ready: Event, again: Event)
    requires start.StartEngine? && ready.EngineReady? && again.RowWritten?
    ensures var tail := [start] + [ready] + [again];
            Reported(tail) == {HandleOf(ready.engine)} && |Readies(tail)| == 1 && Stops(tail) == []
  {
    LoneEvent(start);
    TraceAppend([start], ready);
    TraceAppend([start] + [ready], again);
    var rs := [(ready.engine, ready.at)];
    assert [] + rs == rs && Refs(rs) == [ready.engine];
    assert HandleOf([ready.engine][0]) == HandleOf(ready.engine);
  }

  lemma StampEffect(s: Snapshot, id: string, planId: string, s1: Snapshot) returns (e: Effect)
    requires Stamped(s, id, planId, s1)
    ensures Has(s, e, s1) && !e.Swaps?
  {
    var k := Find(s.deployments, id).value;
    var row := s1.deployments[k];
    assert s1.trace[|s.trace|..] == [RowWritten(row)];
    LoneEvent(RowWritten(row));
    e := Quiet(k, row);
  }

  lemma NoEffect(s: Snapshot) returns (e: Effect)
    ensures Has(s, e, s) && e.Quiet?
  {
    assert s.trace[|s.trace|..] == [];
    e := Quiet(0, FreshRow(Plan("", "", "", []), ""));
  }

  /** Every operation is at most two effects, and swaps out exactly the handles it replaces. */
  lemma Effects(c: Controller, s: Snapshot, op: Op, s1: Snapshot) returns (e: Effect, mid: Snapshot, f: Effect)
    requires Does(c, s, op, s1)
    ensures Has(s, e, mid) && Has(mid, f, s1) && !f.Swaps?
    ensures forall h :: SwapsOut(s, e, h) <==> Replaces(c, s, op, h)
  {
    mid := s1;
    f := NoEffect(s1);
    match op {
      case ApplyPlan(plan) =>
        var r :| ApplyOutcome(c.env, c.hasAgents, s, plan, r, s1);
        e := ApplyEffect(c, s, plan, r, s1);
      case TearDown(id) =>
        var ok :| TeardownOutcome(c.env, s, id, ok, s1);
        e := TeardownEffect(c, s, id, ok, s1);
      case FailOver(id) =>
        var r :| Failover.FailoverOutcome(c, s, id, r, s1);
        e, mid, f := FailoverEffects(c, s, id, r, s1);
      case Restart(id, nodeId) =>
        var ok :| RestartOutcome(c.env, s, id, nodeId, ok, s1);
        e := RestartEffect(c, s, id, nodeId, ok, s1);
      case Stamp(id, planId) =>
        e := StampEffect(s, id, planId, s1);
    }
  }

  lemma FailoverEffects(c: Controller, s: Snapshot, id: string, r: Failover.FailoverResult, s1: Snapshot)
    returns (e: Effect, mid: Snapshot, f: Effect)
    requires Failover.FailoverOutcome(c, s, id, r, s1)
    ensures Has(s, e, mid) && Has(mid, f, s1) && !e.Swaps? && !f.Swaps?
  {
    mid := s1;
    f := NoEffect(s1);
    if r.ApplyFailed? || r.Recovered? {
      var plan := s.plans[s.deployments[Find(s.deployments, id).value].detail.failoverPlanId];
      if r.ApplyFailed? {
        var a: Applied :| !a.Deployed? && ApplyOutcome(c.env, c.hasAgents, s, Some(plan), a, s1);
        e := ApplyEffect(c, s, Some(plan), a, s1);
      } else {
        mid :| Failover.AppliedThenTornDown(c, s, id, plan, r.newId, mid, s1);
        e := ApplyEffect(c, s, Some(plan), Deployed(r.newId), mid);
        f := TeardownEffect(c, mid, id, true, s1);
      }
    } else {
      e := NoEffect(s);
    }
  }

  // ---- Nothing is lost but by a restart ---------------------------------------------------

  /** One effect keeps an accounted engine accounted unless it swaps it out, and accounts for what it starts. */
  lemma EffectAccounts(s: Snapshot, e: Effect, s1: Snapshot, h: Handle)
    requires Has(s, e, s1)
    ensures h in Told(s.trace) ==> h in Told(s1.trace)
    ensures Accounted(s, h) && !SwapsOut(s, e, h) ==> Accounted(s1, h)
    ensures h in Reported(s1.trace) && h !in Reported(s.trace) ==> Accounted(s1, h)
  {
    var tail := s1.trace[|s.trace|..];
    assert s1.trace == s.trace + tail;
    TraceGrows(s.trace, tail);
    if h !in Told(s1.trace) {
      if Held(s.deployments, h) && !SwapsOut(s, e, h) {
        var i :| 0 <= i < |s.deployments| && Live(s.deployments[i]) && h in Handles(s.deployments[i].detail.engines);
        HeldAfter(s, e, s1, h, i);
      }
      if h in Reported(tail) { NewlyHeld(s, e, s1, h); }
    }
  }

  lemma HeldAfter(s: Snapshot, e: Effect, s1: Snapshot, h: Handle, i: nat)
    requires Has(s, e, s1) && i < |s.deployments| && Live(s.deployments[i])
    requires h in Handles(s.deployments[i].detail.engines)
    requires !SwapsOut(s, e, h) && h !in Stops(s1.trace[|s.trace|..])
    ensures Held(s1.deployments, h)
  {
    var engines := s.deployments[i].detail.engines;
    ReversedHandles(engines, h);
    if e.Swaps? && e.k == i {
      var n :| 0 <= n < |engines| && HandleOf(engines[n]) == h;
      assert HandleOf(s1.deployments[i].detail.engines[n]) == h;
    }
    assert Live(s1.deployments[i]) && h in Handles(s1.deployments[i].detail.engines);
  }

  lemma NewlyHeld(s: Snapshot, e: Effect, s1: Snapshot, h: Handle)
    requires Has(s, e, s1) && h in Reported(s1.trace[|s.trace|..]) && h !in Stops(s1.trace[|s.trace|..])
    ensures Held(s1.deployments, h)
  {
    match e
    case Grows(row) =>
      ReversedHandles(row.detail.engines, h);
      assert s1.deployments[|s.deployments|] == row;
    case Swaps(k, j, handle) =>
      assert HandleOf(s1.deployments[k].detail.engines[j]) == h;
    case Ends(k) =>
    case Quiet(k, row) =>
  }

  /** The same for a whole operation. */
  lemma StepAccounts(c: Controller, s: Snapshot, op: Op, s1: Snapshot, h: Handle)
    requires Does(c, s, op, s1)
    ensures h in Told(s.trace) ==> h in Told(s1.trace)
    ensures Accounted(s, h) && !Leaves(c, s, op, h) ==> Accounted(s1, h)
    ensures h in Reported(s1.trace) && h !in Reported(s.trace) ==> Accounted(s1, h)
  {
    var e, mid, f := Effects(c, s, op, s1);
    EffectAccounts(s, e, mid, h);
    EffectAccounts(mid, f, s1, h);
  }

  /** A run of operations from an empty registry, by one controller. */
  ghost predicate Run(c: Controller, states: seq<Snapshot>, ops: seq<Op>) {
    Continues(c, states, ops) && states[0].deployments == [] && states[0].trace == []
  }

  /** Each state follows from the one before by its operation. */
  ghost predicate Continues(c: Controller, states: seq<Snapshot>, ops: seq<Op>) {
    |states| == |ops| + 1 && forall i :: 0 <= i < |ops| ==> StepAt(c, states, ops, i)
  }

  ghost predicate StepAt(c: Controller, states: seq<Snapshot>, ops: seq<Op>, i: nat)
    requires i < |ops| < |states|
  {
    Does(c, states[i], ops[i], states[i + 1])
  }

  /** Runs can be joined, so whatever is made of these operations is a run of them. */
  lemma Joined(c: Controller, states: seq<Snapshot>, ops: seq<Op>, more: seq<Snapshot>, moreOps: seq<Op>)
    requires Continues(c, states, ops) && Continues(c, more, moreOps) && states[|ops|] == more[0]
    ensures Continues(c, states + more[1..], ops + moreOps)
  {
    var ss, os := states + more[1..], ops + moreOps;
    forall i | 0 <= i < |os| ensures StepAt(c, ss, os, i) {
      if i < |ops| {
        SameStep(c, states, ops, i, ss, os, i);
      } else {
        SameStep(c, more, moreOps, i - |ops|, ss, os, i);
      }
    }
  }

  lemma SameStep(c: Controller, states: seq<Snapshot>, ops: seq<Op>, i: nat, ss: seq<Snapshot>, os: seq<Op>, k: nat)
    requires Continues(c, states, ops) && i < |ops| && k < |os| < |ss|
    requires ss[k] == states[i] && ss[k + 1] == states[i + 1] && os[k] == ops[i]
    ensures StepAt(c, ss, os, k)
  {
    assert StepAt(c, states, ops, i);
  }

  lemma OneStep(c: Controller, s: Snapshot, op: Op, s1: Snapshot)
    requires Does(c, s, op, s1)
    ensures Continues(c, [s, s1], [op])
  {
    assert StepAt(c, [s, s1], [op], 0);
  }

  /** A restart replaces this handle here, of an engine that was never told to stop. */
  ghost predicate Leaves(c: Controller, s: Snapshot, op: Op, h: Handle) {
    Replaces(c, s, op, h) && h !in Told(s.trace)
  }

  /** Some restart in the run left this engine running. */
  ghost predicate LeftRunning(c: Controller, states: seq<Snapshot>, ops: seq<Op>, h: Handle)
    requires |states| == |ops| + 1
  {
    exists i :: 0 <= i < |ops| && Leaves(c, states[i], ops[i], h)
  }

  lemma {:induction false} AccountedAt(c: Controller, states: seq<Snapshot>, ops: seq<Op>, h: Handle, j: nat)
    requires Run(c, states, ops) && j <= |ops| && h in Reported(states[j].trace) && !LeftRunning(c, states, ops, h)
    ensures Accounted(states[j], h)
    decreases j
  {
    if j > 0 {
      assert StepAt(c, states, ops, j - 1) && !Leaves(c, states[j - 1], ops[j - 1], h);
      StepAccounts(c, states[j - 1], ops[j - 1], states[j], h);
      if h in Reported(states[j - 1].trace) { AccountedAt(c, states, ops, h, j - 1); }
    }
  }

  /**
   * Over every run, an engine that reported READY can still be found or was told to stop, unless a restart left it
   * running.
   */
  lemma RunAccounts(c: Controller, states: seq<Snapshot>, ops: seq<Op>, h: Handle)
    requires Run(c, states, ops) && h in Reported(states[|ops|].trace) && !LeftRunning(c, states, ops, h)
    ensures Accounted(states[|ops|], h)
  {
    AccountedAt(c, states, ops, h, |ops|);
  }

  // ---- And what a restart leaves running is lost for good ---------------------------------

  /** No two READY reports name the same engine. */
  ghost predicate Fresh(t: seq<Event>) {
    DistinctHandles(Refs(Readies(t)))
  }

  ghost predicate DistinctHandles(es: seq<EngineRef>) {
    forall i, j :: 0 <= i < j < |es| ==> HandleOf(es[i]) != HandleOf(es[j])
  }

  lemma FreshParts(t: seq<Event>, tail: seq<Event>)
    requires Fresh(t + tail)
    ensures Fresh(t) && Fresh(tail) && Reported(t) !! Reported(tail)
  {
    TraceConcat(t, tail);
    var a, b := Refs(Readies(t)), Refs(Readies(tail));
    var all := Refs(Readies(t + tail));
    assert all == a + b;
    forall i, j | 0 <= i < |a| && 0 <= j < |b| ensures HandleOf(a[i]) != HandleOf(b[j]) {
      assert HandleOf(all[i]) != HandleOf(all[|a| + j]);
    }
    forall i, j | 0 <= i < j < |b| ensures HandleOf(b[i]) != HandleOf(b[j]) {
      assert HandleOf(all[|a| + i]) != HandleOf(all[|a| + j]);
    }
    forall i, j | 0 <= i < j < |a| ensures HandleOf(a[i]) != HandleOf(a[j]) {
      assert HandleOf(all[i]) != HandleOf(all[j]);
    }
  }

  /** Every record is of an engine that reported READY, and no engine is recorded twice. */
  ghost predicate Books(s: Snapshot) {
    && (forall i :: 0 <= i < |s.deployments| ==> BooksOf(s, i))
    && (forall i, k :: 0 <= i < k < |s.deployments| ==>
          Handles(s.deployments[i].detail.engines) !! Handles(s.deployments[k].detail.engines))
  }

  ghost predicate BooksOf(s: Snapshot, i: nat)
    requires i < |s.deployments|
  {
    && Handles(s.deployments[i].detail.engines) <= Reported(s.trace)
    && DistinctHandles(s.deployments[i].detail.engines)
  }

  /** The engine reported READY, was never told to stop, and no row knows it. */
  ghost predicate Missing(s: Snapshot, h: Handle) {
    h in Reported(s.trace) && h !in Told(s.trace) && !OnRecord(s.deployments, h)
  }

  /** What an effect's new records can be: old ones of the same row, or what just became READY. */
  lemma EffectRecords(s: Snapshot, e: Effect, s1: Snapshot, i: nat, h: Handle)
    requires Has(s, e, s1) && i < |s1.deployments| && h in Handles(s1.deployments[i].detail.engines)
    ensures h in Reported(s1.trace[|s.trace|..])
            || (i < |s.deployments| && h in Handles(s.deployments[i].detail.engines))
    ensures i >= |s.deployments| ==> h in Reported(s1.trace[|s.trace|..])
  {
    if e.Swaps? && i == e.k {
      var es := s1.deployments[i].detail.engines;
      var n :| 0 <= n < |es| && HandleOf(es[n]) == h;
      if n != e.j { assert HandleOf(s.deployments[i].detail.engines[n]) == h; }
    }
  }

  /** No two rows record the same engine afterwards either: only one of them can record what just became READY. */
  lemma EffectPlaces(s: Snapshot, e: Effect, s1: Snapshot, i: nat, k: nat, h: Handle)
    requires Has(s, e, s1) && Books(s) && Reported(s.trace) !! Reported(s1.trace[|s.trace|..])
    requires i < k < |s1.deployments| && h in Handles(s1.deployments[i].detail.engines)
    ensures h !in Handles(s1.deployments[k].detail.engines)
  {
    EffectRecords(s, e, s1, i, h);
    assert i < |s.deployments| ==> BooksOf(s, i);
    assert k < |s.deployments| ==> BooksOf(s, k);
    if h in Handles(s1.deployments[k].detail.engines) { EffectRecords(s, e, s1, k, h); }
  }

  lemma EffectDistinct(s: Snapshot, e: Effect, s1: Snapshot, i: nat)
    requires Has(s, e, s1) && Books(s) && Fresh(s1.trace[|s.trace|..]) && i < |s1.deployments|
    requires Reported(s.trace) !! Reported(s1.trace[|s.trace|..])
    ensures DistinctHandles(s1.deployments[i].detail.engines)
  {
    if i < |s.deployments| {
      assert BooksOf(s, i);
      var was := s.deployments[i].detail.engines;
      forall n | 0 <= n < |was| ensures HandleOf(was[n]) in Reported(s.trace) {
        assert HandleOf(was[n]) in Handles(was);
      }
    }
  }

  lemma EffectBooks(s: Snapshot, e: Effect, s1: Snapshot)
    requires Has(s, e, s1) && Books(s) && Fresh(s1.trace)
    ensures Books(s1) && Fresh(s.trace)
  {
    var tail := s1.trace[|s.trace|..];
    assert s1.trace == s.trace + tail;
    TraceGrows(s.trace, tail);
    FreshParts(s.trace, tail);
    forall i | 0 <= i < |s1.deployments| ensures BooksOf(s1, i) {
      EffectDistinct(s, e, s1, i);
      forall h | h in Handles(s1.deployments[i].detail.engines) ensures h in Reported(s1.trace) {
        EffectRecords(s, e, s1, i, h);
        assert i < |s.deployments| ==> BooksOf(s, i);
      }
    }
    forall i, k | 0 <= i < k < |s1.deployments|
      ensures Handles(s1.deployments[i].detail.engines) !! Handles(s1.deployments[k].detail.engines)
    {
      forall h | h in Handles(s1.deployments[i].detail.engines)
        ensures h !in Handles(s1.deployments[k].detail.engines)
      {
        EffectPlaces(s, e, s1, i, k, h);
      }
    }
  }

  /** Only recorded engines, and ones that just became READY, are ever told to stop. */
  lemma EffectStops(s: Snapshot, e: Effect, s1: Snapshot, h: Handle)
    requires Has(s, e, s1) && h in Told(s1.trace[|s.trace|..])
    ensures h in Reported(s1.trace[|s.trace|..]) || OnRecord(s.deployments, h)
  {
    match e
    case Grows(row) => ReversedHandles(row.detail.engines, h);
    case Ends(k) => ReversedHandles(s.deployments[k].detail.engines, h);
    case Swaps(k, j, handle) =>
    case Quiet(k, row) =>
  }

  /** An effect neither finds a missing engine nor keeps a record of one it swaps out. */
  lemma EffectMissing(s: Snapshot, e: Effect, s1: Snapshot, h: Handle)
    requires Has(s, e, s1) && Books(s) && Fresh(s1.trace)
    requires Missing(s, h) || (SwapsOut(s, e, h) && h !in Told(s.trace))
    ensures Missing(s1, h)
  {
    var tail := s1.trace[|s.trace|..];
    assert s1.trace == s.trace + tail;
    TraceGrows(s.trace, tail);
    FreshParts(s.trace, tail);
    if SwapsOut(s, e, h) { assert BooksOf(s, e.k); }
    assert h in Reported(s.trace) && h !in Reported(tail);
    if h in Told(tail) && !SwapsOut(s, e, h) { EffectStops(s, e, s1, h); }
    forall i | 0 <= i < |s1.deployments| ensures h !in Handles(s1.deployments[i].detail.engines) {
      if h in Handles(s1.deployments[i].detail.engines) {
        EffectRecords(s, e, s1, i, h);
        if SwapsOut(s, e, h) { SwappedOut(s, e, s1, i, h); }
      }
    }
  }

  lemma SwappedOut(s: Snapshot, e: Effect, s1: Snapshot, i: nat, h: Handle)
    requires Has(s, e, s1) && Books(s) && SwapsOut(s, e, h) && h !in Reported(s1.trace[|s.trace|..])
    requires i < |s1.deployments|
    ensures h !in Handles(s1.deployments[i].detail.engines)
  {
    assert BooksOf(s, e.k);
    if h in Handles(s1.deployments[i].detail.engines) { EffectRecords(s, e, s1, i, h); }
  }

  lemma StepBooks(c: Controller, s: Snapshot, op: Op, s1: Snapshot)
    requires Does(c, s, op, s1) && Books(s) && Fresh(s1.trace)
    ensures Books(s1)
  {
    var e, mid, f := Effects(c, s, op, s1);
    FreshPrefix(mid.trace, s1.trace);
    EffectBooks(s, e, mid);
    EffectBooks(mid, f, s1);
  }

  lemma FreshPrefix(t: seq<Event>, t1: seq<Event>)
    requires t <= t1 && Fresh(t1)
    ensures Fresh(t)
  {
    assert t1 == t + t1[|t|..];
    FreshParts(t, t1[|t|..]);
  }

  lemma StepMissing(c: Controller, s: Snapshot, op: Op, s1: Snapshot, h: Handle)
    requires Does(c, s, op, s1) && Books(s) && Fresh(s1.trace)
    requires Missing(s, h) || Leaves(c, s, op, h)
    ensures Missing(s1, h)
  {
    var e, mid, f := Effects(c, s, op, s1);
    FreshPrefix(mid.trace, s1.trace);
    EffectMissing(s, e, mid, h);
    EffectBooks(s, e, mid);
    EffectMissing(mid, f, s1, h);
  }

  lemma StepGrows(c: Controller, s: Snapshot, op: Op, s1: Snapshot)
    requires Does(c, s, op, s1)
    ensures s.trace <= s1.trace
  {
    var e, mid, f := Effects(c, s, op, s1);
  }

  lemma {:induction false} FreshAt(c: Controller, states: seq<Snapshot>, ops: seq<Op>, j: nat)
    requires Run(c, states, ops) && Fresh(states[|ops|].trace) && j <= |ops|
    ensures Fresh(states[j].trace)
    decreases |ops| - j
  {
    if j < |ops| {
      FreshAt(c, states, ops, j + 1);
      assert StepAt(c, states, ops, j);
      StepGrows(c, states[j], ops[j], states[j + 1]);
      FreshPrefix(states[j].trace, states[j + 1].trace);
    }
  }

  lemma {:induction false} BooksAt(c: Controller, states: seq<Snapshot>, ops: seq<Op>, j: nat)
    requires Run(c, states, ops) && Fresh(states[|ops|].trace) && j <= |ops|
    ensures Books(states[j])
    decreases j
  {
    if j > 0 {
      BooksAt(c, states, ops, j - 1);
      FreshAt(c, states, ops, j);
      assert StepAt(c, states, ops, j - 1);
      StepBooks(c, states[j - 1], ops[j - 1], states[j]);
    }
  }

  /** Once left running, an engine is never told to stop and never found again. */
  lemma {:induction false} MissingAt(c: Controller, states: seq<Snapshot>, ops: seq<Op>, i: nat, h: Handle, j: nat)
    requires Run(c, states, ops) && Fresh(states[|ops|].trace) && i < j <= |ops| && Leaves(c, states[i], ops[i], h)
    ensures Missing(states[j], h)
    decreases j
  {
    if i < j - 1 { MissingAt(c, states, ops, i, h, j - 1); }
    MissingNext(c, states, ops, j - 1, h);
  }

  lemma MissingNext(c: Controller, states: seq<Snapshot>, ops: seq<Op>, j: nat, h: Handle)
    requires Run(c, states, ops) && Fresh(states[|ops|].trace) && j < |ops|
    requires Missing(states[j], h) || Leaves(c, states[j], ops[j], h)
    ensures Missing(states[j + 1], h)
  {
    BooksAt(c, states, ops, j);
    FreshAt(c, states, ops, j + 1);
    assert StepAt(c, states, ops, j);
    StepMissing(c, states[j], ops[j], states[j + 1], h);
  }

  /**
   * Where no two READY reports name the same engine, an engine that reported READY can still be found or was told to
   * stop if and only if no restart replaced its handle before it was told to stop.
   */
  lemma AccountedExactly(c: Controller, states: seq<Snapshot>, ops: seq<Op>, h: Handle)
    requires Run(c, states, ops) && Fresh(states[|ops|].trace) && h in Reported(states[|ops|].trace)
    ensures Accounted(states[|ops|], h) <==> !LeftRunning(c, states, ops, h)
  {
    if LeftRunning(c, states, ops, h) {
      var i :| 0 <= i < |ops| && Leaves(c, states[i], ops[i], h);
      MissingAt(c, states, ops, i, h, |ops|);
    } else {
      RunAccounts(c, states, ops, h);
    }
  }
}
