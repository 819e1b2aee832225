/** The self-healing pass: track what is observed and act, by policy, on what persists. */
module SelfHealing {
  import opened Common
  import opened Fleet
  import opened Orchestrator
  import opened Observation
  import Failover
  import Tracker
  import Ledger = EngineLedger

  datatype Level = Auto | ApprovalRequired | NotifyOnly

  datatype Config = Config(tracker: Tracker.Config, nodeTimeout: int, levels: map<EventType, Level>)

  /** Autonomous only for local restarts; failover and cleanup need approval; new nodes only notify. */
  function LevelOf(cfg: Config, t: EventType): (l: Level) {
    if t in cfg.levels then cfg.levels[t]
    else match t
      case EngineDown => Auto
      case NodeDown => ApprovalRequired
      case OrphanDeployment => ApprovalRequired
      case NewNode => NotifyOnly
  }

  /** What the reconciler may do by itself unless configured: restart engines, nothing else. */
  lemma DefaultLevels(cfg: Config, t: EventType)
    ensures t in cfg.levels ==> LevelOf(cfg, t) == cfg.levels[t]
    ensures t !in cfg.levels ==>
              && (LevelOf(cfg, t) == Auto <==> t == EngineDown)
              && (LevelOf(cfg, t) == ApprovalRequired <==> t == NodeDown || t == OrphanDeployment)
              && (LevelOf(cfg, t) == NotifyOnly <==> t == NewNode)
  {
  }

  /** 45 seconds, in nanoseconds. */
  const DEFAULT_NODE_TIMEOUT: int := 45_000_000_000

  /** The configuration in effect: a threshold or a timeout that is not positive gets its default. */
  function WithDefaults(cfg: Config): (r: Config)
    ensures r.tracker.failureThreshold == if cfg.tracker.failureThreshold >= 1 then cfg.tracker.failureThreshold else 1
    ensures r.nodeTimeout == if cfg.nodeTimeout >= 1 then cfg.nodeTimeout else 45_000_000_000
    ensures r.levels == cfg.levels && r.tracker.hysteresis == cfg.tracker.hysteresis
    ensures r.tracker.actionCooldown == cfg.tracker.actionCooldown
  {
    var tracker := if cfg.tracker.failureThreshold <= 0 then cfg.tracker.(failureThreshold := 1) else cfg.tracker;
    cfg.(tracker := tracker, nodeTimeout := if cfg.nodeTimeout <= 0 then DEFAULT_NODE_TIMEOUT else cfg.nodeTimeout)
  }

  /** The failover planner: a plan for a model or none, and a fresh suffix for its stored id. */
  datatype Planner = Planner(plan: (seq<Event>, string) -> Option<Plan>, nonce: seq<Event> -> string)

  /** Rows before the pass keep their place, and all but one keep their contents; rows may be added at the end. */
  ghost predicate RowsKept(before: seq<Deployment>, after: seq<Deployment>, id: string) {
    && |before| <= |after|
    && forall i :: 0 <= i < |before| ==> after[i].id == before[i].id && (before[i].id != id ==> after[i] == before[i])
  }

  /** The deployment has released its resources. */
  ghost predicate Terminal(ds: seq<Deployment>, id: string) {
    exists i :: 0 <= i < |ds| && ds[i].id == id && (ds[i].state == Stopped || ds[i].state == Failed)
  }

  lemma TerminalKept(before: seq<Deployment>, after: seq<Deployment>, id: string, other: string)
    requires RowsKept(before, after, id) && other != id && Terminal(before, other)
    ensures Terminal(after, other)
  {
    var i :| 0 <= i < |before| && before[i].id == other && (before[i].state == Stopped || before[i].state == Failed);
    assert after[i] == before[i];
  }

  /** The registry with the gateway, and the tracker. */
  datatype World = World(fleet: Snapshot, tracker: map<string, Tracker.Entry>)

  /** One reported event. */
  datatype Reported = Reported(disc: Disc, level: Level, acted: bool)

  function Discs(evs: seq<Reported>): (r: seq<Disc>)
    ensures |r| == |evs| && forall i :: 0 <= i < |evs| ==> r[i] == evs[i].disc
  {
    seq(|evs|, i requires 0 <= i < |evs| => evs[i].disc)
  }

  /** How many reported actions concern this deployment. */
  function ActedOn(evs: seq<Reported>, id: string): (n: nat) {
    if evs == [] then 0
    else ActedOn(evs[..|evs| - 1], id) + if evs[|evs| - 1].acted && evs[|evs| - 1].disc.depId == id then 1 else 0
  }

  /** Why a failover was not prepared, or the registry once its plan is stored and the row is stamped with it. */
  datatype Prepared = NoRow | AlreadyTerminal | NoCapacity | PlanIdTaken | Ready(next: Snapshot)

  ghost function Preparation(pl: Planner, s: Snapshot, id: string): (p: Prepared) {
    var found := Find(s.deployments, id);
    if found.None? then NoRow
    else
      var row := s.deployments[found.value];
      if row.state == Stopped || row.state == State.Failed then AlreadyTerminal
      else if row.detail.modelId == "" then Ready(s)
      else
        var plan := pl.plan(s.trace, row.detail.modelId);
        if plan.None? then NoCapacity
        else
          var planId := plan.value.planId + "-fo-" + pl.nonce(s.trace);
          var stamped := row.(detail := row.detail.(failoverPlanId := planId));
          if planId in s.plans then PlanIdTaken
          else Ready(s.(deployments := s.deployments[found.value := stamped],
                        plans := s.plans[planId := plan.value.(planId := planId)],
                        trace := s.trace + [RowWritten(stamped)]))
  }

  /**
   * A failover is prepared exactly for a known deployment that has not ended and for whose recorded model, if any, the
   * planner has a plan whose id, with the suffix, is free; then that plan is stored and that row alone names it.
   */
  lemma PreparationMeans(pl: Planner, s: Snapshot, id: string)
    ensures var p := Preparation(pl, s, id);
            p.Ready? <==>
              exists k :: (&& 0 <= k < |s.deployments| && Find(s.deployments, id) == Some(k)
                           && var d := s.deployments[k];
                              && d.state != Stopped && d.state != State.Failed
                              && (d.detail.modelId == "" || PlanReady(pl, s, d.detail.modelId)))
    ensures var p := Preparation(pl, s, id);
            p.Ready? ==>
              var k := Find(s.deployments, id).value;
              var m := s.deployments[k].detail.modelId;
              if m == "" then p.next == s
              else
                var plan := pl.plan(s.trace, m).value;
                var planId := plan.planId + "-fo-" + pl.nonce(s.trace);
                && planId in p.next.plans
                && p.next.plans[planId] == Plan(planId, plan.modelId, plan.quantization, plan.assignments)
                && p.next.plans - {planId} == s.plans && |p.next.deployments| == |s.deployments|
                && (forall i :: 0 <= i < |s.deployments| && i != k ==> p.next.deployments[i] == s.deployments[i])
                && p.next.deployments[k] ==
                   s.deployments[k].(detail := s.deployments[k].detail.(failoverPlanId := planId))
                && p.next.routes == s.routes
  {
    var found := Find(s.deployments, id);
    if Preparation(pl, s, id).Ready? {
      assert Find(s.deployments, id) == Some(found.value);
    }
  }

  ghost predicate PlanReady(pl: Planner, s: Snapshot, m: string) {
    && pl.plan(s.trace, m).Some?
    && pl.plan(s.trace, m).value.planId + "-fo-" + pl.nonce(s.trace) !in s.plans
  }

  /** A node-down event: refused with nothing changed, or the actuator's failover from the prepared registry. */
  ghost predicate NodeDownHandled(pl: Option<Planner>, orch: Controller, s: Snapshot, id: string, acted: bool,
                                  s1: Snapshot) {
    if pl.Some? && !Preparation(pl.value, s, id).Ready? then !acted && s1 == s
    else
      var ready := if pl.Some? then Preparation(pl.value, s, id).next else s;
      exists r :: Failover.FailoverOutcome(orch, ready, id, r, s1) && acted == r.Recovered?
  }

  /** The action the policy allows for one event, or none. */
  ghost predicate Dispatched(pl: Option<Planner>, orch: Controller, autonomous: bool, s: Snapshot, x: Disc,
                             acted: bool, s1: Snapshot) {
    if !autonomous || x.typ.NewNode? then !acted && s1 == s
    else match x.typ
      case NodeDown => NodeDownHandled(pl, orch, s, x.depId, acted, s1)
      case EngineDown => RestartOutcome(orch.env, s, x.depId, x.nodeId, acted, s1)
      case OrphanDeployment => TeardownOutcome(orch.env, s, x.depId, acted, s1)
  }

  class Healer {
    const act: Failover.Actuator
    const hasActuator: bool
    const planner: Option<Planner>
    const cfg: Config
    var tracker: map<string, Tracker.Entry>
    /** The completed passes. */
    ghost var history: seq<Tracker.Pass>

    constructor (act: Failover.Actuator, hasActuator: bool, planner: Option<Planner>, cfg: Config)
      ensures this.act == act && this.hasActuator == hasActuator && this.planner == planner
      ensures this.cfg == WithDefaults(cfg) && tracker == map[] && history == [] && Recalls()
    {
      this.act, this.hasActuator, this.planner := act, hasActuator, planner;
      this.cfg := WithDefaults(cfg);
      tracker, history := map[], [];
    }

    /** The registry, the gateway and the tracker as they are now. */
    ghost function Here(): (w: World)
      reads this, act.orch.cluster
    {
      World(act.orch.cluster.Now(), tracker)
    }

    /** May act on events of this type by itself. */
    predicate Autonomous(t: EventType) { hasActuator && LevelOf(cfg, t) == Auto }

    /** Computes an alternate plan, stores it under a new id and stamps the deployment with it. */
    method PrepareFailover(pl: Planner, id: string) returns (ok: bool)
      requires act.orch.cluster.Valid()
      modifies act.orch.cluster
      ensures act.orch.cluster.Valid()
      ensures ok <==> Preparation(pl, old(act.orch.cluster.Now()), id).Ready?
      ensures act.orch.cluster.Now() ==
                if ok then Preparation(pl, old(act.orch.cluster.Now()), id).next else old(act.orch.cluster.Now())
    {
      var cluster := act.orch.cluster;
      var found := Find(cluster.deployments, id);
      if found.None? { return false; }
      var row := cluster.deployments[found.value];
      if row.state == Stopped || row.state == State.Failed { return false; }
      if row.detail.modelId != "" {
        var p := pl.plan(cluster.trace, row.detail.modelId);
        if p.None? { return false; }
        var planId := p.value.planId + "-fo-" + pl.nonce(cluster.trace);
        if planId in cluster.plans { return false; }
        cluster.plans := cluster.plans[planId := p.value.(planId := planId)];
        FindUnique(cluster.deployments, found.value);
        cluster.WriteRow(row.(detail := row.detail.(failoverPlanId := planId)));
      }
      return true;
    }

    /** The handler for a node that is down. */
    method HandleNodeDown(id: string) returns (acted: bool)
      requires act.orch.cluster.Valid()
      modifies act.orch.cluster
      ensures act.orch.cluster.Valid()
      ensures NodeDownHandled(planner, act.orch, old(act.orch.cluster.Now()), id, acted, act.orch.cluster.Now())
    {
      if planner.Some? {
        var ok := PrepareFailover(planner.value, id);
        if !ok { return false; }
      }
      var r := act.Failover(id);
      acted := r.Recovered?;
    }

    /** Performs or defers the action for one event by its automation level. */
    method Dispatch(x: Disc) returns (acted: bool)
      requires act.orch.cluster.Valid()
      modifies act.orch.cluster
      ensures act.orch.cluster.Valid()
      ensures Dispatched(planner, act.orch, Autonomous(x.typ), old(act.orch.cluster.Now()), x, acted,
                         act.orch.cluster.Now())
    {
      match LevelOf(cfg, x.typ)
      case NotifyOnly => return false;
      case ApprovalRequired => return false;
      case Auto =>
        if !hasActuator { return false; }
        match x.typ
        case NodeDown => acted := HandleNodeDown(x.depId);
        case EngineDown => acted := act.orch.RestartEngine(x.depId, x.nodeId);
        case OrphanDeployment => acted := act.Cleanup(x.depId);
        case NewNode => return false;
    }

    /**
     * One observed discrepancy: count it, and dispatch it if and only if it is past hysteresis and not cooling down.
     */
    method Process(x: Disc, now: int) returns (ev: Reported)
      requires act.orch.cluster.Valid()
      modifies `tracker, act.orch.cluster
      ensures act.orch.cluster.Valid()
      ensures Processed(old(Here()), x, now, ev, Here())
    {
      var k := Key(x);
      var st := Tracker.DiscState(now, 0, None);
      if k in tracker { st := tracker[k].state; }
      st := st.(count := st.count + 1);
      ev := Reported(x, LevelOf(cfg, x.typ), false);
      var eligible := st.count >= cfg.tracker.failureThreshold && now - st.firstSeen >= cfg.tracker.hysteresis;
      var cooling := st.lastActed.Some? && now - st.lastActed.value < cfg.tracker.actionCooldown;
      if eligible && !cooling {
        var acted := Dispatch(x);
        ev := ev.(acted := acted);
        if acted { st := st.(lastActed := Some(now)); }
      }
      tracker := tracker[k := Tracker.Entry(st, true)];
    }

    /** What processing one discrepancy does to the registry and the tracker. */
    ghost predicate Processed(w: World, x: Disc, now: int, ev: Reported, w1: World) {
      var states := Tracker.States(w.tracker);
      && ev.disc == x && ev.level == LevelOf(cfg, x.typ)
      && w1.tracker == w.tracker[Key(x) := Tracker.Entry(Tracker.Stamped(states, Key(x), now, ev.acted), true)]
      && (if Tracker.Eligible(cfg.tracker, Tracker.Counted(states, Key(x), now), now)
          then Dispatched(planner, act.orch, Autonomous(x.typ), w.fleet, x, ev.acted, w1.fleet)
          else !ev.acted && w1.fleet == w.fleet)
    }

    /** The worlds a pass goes through, one step for each reported event, in order. */
    ghost predicate Steps(worlds: seq<World>, evs: seq<Reported>, now: int) {
      && |worlds| == |evs| + 1
      && forall i :: 0 <= i < |evs| ==> Processed(worlds[i], evs[i].disc, now, evs[i], worlds[i + 1])
    }

    /** Event i was dispatched if the history made it due, and left alone if not. */
    ghost predicate ActedWhenDue(past: seq<Tracker.Pass>, worlds: seq<World>, evs: seq<Reported>, now: int, i: nat)
      requires i < |evs| < |worlds|
    {
      var x := evs[i].disc;
      if Tracker.Due(cfg.tracker, past, Key(x), now)
      then Dispatched(planner, act.orch, Autonomous(x.typ), worlds[i].fleet, x, evs[i].acted, worlds[i + 1].fleet)
      else !evs[i].acted && worlds[i + 1].fleet == worlds[i].fleet
    }

    /** The loop over the observed discrepancies. */
    method ProcessAll(observed: seq<Disc>, now: int, ghost t0: map<string, Tracker.Entry>)
      returns (evs: seq<Reported>, ghost worlds: seq<World>)
      requires act.orch.cluster.Valid() && Tracker.Midway(cfg.tracker, t0, tracker, [], now)
      modifies `tracker, act.orch.cluster
      ensures act.orch.cluster.Valid() && Discs(evs) == observed
      ensures Steps(worlds, evs, now) && worlds[0] == old(Here()) && worlds[|evs|] == Here()
      ensures DistinctKeys(observed) ==> Tracker.Midway(cfg.tracker, t0, tracker, Marks(evs), now)
      ensures planner.Some? ==> forall id :: OnlyNodeDown(observed, id) ==> ActedOn(evs, id) <= 1
    {
      evs, worlds := [], [Here()];
      for i := 0 to |observed|
        invariant act.orch.cluster.Valid() && |evs| == i && Underway(this, observed, now, t0, evs, worlds)
        invariant worlds[0] == old(Here()) && worlds[i] == Here()
      {
        var ev := Process(observed[i], now);
        UnderwayStep(this, observed, now, t0, evs, worlds, ev, Here());
        evs, worlds := evs + [ev], worlds + [Here()];
      }
      assert observed[..|observed|] == observed;
    }

    /**
     * The tracker is the summary of the passes so far, each of which acted only on what was eligible: what the history
     * theorems say of `history` is then true of everything this reconciler has done.
     */
    ghost predicate Recalls()
      reads this
    {
      Tracker.States(tracker) == Tracker.Of(history) && Tracker.Consistent(cfg.tracker, history)
    }

    /** One pass. A registry error ends it before anything changes. */
    method Reconcile(nodes: map<string, Node>, missing: string -> bool, now: int, registryFails: bool)
      returns (report: Option<seq<Reported>>, ghost worlds: seq<World>)
      requires act.orch.cluster.Valid()
      modifies this, act.orch.cluster
      ensures act.orch.cluster.Valid()
      ensures report.None? <==> registryFails
      ensures registryFails ==>
                && tracker == old(tracker) && history == old(history)
                && act.orch.cluster.Now() == old(act.orch.cluster.Now())
      ensures report.Some? ==>
                var v := View(nodes, missing, now, cfg.nodeTimeout);
                forall x :: x in Discs(report.value) <==> Discrepant(v, old(act.orch.cluster.deployments), x)
      ensures report.Some? && CleanRows(old(act.orch.cluster.deployments)) ==> DistinctKeys(Discs(report.value))
      ensures report.Some? ==>
                && Steps(worlds, report.value, now)
                && worlds[0].fleet == old(act.orch.cluster.Now())
                && worlds[|report.value|].fleet == act.orch.cluster.Now()
                && Tracker.States(worlds[0].tracker) == Tracker.States(old(tracker))
      ensures report.Some? ==> history == old(history) + [Tracker.PassOf(now, Marks(report.value))]
      ensures report.Some? && DistinctKeys(Discs(report.value)) ==>
                var pass := Tracker.PassOf(now, Marks(report.value));
                && Tracker.States(tracker) == Tracker.After(Tracker.States(old(tracker)), pass)
                && Tracker.ActsEligibly(cfg.tracker, Tracker.States(old(tracker)), pass)
                && (old(Recalls()) ==>
                      Recalls() && forall i :: 0 <= i < |report.value| ==>
                                      ActedWhenDue(old(history), worlds, report.value, now, i))
      ensures report.Some? && planner.Some? ==>
                forall id :: OnlyNodeDown(Discs(report.value), id) ==> ActedOn(report.value, id) <= 1
    {
      worlds := [];
      if registryFails { return None, worlds; }
      var observed := ObserveKeyed(View(nodes, missing, now, cfg.nodeTimeout), act.orch.cluster.deployments);
      ghost var t0 := tracker;
      tracker := Tracker.Cleared(tracker);
      Tracker.MidwayStart(cfg.tracker, t0, now);
      var evs;
      evs, worlds := ProcessAll(observed, now, t0);
      ghost var pass := Tracker.PassOf(now, Marks(evs));
      if DistinctKeys(observed) {
        Tracker.MidwayFinish(cfg.tracker, t0, tracker, Marks(evs), now);
        if old(Recalls()) {
          Tracker.HistoryStep(cfg.tracker, history, pass);
          forall i | 0 <= i < |evs| ensures ActedWhenDue(history, worlds, evs, now, i) {
            DueEvents(this, history, worlds, evs, now, i);
          }
        }
      }
      tracker := map k | k in tracker && tracker[k].seenThis :: tracker[k];
      history := history + [pass];
      report := Some(evs);
    }
  }

  // ---- Reports as tracker marks -----------------------------------------------------------

  function MarkOf(ev: Reported): (m: Tracker.Mark) { Tracker.Mark(Key(ev.disc), ev.acted) }

  function Marks(evs: seq<Reported>): (r: seq<Tracker.Mark>)
    ensures |r| == |evs| && forall i :: 0 <= i < |evs| ==> r[i] == MarkOf(evs[i])
  {
    seq(|evs|, i requires 0 <= i < |evs| => MarkOf(evs[i]))
  }

  ghost predicate DistinctKeys(xs: seq<Disc>) {
    forall i, j :: 0 <= i < j < |xs| ==> Key(xs[i]) != Key(xs[j])
  }

  /** Distinct observations have distinct keys when deployment ids contain no bar. */
  lemma NoRepeatsGivesDistinctKeys(xs: seq<Disc>)
    requires NoRepeats(xs) && forall i :: 0 <= i < |xs| ==> '|' !in xs[i].depId
    ensures DistinctKeys(xs)
  {
    forall i, j | 0 <= i < j < |xs| ensures Key(xs[i]) != Key(xs[j]) {
      if Key(xs[i]) == Key(xs[j]) { KeyInjective(xs[i], xs[j]); }
    }
  }

  /** Ids without the key separator, and at most one engine of a deployment on a node. */
  ghost predicate CleanRows(ds: seq<Deployment>) {
    forall i :: 0 <= i < |ds| ==> DistinctNodes(ds[i]) && '|' !in ds[i].id
  }

  method ObserveKeyed(v: View, ds: seq<Deployment>) returns (xs: seq<Disc>)
    requires UniqueIds(ds)
    ensures forall x :: x in xs <==> Discrepant(v, ds, x)
    ensures CleanRows(ds) ==> DistinctKeys(xs)
  {
    xs := Observe(v, ds);
    if CleanRows(ds) {
      forall i | 0 <= i < |xs| ensures '|' !in xs[i].depId {
        assert Discrepant(v, ds, xs[i]);
      }
      NoRepeatsGivesDistinctKeys(xs);
    }
  }

  lemma MarksAppend(observed: seq<Disc>, evs: seq<Reported>, ev: Reported)
    requires DistinctKeys(observed) && |evs| < |observed| && Discs(evs) == observed[..|evs|]
    requires ev.disc == observed[|evs|]
    ensures Marks(evs + [ev]) == Marks(evs) + [MarkOf(ev)]
    ensures Tracker.NewKey(Marks(evs), Key(ev.disc))
  {
    forall j | 0 <= j < |evs| ensures Marks(evs)[j].key != Key(ev.disc) {
      assert evs[j].disc == Discs(evs)[j] == observed[j];
    }
  }

  lemma TrackStep(h: Healer, observed: seq<Disc>, t0: map<string, Tracker.Entry>, w: World, evs: seq<Reported>,
                  now: int, ev: Reported, w1: World)
    requires |evs| < |observed| && Discs(evs) == observed[..|evs|]
    requires h.Processed(w, observed[|evs|], now, ev, w1) && TrackedSoFar(h, observed, now, t0, evs, w)
    ensures TrackedSoFar(h, observed, now, t0, evs + [ev], w1)
  {
    if DistinctKeys(observed) {
      MarksAppend(observed, evs, ev);
      Tracker.MidwayStep(h.cfg.tracker, t0, w.tracker, Marks(evs), now, MarkOf(ev));
    }
  }

  // ---- Due events -------------------------------------------------------------------------

  /** Until its own event the tracker knows of a key what it knew before the pass. */
  lemma {:induction false} KnownBefore(h: Healer, worlds: seq<World>, evs: seq<Reported>, now: int, i: nat, k: string)
    requires h.Steps(worlds, evs, now) && i <= |evs| && forall j :: 0 <= j < i ==> Key(evs[j].disc) != k
    ensures k in worlds[i].tracker <==> k in worlds[0].tracker
    ensures k in worlds[0].tracker ==> worlds[i].tracker[k] == worlds[0].tracker[k]
    decreases i
  {
    if i > 0 {
      KnownBefore(h, worlds, evs, now, i - 1, k);
      assert h.Processed(worlds[i - 1], evs[i - 1].disc, now, evs[i - 1], worlds[i]);
    }
  }

  lemma DueEvents(h: Healer, past: seq<Tracker.Pass>, worlds: seq<World>, evs: seq<Reported>, now: int, i: nat)
    requires h.Steps(worlds, evs, now) && DistinctKeys(Discs(evs)) && i < |evs|
    requires Tracker.States(worlds[0].tracker) == Tracker.Of(past)
    ensures h.ActedWhenDue(past, worlds, evs, now, i)
  {
    var k := Key(evs[i].disc);
    forall j | 0 <= j < i ensures Key(evs[j].disc) != k {
      assert Key(Discs(evs)[j]) != Key(Discs(evs)[i]);
    }
    KnownBefore(h, worlds, evs, now, i, k);
    assert h.Processed(worlds[i], evs[i].disc, now, evs[i], worlds[i + 1]);
    assert Tracker.Counted(Tracker.States(worlds[i].tracker), k, now) == Tracker.Counted(Tracker.Of(past), k, now);
    Tracker.EligibleIsDue(h.cfg.tracker, past, k, now);
  }

  // ---- At most one failover per deployment and pass ---------------------------------------

  ghost predicate OnlyNodeDown(xs: seq<Disc>, id: string) {
    forall i :: 0 <= i < |xs| && xs[i].depId == id ==> xs[i].typ.NodeDown?
  }

  ghost predicate OnceAtMost(evs: seq<Reported>, ds: seq<Deployment>, id: string) {
    ActedOn(evs, id) <= 1 && (ActedOn(evs, id) == 1 ==> Terminal(ds, id))
  }

  /** The tracker midway through the pass, as far as keys are distinct. */
  ghost predicate TrackedSoFar(h: Healer, observed: seq<Disc>, now: int, t0: map<string, Tracker.Entry>,
                               evs: seq<Reported>, w: World) {
    DistinctKeys(observed) ==> Tracker.Midway(h.cfg.tracker, t0, w.tracker, Marks(evs), now)
  }

  /** No deployment that shows only node-down events has been failed over twice. */
  ghost predicate OnceSoFar(h: Healer, observed: seq<Disc>, evs: seq<Reported>, w: World) {
    h.planner.Some? ==> forall id :: OnlyNodeDown(observed, id) ==> OnceAtMost(evs, w.fleet.deployments, id)
  }

  /** What the loop has established after some of the observed discrepancies. */
  ghost predicate Underway(h: Healer, observed: seq<Disc>, now: int, t0: map<string, Tracker.Entry>,
                           evs: seq<Reported>, worlds: seq<World>) {
    && h.Steps(worlds, evs, now) && |evs| <= |observed| && Discs(evs) == observed[..|evs|]
    && TrackedSoFar(h, observed, now, t0, evs, worlds[|evs|])
    && OnceSoFar(h, observed, evs, worlds[|evs|])
  }

  lemma UnderwayStep(h: Healer, observed: seq<Disc>, now: int, t0: map<string, Tracker.Entry>,
                     evs: seq<Reported>, worlds: seq<World>, ev: Reported, w1: World)
    requires Underway(h, observed, now, t0, evs, worlds) && |evs| < |observed|
    requires UniqueIds(worlds[|evs|].fleet.deployments) && h.Processed(worlds[|evs|], observed[|evs|], now, ev, w1)
    ensures Underway(h, observed, now, t0, evs + [ev], worlds + [w1])
  {
    TrackStep(h, observed, t0, worlds[|evs|], evs, now, ev, w1);
    OnceSoFarStep(h, observed, evs, worlds[|evs|], now, ev, w1);
    StepsAppend(h, worlds, evs, now, ev, w1);
    assert Discs(evs + [ev]) == observed[..|evs| + 1];
  }

  lemma OnceSoFarStep(h: Healer, observed: seq<Disc>, evs: seq<Reported>, w: World, now: int, ev: Reported, w1: World)
    requires |evs| < |observed| && UniqueIds(w.fleet.deployments) && h.Processed(w, observed[|evs|], now, ev, w1)
    requires OnceSoFar(h, observed, evs, w)
    ensures OnceSoFar(h, observed, evs + [ev], w1)
  {
    if h.planner.Some? {
      forall id | OnlyNodeDown(observed, id) ensures OnceAtMost(evs + [ev], w1.fleet.deployments, id) {
        OnceStep(h, evs, w, observed[|evs|], now, ev, w1, id);
      }
    }
  }

  lemma OnceStep(h: Healer, evs: seq<Reported>, w: World, x: Disc, now: int, ev: Reported, w1: World, id: string)
    requires UniqueIds(w.fleet.deployments) && h.planner.Some? && h.Processed(w, x, now, ev, w1)
    requires OnceAtMost(evs, w.fleet.deployments, id) && (x.depId == id ==> x.typ.NodeDown?)
    ensures OnceAtMost(evs + [ev], w1.fleet.deployments, id)
  {
    assert (evs + [ev])[..|evs|] == evs;
    ProcessedKeepsRows(h, w, x, now, ev, w1);
    var before, after := w.fleet.deployments, w1.fleet.deployments;
    if x.depId != id && Terminal(before, id) {
      TerminalKept(before, after, x.depId, id);
    }
  }

  lemma StepsAppend(h: Healer, worlds: seq<World>, evs: seq<Reported>, now: int, ev: Reported, w1: World)
    requires h.Steps(worlds, evs, now) && h.Processed(worlds[|evs|], ev.disc, now, ev, w1)
    ensures h.Steps(worlds + [w1], evs + [ev], now)
  {
    var ws, es := worlds + [w1], evs + [ev];
    forall i | 0 <= i < |es| ensures h.Processed(ws[i], es[i].disc, now, es[i], ws[i + 1]) {
      if i < |evs| { assert h.Processed(worlds[i], evs[i].disc, now, evs[i], worlds[i + 1]); }
    }
  }

  /**
   * What the policy comes to: only an eligible event of a type whose level is Auto, with an actuator and not a new
   * node, is ever acted on; and then a down engine is restarted, an orphan torn down and a down node failed over.
   */
  lemma DispatchMeans(h: Healer, w: World, x: Disc, now: int, ev: Reported, w1: World)
    requires h.Processed(w, x, now, ev, w1)
    ensures var counted := Tracker.Counted(Tracker.States(w.tracker), Key(x), now);
            if Tracker.Eligible(h.cfg.tracker, counted, now) && h.hasActuator && LevelOf(h.cfg, x.typ) == Auto
               && x.typ != NewNode
            then match x.typ
              case EngineDown => RestartOutcome(h.act.orch.env, w.fleet, x.depId, x.nodeId, ev.acted, w1.fleet)
              case OrphanDeployment => TeardownOutcome(h.act.orch.env, w.fleet, x.depId, ev.acted, w1.fleet)
              case _ => NodeDownHandled(h.planner, h.act.orch, w.fleet, x.depId, ev.acted, w1.fleet)
            else !ev.acted && w1.fleet == w.fleet
    ensures ev.acted ==> ev.level == Auto && ev.disc == x
  {
  }

  /**
   * An event touches no row but its deployment's; one that is terminal is not failed over; one that was failed over
   * is terminal.
   */
  lemma ProcessedKeepsRows(h: Healer, w: World, x: Disc, now: int, ev: Reported, w1: World)
    requires UniqueIds(w.fleet.deployments) && h.Processed(w, x, now, ev, w1)
    ensures RowsKept(w.fleet.deployments, w1.fleet.deployments, x.depId)
    ensures x.typ.NodeDown? && ev.acted ==> Terminal(w1.fleet.deployments, x.depId)
    ensures x.typ.NodeDown? && h.planner.Some? && Terminal(w.fleet.deployments, x.depId) ==>
              !ev.acted && w1.fleet == w.fleet
  {
    var s, s1 := w.fleet, w1.fleet;
    if x.typ.NodeDown? && h.Autonomous(x.typ) && Dispatched(h.planner, h.act.orch, true, s, x, ev.acted, s1) {
      NodeDownKeepsRows(h.planner, h.act.orch, s, x.depId, ev.acted, s1);
    }
  }

  lemma PreparationKeepsRows(pl: Planner, s: Snapshot, id: string)
    requires UniqueIds(s.deployments) && Preparation(pl, s, id).Ready?
    ensures UniqueIds(Preparation(pl, s, id).next.deployments)
    ensures RowsKept(s.deployments, Preparation(pl, s, id).next.deployments, id) && !Terminal(s.deployments, id)
  {
    OneRow(s.deployments, Find(s.deployments, id).value);
  }

  lemma NodeDownKeepsRows(pl: Option<Planner>, orch: Controller, s: Snapshot, id: string, acted: bool, s1: Snapshot)
    requires UniqueIds(s.deployments) && NodeDownHandled(pl, orch, s, id, acted, s1)
    ensures RowsKept(s.deployments, s1.deployments, id)
    ensures acted ==> Terminal(s1.deployments, id)
    ensures pl.Some? && Terminal(s.deployments, id) ==> !acted && s1 == s
  {
    if pl.None? || Preparation(pl.value, s, id).Ready? {
      var ready := if pl.Some? then Preparation(pl.value, s, id).next else s;
      var r :| Failover.FailoverOutcome(orch, ready, id, r, s1) && acted == r.Recovered?;
      if pl.Some? { PreparationKeepsRows(pl.value, s, id); }
      FailoverKeepsRows(orch, ready, id, r, s1);
      RowsKeptTwice(s.deployments, ready.deployments, s1.deployments, id);
    }
  }

  lemma FailoverKeepsRows(orch: Controller, s: Snapshot, id: string, r: Failover.FailoverResult, s1: Snapshot)
    requires UniqueIds(s.deployments) && Failover.FailoverOutcome(orch, s, id, r, s1)
    ensures RowsKept(s.deployments, s1.deployments, id) && (r.Recovered? ==> Terminal(s1.deployments, id))
  {
    if r.Recovered? {
      var k := Find(s.deployments, id).value;
      RecoveredKeepsRows(s.deployments, k, s.plans[s.deployments[k].detail.failoverPlanId], s1.deployments,
                         s1.trace[|s.trace|..]);
    }
  }

  lemma RowsKeptTwice(a: seq<Deployment>, b: seq<Deployment>, c: seq<Deployment>, id: string)
    requires RowsKept(a, b, id) && RowsKept(b, c, id)
    ensures RowsKept(a, c, id)
  {
  }

  lemma RecoveredKeepsRows(before: seq<Deployment>, k: nat, plan: Plan, after: seq<Deployment>, tr: seq<Event>)
    requires k < |before| && UniqueIds(before) && Failover.RecoveredFrom(before, k, plan, after, tr)
    ensures RowsKept(before, after, before[k].id) && Terminal(after, before[k].id)
  {
    forall i | 0 <= i < |before| ensures after[i].id == before[i].id && (i != k ==> after[i] == before[i]) {
      assert after[i] == after[..|before|][i];
    }
    assert after[k] == after[..|before|][k];
  }

  lemma OneRow(ds: seq<Deployment>, k: nat)
    requires UniqueIds(ds) && k < |ds|
    ensures Terminal(ds, ds[k].id) <==> ds[k].state == Stopped || ds[k].state == State.Failed
  {
    if Terminal(ds, ds[k].id) {
      var i :| 0 <= i < |ds| && ds[i].id == ds[k].id && (ds[i].state == Stopped || ds[i].state == State.Failed);
    }
  }

  // ---- A pass as a run of operations ------------------------------------------------------

  /** Handling one event is a run of at most two operations, so what holds over their runs holds over passes. */
  lemma EventOps(h: Healer, w: World, x: Disc, now: int, ev: Reported, w1: World)
    returns (states: seq<Snapshot>, ops: seq<Ledger.Op>)
    requires h.Processed(w, x, now, ev, w1)
    ensures Ledger.Continues(h.act.orch, states, ops) && states[0] == w.fleet && states[|ops|] == w1.fleet
  {
    var c, s, s1 := h.act.orch, w.fleet, w1.fleet;
    if s1 == s {
      states, ops := [s], [];
    } else {
      match x.typ {
        case NodeDown =>
          states, ops := NodeDownOps(h.planner, c, s, x.depId, ev.acted, s1);
        case EngineDown =>
          states, ops := [s, s1], [Ledger.Restart(x.depId, x.nodeId)];
          Ledger.OneStep(c, s, ops[0], s1);
        case OrphanDeployment =>
          states, ops := [s, s1], [Ledger.TearDown(x.depId)];
          Ledger.OneStep(c, s, ops[0], s1);
      }
    }
  }

  lemma NodeDownOps(pl: Option<Planner>, c: Controller, s: Snapshot, id: string, acted: bool, s1: Snapshot)
    returns (states: seq<Snapshot>, ops: seq<Ledger.Op>)
    requires NodeDownHandled(pl, c, s, id, acted, s1) && s1 != s
    ensures Ledger.Continues(c, states, ops) && states[0] == s && states[|ops|] == s1
  {
    var ready := if pl.Some? then Preparation(pl.value, s, id).next else s;
    var r :| Failover.FailoverOutcome(c, ready, id, r, s1) && acted == r.Recovered?;
    Ledger.OneStep(c, ready, Ledger.FailOver(id), s1);
    if ready == s {
      states, ops := [s, s1], [Ledger.FailOver(id)];
    } else {
      var stamp := PreparationStamps(pl.value, s, id);
      Ledger.OneStep(c, s, stamp, ready);
      Ledger.Joined(c, [s, ready], [stamp], [ready, s1], [Ledger.FailOver(id)]);
      states, ops := [s, ready] + [ready, s1][1..], [stamp] + [Ledger.FailOver(id)];
    }
  }

  lemma PreparationStamps(pl: Planner, s: Snapshot, id: string) returns (op: Ledger.Op)
    requires Preparation(pl, s, id).Ready? && Preparation(pl, s, id).next != s
    ensures op.Stamp? && Ledger.Stamped(s, op.id, op.planId, Preparation(pl, s, id).next)
  {
    var k := Find(s.deployments, id).value;
    op := Ledger.Stamp(id, Preparation(pl, s, id).next.deployments[k].detail.failoverPlanId);
  }

  /** So is a whole pass, up to any of its events. */
  lemma {:induction false} PassOps(h: Healer, worlds: seq<World>, evs: seq<Reported>, now: int, n: nat)
    returns (states: seq<Snapshot>, ops: seq<Ledger.Op>)
    requires h.Steps(worlds, evs, now) && n <= |evs|
    ensures Ledger.Continues(h.act.orch, states, ops)
    ensures states[0] == worlds[0].fleet && states[|ops|] == worlds[n].fleet
    decreases n
  {
    if n == 0 {
      states, ops := [worlds[0].fleet], [];
    } else {
      var ss, os := PassOps(h, worlds, evs, now, n - 1);
      assert h.Processed(worlds[n - 1], evs[n - 1].disc, now, evs[n - 1], worlds[n]);
      var more, moreOps := EventOps(h, worlds[n - 1], evs[n - 1].disc, now, evs[n - 1], worlds[n]);
      Ledger.Joined(h.act.orch, ss, os, more, moreOps);
      states, ops := ss + more[1..], os + moreOps;
    }
  }
}
