/** The order-sensitive choreography that realizes, tears down and repairs deployments. */
module Orchestrator {
  import opened Common
  import opened Fleet

  // ---- The outside world ------------------------------------------------------------------

  /** What an engine stream delivers, one item after another. Giving up after the step timeout is an item too. */
  datatype Item = Loading | Metrics | OtherEvent | ReadyEvent(handle: string) | ErrorEvent | Eof | RecvError | TimedOut

  datatype Start = OpenFailed | Stream(items: seq<Item>)

  /** Agents, resolver, gateway and id source: arbitrary answers, free to depend on everything that happened before. */
  datatype Env = Env(
    resolve: (seq<Event>, string) -> Option<Endpoint>,
    start: (seq<Event>, string, StartRequest) -> Start,
    gatewayOk: seq<Event> -> bool,
    newId: seq<Event> -> string)

  // ---- Plans ------------------------------------------------------------------------------

  function WithRole(assignments: seq<Assignment>, role: Role): (r: seq<Assignment>)
  {
    if assignments == [] then []
    else
      var front, a := WithRole(assignments[..|assignments| - 1], role), assignments[|assignments| - 1];
      if a.role == role then front + [a] else front
  }

  datatype PlanError = NoAgents | NilPlan | MultipleHosts | UnspecifiedRole | NoHost | CreateFailed

  predicate Specified(assignments: seq<Assignment>) {
    forall i :: 0 <= i < |assignments| ==> assignments[i].role != Unspecified
  }

  /** A usable plan has no unspecified role and exactly one host. */
  predicate Usable(p: Plan) {
    Specified(p.assignments) && |WithRole(p.assignments, Host)| == 1
  }

  /** The start order: workers as listed, then the host. */
  function Order(p: Plan): (r: seq<Assignment>)
    requires Usable(p)
  {
    WithRole(p.assignments, Worker) + WithRole(p.assignments, Host)
  }

  /** Index i is the first assignment with an unspecified role or a second host. */
  ghost predicate RefusedAt(s: seq<Assignment>, i: int) {
    && 0 <= i < |s| && Specified(s[..i]) && |WithRole(s[..i], Host)| <= 1
    && (s[i].role.Unspecified? || (s[i].role.Host? && |WithRole(s[..i], Host)| == 1))
  }

  lemma OneRefusal(s: seq<Assignment>, i: int)
    requires RefusedAt(s, i)
    ensures forall j :: RefusedAt(s, j) ==> j == i
    ensures !Specified(s) || WithRole(s, Host) != []
  {
    forall j | RefusedAt(s, j) ensures j == i {
      if i < j { RefusedBefore(s, i, j); } else if j < i { RefusedBefore(s, j, i); }
    }
    if s[i].role.Unspecified? { assert !Specified(s); } else { RolePrefix(s, i, Host); }
  }

  /** Past a refused assignment the prefix is no longer acceptable. */
  lemma RefusedBefore(s: seq<Assignment>, i: int, j: int)
    requires RefusedAt(s, i) && i < j <= |s|
    ensures !Specified(s[..j]) || |WithRole(s[..j], Host)| >= 2
  {
    if s[i].role.Unspecified? {
      assert s[..j][i] == s[i];
    } else {
      WithRoleStep(s, i, Host);
      RolePrefix(s[..j], i + 1, Host);
      assert s[..j][..i + 1] == s[..i + 1];
    }
  }

  lemma NoRefusal(s: seq<Assignment>)
    requires Specified(s) && |WithRole(s, Host)| <= 1
    ensures forall i :: !RefusedAt(s, i)
  {
    assert s[..|s|] == s;
    forall i ensures !RefusedAt(s, i) {
      if RefusedAt(s, i) { RefusedBefore(s, i, |s|); }
    }
  }

  method Partition(p: Plan) returns (r: Result<(seq<Assignment>, Assignment), PlanError>)
    ensures r.Ok? <==> Usable(p)
    ensures r.Ok? ==> Order(p) == r.value.0 + [r.value.1] && r.value.0 == WithRole(p.assignments, Worker)
    ensures r.Err? ==> r.error == MultipleHosts || r.error == UnspecifiedRole || r.error == NoHost
    ensures r == Err(MultipleHosts) <==> exists i :: RefusedAt(p.assignments, i) && p.assignments[i].role.Host?
    ensures r == Err(UnspecifiedRole) <==> exists i :: RefusedAt(p.assignments, i) && p.assignments[i].role.Unspecified?
    ensures r == Err(NoHost) <==> Specified(p.assignments) && WithRole(p.assignments, Host) == []
  {
    var workers: seq<Assignment> := [];
    var host: Option<Assignment> := None;
    for i := 0 to |p.assignments|
      invariant workers == WithRole(p.assignments[..i], Worker)
      invariant WithRole(p.assignments[..i], Host) == if host.Some? then [host.value] else []
      invariant Specified(p.assignments[..i])
    {
      var a := p.assignments[i];
      WithRoleStep(p.assignments, i, Worker);
      WithRoleStep(p.assignments, i, Host);
      match a.role
      case Worker =>
        workers := workers + [a];
      case Host =>
        if host.Some? {
          RolePrefix(p.assignments, i + 1, Host);
          OneRefusal(p.assignments, i);
          return Err(MultipleHosts);
        }
        host := Some(a);
      case Unspecified =>
        OneRefusal(p.assignments, i);
        return Err(UnspecifiedRole);
    }
    assert p.assignments[..|p.assignments|] == p.assignments;
    NoRefusal(p.assignments);
    if host.None? { return Err(NoHost); }
    return Ok((workers, host.value));
  }

  lemma {:induction false} WithRoleRole(s: seq<Assignment>, role: Role)
    ensures forall i :: 0 <= i < |WithRole(s, role)| ==> WithRole(s, role)[i].role == role
  {
    if s != [] {
      WithRoleRole(s[..|s| - 1], role);
    }
  }

  lemma WithRoleStep(s: seq<Assignment>, i: nat, role: Role)
    requires i < |s|
    ensures WithRole(s[..i + 1], role) == WithRole(s[..i], role) + if s[i].role == role then [s[i]] else []
  {
    assert s[..i + 1][..i] == s[..i];
  }

  lemma {:induction false} RolePrefix(s: seq<Assignment>, k: nat, role: Role)
    requires k <= |s|
    ensures |WithRole(s[..k], role)| <= |WithRole(s, role)|
  {
    if k < |s| {
      RolePrefix(s[..|s| - 1], k, role);
      assert s[..|s| - 1][..k] == s[..k];
    } else {
      assert s[..k] == s;
    }
  }

  // ---- The choreography -------------------------------------------------------------------

  /** The request for an assignment; only the host is told its peers. */
  function RequestFor(p: Plan, a: Assignment, peers: seq<string>): (r: StartRequest) {
    StartRequest(p.modelId, a.role, a.layerStart, a.layerEnd,
                 if a.role == Host then peers else [], p.quantization, a.draft)
  }

  /** The first |done| assignments are READY, in order, each in its own role. */
  ghost predicate InOrder(p: Plan, done: seq<(EngineRef, Endpoint)>)
    requires Usable(p)
  {
    |done| <= |Order(p)| && forall j :: 0 <= j < |done| ==>
      done[j].0.nodeId == Order(p)[j].nodeId && done[j].0.role == Order(p)[j].role
      && done[j].0.agentAddr == done[j].1.agentAddr
  }

  /**
   * A start is for the next assignment in order, when all before it are READY, and passes exactly their addresses as
   * peers.
   */
  ghost predicate NextStart(p: Plan, done: seq<(EngineRef, Endpoint)>, e: Event)
    requires Usable(p) && e.StartEngine?
  {
    && InOrder(p, done) && |done| < |Order(p)|
    && e.nodeId == Order(p)[|done|].nodeId
    && e.req == RequestFor(p, Order(p)[|done|], InferenceAddrs(done))
  }

  /** Every start in the trace is the next one in order. */
  ghost predicate Choreographed(p: Plan, tr: seq<Event>)
    requires Usable(p)
  {
    if tr == [] then true
    else
      var front, e := tr[..|tr| - 1], tr[|tr| - 1];
      Choreographed(p, front) && (e.StartEngine? ==> NextStart(p, Readies(front), e))
  }

  lemma ChoreographedAppend(p: Plan, tr: seq<Event>, e: Event)
    requires Usable(p) && Choreographed(p, tr) && (e.StartEngine? ==> NextStart(p, Readies(tr), e))
    ensures Choreographed(p, tr + [e])
  {
    assert (tr + [e])[..|tr|] == tr;
  }

  lemma {:induction false} ChoreographedStops(p: Plan, tr: seq<Event>, stops: seq<(string, string)>)
    requires Usable(p) && Choreographed(p, tr)
    ensures Choreographed(p, tr + StopEvents(stops))
  {
    if stops == [] {
      assert tr + StopEvents(stops) == tr;
    } else {
      var front, last := stops[..|stops| - 1], stops[|stops| - 1];
      ChoreographedStops(p, tr, front);
      ChoreographedAppend(p, tr + StopEvents(front), StopEngine(last.0, last.1));
      StopEventsLast(tr, stops);
    }
  }

  lemma {:induction false} ChoreographedAt(p: Plan, tr: seq<Event>, i: nat)
    requires Usable(p) && Choreographed(p, tr) && i < |tr| && tr[i].StartEngine?
    ensures NextStart(p, Readies(tr[..i]), tr[i])
  {
    if i < |tr| - 1 {
      ChoreographedAt(p, tr[..|tr| - 1], i);
      assert tr[..|tr| - 1][..i] == tr[..i];
    }
  }

  /**
   * What a start command carries, written out: the plan's model and quantization, and the role, layers and draft flag
   * of the next assignment in order; peers only for the host, and then the addresses of everything READY before it.
   */
  lemma StartCarries(p: Plan, tr: seq<Event>, i: nat)
    requires Usable(p) && Choreographed(p, tr) && i < |tr| && tr[i].StartEngine?
    ensures |Readies(tr[..i])| < |Order(p)|
    ensures var a, req := Order(p)[|Readies(tr[..i])|], tr[i].req;
            && tr[i].nodeId == a.nodeId
            && req.modelRef == p.modelId && req.quantization == p.quantization
            && req.role == a.role && req.draft == a.draft
            && req.layerStart == a.layerStart && req.layerEnd == a.layerEnd
            && (a.role == Worker ==> req.peers == [])
            && (a.role == Host ==> req.peers == InferenceAddrs(Readies(tr[..i])))
  {
    ChoreographedAt(p, tr, i);
  }

  /** The order of starts: first the workers as the plan lists them, then its one host; nobody else. */
  lemma OrderIsWorkersThenHost(p: Plan)
    requires Usable(p)
    ensures var o := Order(p);
            && o != [] && o[|o| - 1].role == Host && (forall i :: 0 <= i < |o| - 1 ==> o[i].role == Worker)
            && multiset(o) == multiset(p.assignments) && o[..|o| - 1] == WithRole(p.assignments, Worker)
  {
    WithRoleRole(p.assignments, Worker);
    WithRoleRole(p.assignments, Host);
    WithRoleAll(p.assignments);
  }

  lemma WithRoleAll(s: seq<Assignment>)
    requires Specified(s)
    ensures multiset(WithRole(s, Worker)) + multiset(WithRole(s, Host)) == multiset(s)
  {
    forall a ensures multiset(s)[a] == multiset(WithRole(s, Worker))[a] + multiset(WithRole(s, Host))[a] {
      WithRoleCount(s, Worker, a);
      WithRoleCount(s, Host, a);
      if a in s { var i :| 0 <= i < |s| && s[i] == a; }
    }
  }

  lemma {:induction false} WithRoleCount(s: seq<Assignment>, role: Role, a: Assignment)
    ensures multiset(WithRole(s, role))[a] == if a.role == role then multiset(s)[a] else 0
  {
    if s != [] {
      var front, last := s[..|s| - 1], s[|s| - 1];
      WithRoleCount(front, role, a);
      assert s == front + [last];
    }
  }

  /**
   * Before the host starts, every worker is READY in plan order, and the host's peers are exactly their inference
   * addresses.
   */
  lemma HostAfterAllWorkers(p: Plan, tr: seq<Event>, i: nat)
    requires Usable(p) && Choreographed(p, tr) && i < |tr| && tr[i].StartEngine? && tr[i].req.role == Host
    ensures var workers, done := WithRole(p.assignments, Worker), Readies(tr[..i]);
            && |done| == |workers|
            && (forall j :: 0 <= j < |workers| ==> done[j].0.nodeId == workers[j].nodeId && done[j].0.role == Worker)
            && tr[i].req.peers == InferenceAddrs(done)
  {
    ChoreographedAt(p, tr, i);
    WithRoleRole(p.assignments, Worker);
    WithRoleRole(p.assignments, Host);
    var workers, done := WithRole(p.assignments, Worker), Readies(tr[..i]);
    assert forall j :: 0 <= j < |workers| ==> Order(p)[j] == workers[j];
  }

  // ---- Results ----------------------------------------------------------------------------

  datatype Applied = Refused(error: PlanError) | FailedDeployment(id: string) | Deployed(id: string)

  /** How a run of Apply that got past its checks ends: all of it in one statement. */
  ghost predicate Realized(p: Plan, row: Deployment, tr: seq<Event>, active: bool)
    requires Usable(p)
  {
    var done := Readies(tr);
    && row.modelId == p.modelId && row.planId == p.planId
    && row.detail.modelId == p.modelId && row.detail.quantization == p.quantization && row.detail.failoverPlanId == ""
    && Choreographed(p, tr) && InOrder(p, done)
    && row.detail.engines == Refs(done) && row.detail.failed == !active
    && RowWritten(row) in tr
    && (active ==> row.state == Active && |done| == |Order(p)| && Stops(tr) == []
                   && row.detail.hostNodeId == done[|done| - 1].0.nodeId && done[|done| - 1].0.role == Host
                   && row.detail.endpoint == "http://" + done[|done| - 1].1.inferenceAddr)
    && (!active ==>
        && |done| < |Order(p)|
        && row.state == Failed
        && row.detail.endpoint == ""
        && Stops(tr) == Reversed(row.detail.engines))
  }

  /** The handle in the first decisive event, if that event is READY. */
  function Outcome(items: seq<Item>): (r: Option<string>) {
    if items == [] then None
    else match items[0]
      case ReadyEvent(h) => Some(h)
      case Loading => Outcome(items[1..])
      case Metrics => Outcome(items[1..])
      case OtherEvent => Outcome(items[1..])
      case _ => None
  }

  predicate Waiting(i: Item) { i.Loading? || i.Metrics? || i.OtherEvent? }

  /** READY counts exactly when nothing but loading, metrics and unknown events came before it. */
  lemma {:induction false} OutcomeIsFirstDecisive(items: seq<Item>, h: string)
    ensures Outcome(items) == Some(h) <==>
            exists i :: 0 <= i < |items| && items[i] == ReadyEvent(h)
                        && forall j :: 0 <= j < i ==> items[j].Loading? || items[j].Metrics? || items[j].OtherEvent?
  {
    if items != [] && Waiting(items[0]) {
      OutcomeIsFirstDecisive(items[1..], h);
      if i :| 0 <= i < |items[1..]| && items[1..][i] == ReadyEvent(h)
              && forall j :: 0 <= j < i ==> Waiting(items[1..][j]) {
        forall j | 0 <= j < i + 1 ensures Waiting(items[j]) {
          if j > 0 { assert items[j] == items[1..][j - 1]; }
        }
        assert items[i + 1] == ReadyEvent(h);
      }
      if i :| 0 <= i < |items| && items[i] == ReadyEvent(h) && forall j :: 0 <= j < i ==> Waiting(items[j]) {
        assert items[1..][i - 1] == ReadyEvent(h);
        forall j | 0 <= j < i - 1 ensures Waiting(items[1..][j]) { assert items[1..][j] == items[j + 1]; }
      }
    }
  }

  /** The handle a start leads to, if the engine becomes READY. */
  function ReadyHandle(s: Start): (h: Option<string>) { if s.OpenFailed? then None else Outcome(s.items) }

  // ---- Where the events come from ---------------------------------------------------------

  /**
   * Every start went where the resolver pointed at that moment, and every READY with its handle is the agent's
   * answer to the start right before it.
   */
  ghost predicate Follows(env: Env, full: seq<Event>, base: nat) {
    if |full| <= base then true
    else
      var front, e := full[..|full| - 1], full[|full| - 1];
      && Follows(env, front, base)
      && (e.StartEngine? ==> env.resolve(front, e.nodeId) == Some(e.at))
      && (e.EngineReady? ==>
            && front != [] && front[|front| - 1].StartEngine? && front[|front| - 1].nodeId == e.engine.nodeId
            && front[|front| - 1].at == e.at
            && ReadyHandle(env.start(front[..|front| - 1], e.at.agentAddr, front[|front| - 1].req)) ==
              Some(e.engine.handle))
  }

  /** The next engine cannot come up: its node does not resolve, or its start, just issued, never reports READY. */
  ghost predicate Blocked(env: Env, full: seq<Event>, nodeId: string) {
    || env.resolve(full, nodeId).None?
    || (full != [] && full[|full| - 1].StartEngine? && full[|full| - 1].nodeId == nodeId
        && ReadyHandle(env.start(full[..|full| - 1], full[|full| - 1].at.agentAddr, full[|full| - 1].req)).None?)
  }

  /** The run up to its exit follows the environment, and it stopped short only because the next engine was blocked. */
  ghost predicate Explained(env: Env, p: Plan, full: seq<Event>, base: nat)
    requires Usable(p) && base <= |full|
  {
    exists m :: base <= m <= |full| && Follows(env, full[..m], base) && Readies(full[base..m]) == Readies(full[base..])
      && (|Readies(full[base..])| < |Order(p)| ==> Blocked(env, full[..m], Order(p)[|Readies(full[base..])|].nodeId))
  }

  method AwaitReady(items: seq<Item>) returns (handle: Option<string>)
    ensures handle == Outcome(items)
  {
    var i := 0;
    while i < |items|
      invariant 0 <= i <= |items| && Outcome(items) == Outcome(items[i..])
    {
      var ev := items[i];
      match ev {
        case ReadyEvent(h) => return Some(h);
        case ErrorEvent => return None;
        case Eof => return None;
        case RecvError => return None;
        case TimedOut => return None;
        case _ =>
      }
      assert items[i..][1..] == items[i + 1..];
      i := i + 1;
    }
    return None;
  }

  class Controller {
    const cluster: Cluster
    const env: Env
    const hasAgents: bool

    constructor (cluster: Cluster, env: Env, hasAgents: bool)
      ensures this.cluster == cluster && this.env == env && this.hasAgents == hasAgents
    {
      this.cluster, this.env, this.hasAgents := cluster, env, hasAgents;
    }

    /** Issues one start and waits for its first decisive event. */
    method StartAndWaitReady(nodeId: string, at: Endpoint, req: StartRequest) returns (handle: Option<string>)
      modifies cluster`trace
      ensures handle == ReadyHandle(env.start(old(cluster.trace), at.agentAddr, req))
      ensures cluster.trace == old(cluster.trace) + [StartEngine(nodeId, at, req)]
                + if handle.Some? then [EngineReady(EngineRef(nodeId, at.agentAddr, req.role, handle.value), at)]
                  else []
    {
      var s := env.start(cluster.trace, at.agentAddr, req);
      cluster.Emit(StartEngine(nodeId, at, req));
      if s.OpenFailed? { return None; }
      handle := AwaitReady(s.items);
      if handle.Some? {
        cluster.Emit(EngineReady(EngineRef(nodeId, at.agentAddr, req.role, handle.value), at));
      }
    }

    /** Stops the engines in reverse order, whatever each stop answers. */
    method Rollback(engines: seq<EngineRef>)
      modifies cluster`trace
      ensures cluster.trace == old(cluster.trace) + StopEvents(Reversed(engines))
    {
      var i := |engines| - 1;
      while i >= 0
        invariant -1 <= i < |engines|
        invariant cluster.trace == old(cluster.trace) + StopEvents(Reversed(engines))[..|engines| - 1 - i]
      {
        cluster.Emit(StopEngine(engines[i].agentAddr, engines[i].handle));
        i := i - 1;
      }
    }

    /** The step for one assignment: resolve, start, wait. None means the whole deployment must fail. */
    method Bring(p: Plan, base: nat, ghost done: seq<(EngineRef, Endpoint)>, k: nat, peers: seq<string>)
      returns (engine: Option<(EngineRef, Endpoint)>)
      requires Usable(p) && k == |done| < |Order(p)| && peers == InferenceAddrs(done)
      requires base <= |cluster.trace| && Progress(p, cluster.trace[base..], done) && Follows(env, cluster.trace, base)
      modifies cluster`trace
      ensures old(cluster.trace) <= cluster.trace && Follows(env, cluster.trace, base)
      ensures Progress(p, cluster.trace[base..], done + if engine.Some? then [engine.value] else [])
      ensures engine.None? ==> Blocked(env, cluster.trace, Order(p)[k].nodeId)
    {
      assert done + [] == done;
      var a := Order(p)[k];
      var at := env.resolve(cluster.trace, a.nodeId);
      if at.None? { return None; }
      var req := RequestFor(p, a, peers);
      ghost var start := StartEngine(a.nodeId, at.value, req);
      var handle := StartAndWaitReady(a.nodeId, at.value, req);
      StartOutcome(env, p, old(cluster.trace), base, done, start);
      if handle.None? {
        assert cluster.trace == old(cluster.trace) + [start];
        return None;
      }
      var engineRef := EngineRef(a.nodeId, at.value.agentAddr, a.role, handle.value);
      ReadyOutcome(env, p, old(cluster.trace), base, done, start, engineRef);
      return Some((engineRef, at.value));
    }

    /** The failure exit: stop what was started, last first, and record the row as FAILED. */
    method Fail(p: Plan, base: nat, ghost done: seq<(EngineRef, Endpoint)>, row: Deployment, started: seq<EngineRef>)
      returns (end: Deployment)
      requires Usable(p) && cluster.Valid() && Find(cluster.deployments, row.id).Some? && row == FreshRow(p, row.id)
      requires base <= |cluster.trace| && Progress(p, cluster.trace[base..], done) && started == Refs(done)
      requires |done| < |Order(p)| && Follows(env, cluster.trace, base)
      requires Blocked(env, cluster.trace, Order(p)[|done|].nodeId)
      modifies cluster`deployments, cluster`trace
      ensures cluster.Valid() && old(cluster.trace) <= cluster.trace && Explained(env, p, cluster.trace, base)
      ensures end.id == row.id && Realized(p, end, cluster.trace[base..], false)
      ensures cluster.deployments == old(cluster.deployments)[Find(old(cluster.deployments), row.id).value := end]
    {
      end := row.(state := Failed, detail := row.detail.(failed := true, engines := started));
      Rollback(started);
      cluster.WriteRow(end);
      FailedOutcome(env, p, old(cluster.trace), base, done, end);
    }

    /** The success exit: record the row as ACTIVE with its engines and publish the route, best-effort. */
    method Activate(p: Plan, base: nat, ghost done: seq<(EngineRef, Endpoint)>, row: Deployment,
                    started: seq<EngineRef>, at: Endpoint)
      returns (end: Deployment)
      requires Usable(p) && cluster.Valid() && Find(cluster.deployments, row.id).Some? && row == FreshRow(p, row.id)
      requires base <= |cluster.trace| && Progress(p, cluster.trace[base..], done) && started == Refs(done)
      requires |done| == |Order(p)| && at == done[|done| - 1].1 && Follows(env, cluster.trace, base)
      modifies cluster`deployments, cluster`trace, cluster`routes
      ensures cluster.Valid() && old(cluster.trace) <= cluster.trace && Explained(env, p, cluster.trace, base)
      ensures end.id == row.id && Realized(p, end, cluster.trace[base..], true)
      ensures cluster.deployments == old(cluster.deployments)[Find(old(cluster.deployments), row.id).value := end]
      ensures Published(env, old(cluster.routes), cluster.routes, cluster.trace, end)
    {
      end := row.(state := Active, detail := row.detail.(hostNodeId := started[|started| - 1].nodeId,
                                                         endpoint := "http://" + at.inferenceAddr, engines := started));
      cluster.WriteRow(end);
      var ok := env.gatewayOk(cluster.trace);
      cluster.Emit(RouteUpsert(RouteOf(end)));
      if ok { cluster.routes := cluster.routes[end.detail.modelId := RouteOf(end)]; }
      ActiveOutcome(env, p, old(cluster.trace), base, done, end);
    }

    /** The worker loop: stops at the first worker that does not become READY. */
    method BringWorkers(p: Plan, base: nat, n: nat)
      returns (started: seq<EngineRef>, peerAddrs: seq<string>, ready: bool, ghost done: seq<(EngineRef, Endpoint)>)
      requires Usable(p) && n < |Order(p)| && base <= |cluster.trace| && Progress(p, cluster.trace[base..], [])
      requires Follows(env, cluster.trace, base)
      modifies cluster`trace
      ensures old(cluster.trace) <= cluster.trace && Progress(p, cluster.trace[base..], done)
      ensures Follows(env, cluster.trace, base)
      ensures started == Refs(done) && peerAddrs == InferenceAddrs(done)
      ensures ready ==> |done| == n
      ensures !ready ==> |done| < n && Blocked(env, cluster.trace, Order(p)[|done|].nodeId)
    {
      started, peerAddrs, done := [], [], [];
      for k := 0 to n
        invariant old(cluster.trace) <= cluster.trace && Progress(p, cluster.trace[base..], done) && |done| == k
        invariant Follows(env, cluster.trace, base)
        invariant started == Refs(done) && peerAddrs == InferenceAddrs(done)
      {
        var w := Bring(p, base, done, k, peerAddrs);
        if w.None? {
          assert done + [] == done;
          return started, peerAddrs, false, done;
        }
        started := started + [w.value.0];
        peerAddrs := peerAddrs + [w.value.1.inferenceAddr];
        done := done + [w.value];
      }
      ready := true;
    }

    /**
     * From the provisioning row to the end: workers, then the host with the workers as peers, then ACTIVE; any
     * failure rolls back.
     */
    method Provision(p: Plan, base: nat, row: Deployment, workers: nat) returns (active: bool, end: Deployment)
      requires Usable(p) && workers == |Order(p)| - 1 && row == FreshRow(p, row.id)
      requires cluster.Valid() && Find(cluster.deployments, row.id).Some?
      requires base <= |cluster.trace| && Progress(p, cluster.trace[base..], []) && Follows(env, cluster.trace, base)
      modifies cluster`deployments, cluster`trace, cluster`routes
      ensures cluster.Valid() && old(cluster.trace) <= cluster.trace && Explained(env, p, cluster.trace, base)
      ensures end.id == row.id && Realized(p, end, cluster.trace[base..], active)
      ensures cluster.deployments == old(cluster.deployments)[Find(old(cluster.deployments), row.id).value := end]
      ensures !active ==> cluster.routes == old(cluster.routes)
      ensures active ==> Published(env, old(cluster.routes), cluster.routes, cluster.trace, end)
    {
      var started, at, done := BringAll(p, base, workers);
      if at.None? {
        end := Fail(p, base, done, row, started);
        return false, end;
      }
      end := Activate(p, base, done, row, started, at.value);
      return true, end;
    }

    /** Workers, then the host with the workers as peers; the host's endpoint when everything is READY. */
    method BringAll(p: Plan, base: nat, workers: nat)
      returns (started: seq<EngineRef>, at: Option<Endpoint>, ghost done: seq<(EngineRef, Endpoint)>)
      requires Usable(p) && workers == |Order(p)| - 1
      requires base <= |cluster.trace| && Progress(p, cluster.trace[base..], []) && Follows(env, cluster.trace, base)
      modifies cluster`trace
      ensures old(cluster.trace) <= cluster.trace && Progress(p, cluster.trace[base..], done)
      ensures Follows(env, cluster.trace, base)
      ensures started == Refs(done)
      ensures at.Some? ==> |done| == |Order(p)| && at.value == done[|done| - 1].1
      ensures at.None? ==> |done| < |Order(p)| && Blocked(env, cluster.trace, Order(p)[|done|].nodeId)
    {
      var peerAddrs, ready;
      started, peerAddrs, ready, done := BringWorkers(p, base, workers);
      if !ready { return started, None, done; }
      var h := Bring(p, base, done, workers, peerAddrs);
      if h.None? {
        assert done + [] == done;
        return started, None, done;
      }
      return started + [h.value.0], Some(h.value.1), done + [h.value];
    }

    /** The provisioning row, first of all. */
    method Announce(p: Plan, row: Deployment)
      requires Usable(p) && cluster.Valid() && Find(cluster.deployments, row.id).None?
      modifies cluster`deployments, cluster`trace
      ensures cluster.Valid() && cluster.deployments == old(cluster.deployments) + [row]
      ensures Find(cluster.deployments, row.id) == Some(|old(cluster.deployments)|)
      ensures cluster.trace == old(cluster.trace) + [RowWritten(row)]
      ensures Progress(p, cluster.trace[|old(cluster.trace)|..], [])
      ensures Follows(env, cluster.trace, |old(cluster.trace)|)
    {
      ghost var base := |cluster.trace|;
      cluster.CreateRow(row);
      FirstWrite(p, row);
      assert cluster.trace[base..] == [RowWritten(row)];
      assert Follows(env, cluster.trace, base) by { assert Follows(env, cluster.trace[..base], base); }
    }

    /** Realizes a plan: refused without effect, or one new row that ends ACTIVE or FAILED as `Realized` says. */
    method Apply(plan: Option<Plan>) returns (r: Applied)
      requires cluster.Valid()
      modifies cluster
      ensures cluster.Valid() && cluster.plans == old(cluster.plans) && old(cluster.trace) <= cluster.trace
      ensures ApplyOutcome(env, hasAgents, old(cluster.Now()), plan, r, cluster.Now())
    {
      if !hasAgents { return Refused(NoAgents); }
      if plan.None? { return Refused(NilPlan); }
      var p := plan.value;
      var parts := Partition(p);
      if parts.Err? { return Refused(parts.error); }
      var (workers, host) := parts.value;
      var id := env.newId(cluster.trace);
      if Find(cluster.deployments, id).Some? { return Refused(CreateFailed); }
      var base := |cluster.trace|;
      var row := FreshRow(p, id);
      Announce(p, row);
      ghost var announced := cluster.trace;
      var active, end := Provision(p, base, row, |workers|);
      assert cluster.trace[base] == announced[base];
      return if active then Deployed(id) else FailedDeployment(id);
    }

    /**
     * Stops every engine, host first, removes the route best-effort and ends STOPPED; nothing happens for an unknown
     * id.
     */
    method Teardown(id: string) returns (ok: bool)
      requires cluster.Valid()
      modifies cluster
      ensures cluster.Valid() && cluster.plans == old(cluster.plans)
      ensures TeardownOutcome(env, old(cluster.Now()), id, ok, cluster.Now())
    {
      var found := Find(cluster.deployments, id);
      if found.None? { return false; }
      var k := found.value;
      var row := cluster.deployments[k];
      FindUnique(cluster.deployments, k);
      cluster.WriteRow(row.(state := Stopping));
      Rollback(row.detail.engines);
      DropRoute(row.detail.modelId);
      cluster.WriteRow(row.(state := Stopped));
      TeardownRegroup(old(cluster.trace), row);
      return true;
    }

    /** Deletes the model's route, best-effort. */
    method DropRoute(modelId: string)
      modifies cluster`routes, cluster`trace
      ensures cluster.trace == old(cluster.trace) + if modelId != "" then [RouteDelete(modelId)] else []
      ensures cluster.routes == Unrouted(env, old(cluster.routes), old(cluster.trace), modelId)
    {
      if modelId != "" {
        var deleted := env.gatewayOk(cluster.trace);
        cluster.Emit(RouteDelete(modelId));
        if deleted { cluster.routes := cluster.routes - {modelId}; }
      }
    }

    /**
     * Restarts one node's engine; it succeeds exactly when that engine reports READY again, and makes the row ACTIVE
     * whatever it was.
     */
    method RestartEngine(id: string, nodeId: string) returns (ok: bool)
      requires cluster.Valid()
      modifies cluster`deployments, cluster`trace
      ensures cluster.Valid() && old(cluster.trace) <= cluster.trace
      ensures RestartOutcome(env, old(cluster.Now()), id, nodeId, ok, cluster.Now())
    {
      var found := Find(cluster.deployments, id);
      if found.None? { return false; }
      var row := cluster.deployments[found.value];
      var engines := row.detail.engines;
      var idx := 0;
      while idx < |engines| && engines[idx].nodeId != nodeId
        invariant 0 <= idx <= |engines|
        invariant forall i :: 0 <= i < idx ==> engines[i].nodeId != nodeId
      {
        idx := idx + 1;
      }
      if idx == |engines| { return false; }
      EngineOnFirst(engines, nodeId, idx);
      var handle := StartAndWaitReady(nodeId, Endpoint(engines[idx].agentAddr, ""), RestartRequest(row, idx));
      if handle.None? { return false; }
      FindUnique(cluster.deployments, found.value);
      cluster.WriteRow(Restarted(row, idx, handle.value));
      return true;
    }
  }

  /**
   * A refusal, for exactly these reasons, changes nothing. Otherwise one new row, last, under a new id, ends ACTIVE
   * with its route pushed or FAILED, as `Realized` says and for the reason `Explained` gives.
   */
  ghost predicate ApplyOutcome(env: Env, hasAgents: bool, s: Snapshot, plan: Option<Plan>, r: Applied, s1: Snapshot) {
    var n := |s.deployments|;
    && (r.Refused? <==>
          !hasAgents || plan.None? || !Usable(plan.value) || Find(s.deployments, env.newId(s.trace)).Some?)
    && (r.Refused? ==> s1 == s)
    && (!r.Refused? ==>
          && s1.plans == s.plans && s.trace <= s1.trace
          && |s1.deployments| == n + 1 && s1.deployments[..n] == s.deployments
          && r.id == s1.deployments[n].id == env.newId(s.trace)
          && |s.trace| < |s1.trace| && Announces(s1.trace[|s.trace|], plan.value, r.id)
          && Realized(plan.value, s1.deployments[n], s1.trace[|s.trace|..], r.Deployed?)
          && Explained(env, plan.value, s1.trace, |s.trace|))
    && (r.FailedDeployment? ==> s1.routes == s.routes)
    && (r.Deployed? ==> Published(env, s.routes, s1.routes, s1.trace, s1.deployments[n]))
  }

  /** Before anything is started, a PROVISIONING row without engines is written for the plan. */
  ghost predicate Announces(e: Event, p: Plan, id: string) {
    && e.RowWritten? && e.row.id == id && e.row.modelId == p.modelId && e.row.planId == p.planId
    && e.row.state == Provisioning && e.row.detail.engines == [] && e.row.detail.endpoint == ""
  }

  /** A teardown succeeds exactly for a known id; then that row is STOPPED, after all its engines were told to stop. */
  ghost predicate TeardownOutcome(env: Env, s: Snapshot, id: string, ok: bool, s1: Snapshot) {
    var found := Find(s.deployments, id);
    && (ok <==> found.Some?)
    && (!ok ==> s1 == s)
    && (ok ==>
          var row := s.deployments[found.value];
          var stopping := s.trace + [RowWritten(row.(state := Stopping))] + StopEvents(Reversed(row.detail.engines));
          s1 == s.(deployments := s.deployments[found.value := row.(state := Stopped)],
                   routes := Unrouted(env, s.routes, stopping, row.detail.modelId),
                   trace := s.trace + TeardownTrace(row)))
  }

  /** The route an apply pushes, written out: the plan's model and quantization, the new deployment and its endpoint. */
  lemma ApplyPushes(env: Env, hasAgents: bool, s: Snapshot, p: Plan, r: Applied, s1: Snapshot)
    requires ApplyOutcome(env, hasAgents, s, Some(p), r, s1) && r.Deployed?
    ensures var made := s1.deployments[|s.deployments|];
            var route := Route(p.modelId, made.detail.endpoint, r.id, p.quantization);
            && s1.trace != [] && s1.trace[|s1.trace| - 1] == RouteUpsert(route)
            && s1.routes == if env.gatewayOk(s1.trace[..|s1.trace| - 1]) then s.routes[p.modelId := route] else s.routes
  {
  }

  /** A teardown's commands, written out: STOPPING first, the recorded model's route deleted once, STOPPED last. */
  lemma TeardownMeans(env: Env, s: Snapshot, id: string, s1: Snapshot)
    requires TeardownOutcome(env, s, id, true, s1)
    ensures var row, tail := s.deployments[Find(s.deployments, id).value], s1.trace[|s.trace|..];
            && |tail| >= 2 && tail[0].RowWritten? && tail[0].row.id == id && tail[0].row.state == Stopping
            && tail[|tail| - 1].RowWritten? && tail[|tail| - 1].row.id == id && tail[|tail| - 1].row.state == Stopped
            && (forall m :: RouteDelete(m) in tail <==> m == row.detail.modelId && m != "")
            && s1.deployments[Find(s.deployments, id).value].detail == row.detail
  {
    var row := s.deployments[Find(s.deployments, id).value];
    var tail, n := TeardownTrace(row), |row.detail.engines|;
    assert s1.trace[|s.trace|..] == tail;
    if row.detail.modelId != "" { assert tail[n + 1] == RouteDelete(row.detail.modelId); }
  }

  /** A restart written out: the request that is sent, and that only one handle and the state change in one row. */
  lemma RestartMeans(env: Env, s: Snapshot, id: string, nodeId: string, s1: Snapshot)
    requires RestartOutcome(env, s, id, nodeId, true, s1)
    ensures var k := Find(s.deployments, id).value;
            var row, after := s.deployments[k], s1.deployments[k];
            var j := EngineOn(row.detail.engines, nodeId).value;
            var role := if row.detail.engines[j].role == Host then Host else Worker;
            var req := StartRequest(row.detail.modelId, role, 0, 0, [], row.detail.quantization, false);
            && |s1.trace| == |s.trace| + 3
            && s1.trace[|s.trace|] == StartEngine(nodeId, Endpoint(row.detail.engines[j].agentAddr, ""), req)
            && s1.trace[|s.trace| + 1].EngineReady? && s1.trace[|s.trace| + 2] == RowWritten(after)
            && after.id == row.id && after.modelId == row.modelId && after.planId == row.planId && after.state == Active
            && |after.detail.engines| == |row.detail.engines|
            && (forall i :: 0 <= i < |row.detail.engines| && i != j ==>
                  after.detail.engines[i] == row.detail.engines[i])
            && after.detail.engines[j] == row.detail.engines[j].(handle := s1.trace[|s.trace| + 1].engine.handle)
            && after.detail.endpoint == row.detail.endpoint && after.detail.modelId == row.detail.modelId
            && after.detail.failoverPlanId == row.detail.failoverPlanId
  {
  }

  /** The table after asking the gateway to drop a model's route. */
  function Unrouted(env: Env, routes: map<string, Route>, t: seq<Event>, modelId: string): (r: map<string, Route>) {
    if modelId != "" && env.gatewayOk(t) then routes - {modelId} else routes
  }

  /** The first engine on a node. */
  function EngineOn(engines: seq<EngineRef>, nodeId: string): (r: Option<nat>)
    ensures r.Some? ==> r.value < |engines| && engines[r.value].nodeId == nodeId
    ensures r.Some? ==> forall i :: 0 <= i < r.value ==> engines[i].nodeId != nodeId
    ensures r.None? <==> forall i :: 0 <= i < |engines| ==> engines[i].nodeId != nodeId
  {
    if engines == [] then None
    else
      var front := EngineOn(engines[..|engines| - 1], nodeId);
      if front.Some? then front
      else if engines[|engines| - 1].nodeId == nodeId then Some(|engines| - 1)
      else None
  }

  lemma EngineOnFirst(engines: seq<EngineRef>, nodeId: string, k: nat)
    requires k < |engines| && engines[k].nodeId == nodeId && forall i :: 0 <= i < k ==> engines[i].nodeId != nodeId
    ensures EngineOn(engines, nodeId) == Some(k)
  {
    var r := EngineOn(engines, nodeId);
  }

  /** A restart names the model and role again, but neither layers nor peers. */
  function RestartRequest(row: Deployment, j: nat): (r: StartRequest)
    requires j < |row.detail.engines|
  {
    StartRequest(row.detail.modelId, if row.detail.engines[j].role == Host then Host else Worker, 0, 0, [],
                 row.detail.quantization, false)
  }

  /** The new handle, if the row and the engine exist and the agent reports READY. */
  function RestartHandle(env: Env, ds: seq<Deployment>, t: seq<Event>, id: string,
                         nodeId: string): (h: Option<string>) {
    var k :- Find(ds, id);
    var j :- EngineOn(ds[k].detail.engines, nodeId);
    ReadyHandle(env.start(t, ds[k].detail.engines[j].agentAddr, RestartRequest(ds[k], j)))
  }

  function Restarted(row: Deployment, j: nat, handle: string): (r: Deployment)
    requires j < |row.detail.engines|
  {
    row.(state := Active,
         detail := row.detail.(engines := row.detail.engines[j := row.detail.engines[j].(handle := handle)]))
  }

  /**
   * A restart succeeds exactly when the node's engine comes back; it issues that one start, and changes only the
   * handle and the state.
   */
  ghost predicate RestartOutcome(env: Env, s: Snapshot, id: string, nodeId: string, ok: bool, s1: Snapshot) {
    var h, found := RestartHandle(env, s.deployments, s.trace, id, nodeId), Find(s.deployments, id);
    && (ok <==> h.Some?)
    && if found.None? || EngineOn(s.deployments[found.value].detail.engines, nodeId).None? then s1 == s
       else
         var row := s.deployments[found.value];
         var j := EngineOn(row.detail.engines, nodeId).value;
         var at, req := Endpoint(row.detail.engines[j].agentAddr, ""), RestartRequest(row, j);
         if h.None? then s1 == s.(trace := s.trace + [StartEngine(nodeId, at, req)])
         else
           var again := Restarted(row, j, h.value);
           s1 == s.(deployments := s.deployments[found.value := again],
                    trace := s.trace + [StartEngine(nodeId, at, req)]
                               + [EngineReady(EngineRef(nodeId, at.agentAddr, req.role, h.value), at)]
                               + [RowWritten(again)])
  }

  /** The whole effect of a teardown on the outside. */
  function TeardownTrace(row: Deployment): (tr: seq<Event>) {
    [RowWritten(row.(state := Stopping))] + StopEvents(Reversed(row.detail.engines))
      + (if row.detail.modelId != "" then [RouteDelete(row.detail.modelId)] else [])
      + [RowWritten(row.(state := Stopped))]
  }

  lemma TeardownRegroup(t: seq<Event>, row: Deployment)
    ensures t + TeardownTrace(row) ==
            t + [RowWritten(row.(state := Stopping))] + StopEvents(Reversed(row.detail.engines))
              + (if row.detail.modelId != "" then [RouteDelete(row.detail.modelId)] else [])
              + [RowWritten(row.(state := Stopped))]
  {
  }

  /** A teardown stops exactly the recorded engines, in reverse order, and starts none. */
  lemma TeardownStops(row: Deployment)
    ensures Stops(TeardownTrace(row)) == Reversed(row.detail.engines) && Readies(TeardownTrace(row)) == []
  {
    var first := RowWritten(row.(state := Stopping));
    var stops := StopEvents(Reversed(row.detail.engines));
    var del := if row.detail.modelId != "" then [RouteDelete(row.detail.modelId)] else [];
    TraceAppend([], first);
    assert [] + [first] == [first];
    TraceConcat([first], stops);
    StopsOfStopEvents(Reversed(row.detail.engines));
    if row.detail.modelId != "" {
      TraceAppend([first] + stops, RouteDelete(row.detail.modelId));
    } else {
      assert [first] + stops + del == [first] + stops;
    }
    TraceAppend([first] + stops + del, RowWritten(row.(state := Stopped)));
  }

  /** The deployment so far: every start in order, nothing stopped, and these engines READY. */
  ghost predicate Progress(p: Plan, tr: seq<Event>, done: seq<(EngineRef, Endpoint)>)
    requires Usable(p)
  {
    Choreographed(p, tr) && Stops(tr) == [] && Readies(tr) == done && InOrder(p, done)
  }

  lemma ProgressStart(p: Plan, tr: seq<Event>, done: seq<(EngineRef, Endpoint)>, e: Event)
    requires Usable(p) && Progress(p, tr, done) && e.StartEngine? && NextStart(p, done, e)
    ensures Progress(p, tr + [e], done)
  {
    ChoreographedAppend(p, tr, e);
    TraceAppend(tr, e);
  }

  lemma ProgressReady(p: Plan, tr: seq<Event>, done: seq<(EngineRef, Endpoint)>, engine: EngineRef, at: Endpoint)
    requires Usable(p) && Progress(p, tr, done) && |done| < |Order(p)|
    requires engine.nodeId == Order(p)[|done|].nodeId && engine.role == Order(p)[|done|].role
    requires engine.agentAddr == at.agentAddr
    ensures Progress(p, tr + [EngineReady(engine, at)], done + [(engine, at)])
  {
    ChoreographedAppend(p, tr, EngineReady(engine, at));
    TraceAppend(tr, EngineReady(engine, at));
  }

  lemma FollowsStart(env: Env, t: seq<Event>, base: nat, start: Event)
    requires Follows(env, t, base) && base <= |t| && start.StartEngine?
    requires env.resolve(t, start.nodeId) == Some(start.at)
    ensures Follows(env, t + [start], base)
  {
    assert (t + [start])[..|t|] == t;
  }

  lemma FollowsReady(env: Env, t: seq<Event>, base: nat, start: Event, ready: Event)
    requires Follows(env, t + [start], base) && base <= |t| && start.StartEngine? && ready.EngineReady?
    requires start.nodeId == ready.engine.nodeId && start.at == ready.at
    requires ReadyHandle(env.start(t, start.at.agentAddr, start.req)) == Some(ready.engine.handle)
    ensures Follows(env, t + [start] + [ready], base)
  {
    var front := t + [start];
    assert (front + [ready])[..|front|] == front && front[..|t|] == t;
  }

  /** Issuing the next start. */
  lemma StartOutcome(env: Env, p: Plan, t: seq<Event>, base: nat, done: seq<(EngineRef, Endpoint)>, start: Event)
    requires Usable(p) && base <= |t| && Progress(p, t[base..], done) && Follows(env, t, base)
    requires start.StartEngine? && NextStart(p, done, start) && env.resolve(t, start.nodeId) == Some(start.at)
    ensures Progress(p, (t + [start])[base..], done) && Follows(env, t + [start], base)
    ensures ReadyHandle(env.start(t, start.at.agentAddr, start.req)).None? ==> Blocked(env, t + [start], start.nodeId)
  {
    ProgressStart(p, t[base..], done, start);
    FollowsStart(env, t, base, start);
    TailConcat(t, base, [start]);
    assert (t + [start])[..|t|] == t;
  }

  /** The READY report that answers it. */
  lemma ReadyOutcome(env: Env, p: Plan, t: seq<Event>, base: nat, done: seq<(EngineRef, Endpoint)>, start: Event,
                     engine: EngineRef)
    requires Usable(p) && base <= |t| && start.StartEngine? && Progress(p, (t + [start])[base..], done)
    requires Follows(env, t + [start], base)
    requires |done| < |Order(p)| && engine.nodeId == start.nodeId == Order(p)[|done|].nodeId
    requires engine.role == Order(p)[|done|].role && engine.agentAddr == start.at.agentAddr
    requires ReadyHandle(env.start(t, start.at.agentAddr, start.req)) == Some(engine.handle)
    ensures var full := t + [start] + [EngineReady(engine, start.at)];
            Progress(p, full[base..], done + [(engine, start.at)]) && Follows(env, full, base)
  {
    ProgressReady(p, (t + [start])[base..], done, engine, start.at);
    FollowsReady(env, t, base, start, EngineReady(engine, start.at));
    TailConcat(t + [start], base, [EngineReady(engine, start.at)]);
  }

  lemma ExplainedBy(env: Env, p: Plan, cut: seq<Event>, full: seq<Event>, base: nat)
    requires Usable(p) && base <= |cut| && cut <= full && Follows(env, cut, base)
    requires Readies(full[base..]) == Readies(cut[base..])
    requires |Readies(cut[base..])| < |Order(p)| ==> Blocked(env, cut, Order(p)[|Readies(cut[base..])|].nodeId)
    ensures Explained(env, p, full, base)
  {
    assert full[..|cut|] == cut && full[base..|cut|] == cut[base..];
  }

  lemma FirstWrite(p: Plan, row: Deployment)
    requires Usable(p)
    ensures Progress(p, [RowWritten(row)], [])
  {
    TraceAppend([], RowWritten(row));
    ChoreographedAppend(p, [], RowWritten(row));
    assert [] + [RowWritten(row)] == [RowWritten(row)];
  }

  /** The last thing that happened is the push of the row's route, and the table holds it if the gateway accepted. */
  ghost predicate Published(env: Env, before: map<string, Route>, after: map<string, Route>, t: seq<Event>,
                            row: Deployment) {
    && t != [] && t[|t| - 1] == RouteUpsert(RouteOf(row))
    && after == if env.gatewayOk(t[..|t| - 1]) then before[row.detail.modelId := RouteOf(row)] else before
  }

  function FreshRow(p: Plan, id: string): (row: Deployment) {
    Deployment(id, p.modelId, p.planId, Provisioning, Detail(p.modelId, p.quantization, "", "", [], "", false))
  }

  function RouteOf(row: Deployment): (r: Route) {
    Route(row.detail.modelId, row.detail.endpoint, row.id, row.detail.quantization)
  }

  /** The failure exit as a whole: what the trace then is realizes a failed deployment and explains it. */
  lemma FailedOutcome(env: Env, p: Plan, cut: seq<Event>, base: nat, done: seq<(EngineRef, Endpoint)>, end: Deployment)
    requires Usable(p) && base <= |cut| && Progress(p, cut[base..], done) && |done| < |Order(p)|
    requires Follows(env, cut, base) && Blocked(env, cut, Order(p)[|done|].nodeId)
    requires end ==
               FreshRow(p, end.id).(state := Failed,
                                    detail := FreshRow(p, end.id).detail.(failed := true, engines := Refs(done)))
    ensures var full := cut + StopEvents(Reversed(Refs(done))) + [RowWritten(end)];
            Realized(p, end, full[base..], false) && Explained(env, p, full, base)
  {
    var stops := StopEvents(Reversed(Refs(done)));
    TailConcat(cut, base, stops);
    TailConcat(cut + stops, base, [RowWritten(end)]);
    var full := cut + stops + [RowWritten(end)];
    FailedTrace(p, cut[base..], done, end);
    assert full[base..] == cut[base..] + stops + [RowWritten(end)];
    ExplainedBy(env, p, cut, full, base);
  }

  /** The success exit as a whole. */
  lemma ActiveOutcome(env: Env, p: Plan, cut: seq<Event>, base: nat, done: seq<(EngineRef, Endpoint)>, end: Deployment)
    requires Usable(p) && base <= |cut| && Progress(p, cut[base..], done) && |done| == |Order(p)|
    requires Follows(env, cut, base)
    requires end == ActiveRow(p, end.id, done)
    ensures var full := cut + [RowWritten(end)] + [RouteUpsert(RouteOf(end))];
            Realized(p, end, full[base..], true) && Explained(env, p, full, base)
  {
    TailConcat(cut, base, [RowWritten(end)]);
    TailConcat(cut + [RowWritten(end)], base, [RouteUpsert(RouteOf(end))]);
    ActiveTrace(p, cut[base..], done, end);
    ActiveRealized(p, cut[base..], done, end);
    ExplainedBy(env, p, cut, cut + [RowWritten(end)] + [RouteUpsert(RouteOf(end))], base);
  }

  /** The row of a deployment whose engines are all READY. */
  function ActiveRow(p: Plan, id: string, done: seq<(EngineRef, Endpoint)>): (row: Deployment)
    requires done != []
  {
    FreshRow(p, id).(state := Active, detail := FreshRow(p, id).detail.(
      hostNodeId := done[|done| - 1].0.nodeId, endpoint := "http://" + done[|done| - 1].1.inferenceAddr,
      engines := Refs(done)))
  }

  lemma ActiveRealized(p: Plan, tr: seq<Event>, done: seq<(EngineRef, Endpoint)>, end: Deployment)
    requires Usable(p) && Progress(p, tr, done) && |done| == |Order(p)| && end == ActiveRow(p, end.id, done)
    ensures Realized(p, end, tr + [RowWritten(end)] + [RouteUpsert(RouteOf(end))], true)
  {
    ActiveTrace(p, tr, done, end);
    WithRoleRole(p.assignments, Host);
  }

  lemma FailedTrace(p: Plan, tr: seq<Event>, done: seq<(EngineRef, Endpoint)>, row: Deployment)
    requires Usable(p) && Progress(p, tr, done)
    ensures var whole := tr + StopEvents(Reversed(Refs(done))) + [RowWritten(row)];
            Choreographed(p, whole) && Readies(whole) == done && Stops(whole) == Reversed(Refs(done))
            && RowWritten(row) in whole
  {
    var stops := StopEvents(Reversed(Refs(done)));
    ChoreographedStops(p, tr, Reversed(Refs(done)));
    ChoreographedAppend(p, tr + stops, RowWritten(row));
    StopsOfStopEvents(Reversed(Refs(done)));
    TraceConcat(tr, stops);
    TraceAppend(tr + stops, RowWritten(row));
  }

  lemma ActiveTrace(p: Plan, tr: seq<Event>, done: seq<(EngineRef, Endpoint)>, row: Deployment)
    requires Usable(p) && Progress(p, tr, done)
    ensures var whole := tr + [RowWritten(row)] + [RouteUpsert(RouteOf(row))];
            Choreographed(p, whole) && Readies(whole) == done && Stops(whole) == [] && RowWritten(row) in whole
  {
    ChoreographedAppend(p, tr, RowWritten(row));
    TraceAppend(tr, RowWritten(row));
    ChoreographedAppend(p, tr + [RowWritten(row)], RouteUpsert(RouteOf(row)));
    TraceAppend(tr + [RowWritten(row)], RouteUpsert(RouteOf(row)));
  }
}
