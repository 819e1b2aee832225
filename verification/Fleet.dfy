/** The state the control plane drives: deployment rows, plans, gateway routes, and the trace of commands issued. */
module Fleet {
  import opened Common

  datatype Role = Worker | Host | Unspecified

  datatype Assignment = Assignment(nodeId: string, role: Role, layerStart: int, layerEnd: int, draft: bool)
  datatype Plan = Plan(planId: string, modelId: string, quantization: string, assignments: seq<Assignment>)

  /** A started engine, as recorded for a later stop. */
  datatype EngineRef = EngineRef(nodeId: string, agentAddr: string, role: Role, handle: string)

  datatype Detail = Detail(modelId: string, quantization: string, hostNodeId: string, endpoint: string,
                           engines: seq<EngineRef>, failoverPlanId: string, failed: bool)

  datatype State = Provisioning | Active | Rebalancing | Stopping | Stopped | Failed
  datatype Deployment = Deployment(id: string, modelId: string, planId: string, state: State, detail: Detail)

  datatype Route = Route(modelId: string, endpoint: string, deploymentId: string, quantization: string)

  /** The two network faces of a node. */
  datatype Endpoint = Endpoint(agentAddr: string, inferenceAddr: string)

  datatype StartRequest = StartRequest(modelRef: string, role: Role, layerStart: int, layerEnd: int,
                                       peers: seq<string>, quantization: string, draft: bool)

  /** Commands to agents, READY reports from them, registry writes and gateway calls, in the order they happen. */
  datatype Event =
    | StartEngine(nodeId: string, at: Endpoint, req: StartRequest)
    | EngineReady(engine: EngineRef, at: Endpoint)
    | StopEngine(agentAddr: string, handle: string)
    | RowWritten(row: Deployment)
    | RouteUpsert(route: Route)
    | RouteDelete(modelId: string)

  // ---- Deployment rows, in listing order --------------------------------------------------

  function Find(ds: seq<Deployment>, id: string): (r: Option<nat>)
    ensures r.Some? ==> r.value < |ds| && ds[r.value].id == id
    ensures r.None? <==> forall i :: 0 <= i < |ds| ==> ds[i].id != id
  {
    if ds == [] then None
    else if ds[|ds| - 1].id == id then Some(|ds| - 1)
    else Find(ds[..|ds| - 1], id)
  }

  ghost predicate UniqueIds(ds: seq<Deployment>) {
    forall i, j :: 0 <= i < j < |ds| ==> ds[i].id != ds[j].id
  }

  /** Only the row with this id may differ. */
  ghost predicate OnlyRow(before: seq<Deployment>, after: seq<Deployment>, id: string) {
    && |before| == |after|
    && forall i :: 0 <= i < |before| ==> after[i].id == before[i].id && (before[i].id != id ==> after[i] == before[i])
  }

  // ---- Reading a trace --------------------------------------------------------------------

  /** The engines reported READY, with where they run, in order. */
  function Readies(tr: seq<Event>): (r: seq<(EngineRef, Endpoint)>) {
    if tr == [] then []
    else
      var front, e := Readies(tr[..|tr| - 1]), tr[|tr| - 1];
      if e.EngineReady? then front + [(e.engine, e.at)] else front
  }

  /** The engines told to stop, in order. */
  function Stops(tr: seq<Event>): (r: seq<(string, string)>) {
    if tr == [] then []
    else
      var front, e := Stops(tr[..|tr| - 1]), tr[|tr| - 1];
      if e.StopEngine? then front + [(e.agentAddr, e.handle)] else front
  }

  function Refs(rs: seq<(EngineRef, Endpoint)>): (r: seq<EngineRef>)
    ensures |r| == |rs| && forall i :: 0 <= i < |rs| ==> r[i] == rs[i].0
  {
    seq(|rs|, i requires 0 <= i < |rs| => rs[i].0)
  }

  function InferenceAddrs(rs: seq<(EngineRef, Endpoint)>): (r: seq<string>)
    ensures |r| == |rs| && forall i :: 0 <= i < |rs| ==> r[i] == rs[i].1.inferenceAddr
  {
    seq(|rs|, i requires 0 <= i < |rs| => rs[i].1.inferenceAddr)
  }

  /** The stop commands for these engines, last started first. */
  function Reversed(engines: seq<EngineRef>): (r: seq<(string, string)>)
    ensures |r| == |engines|
    ensures forall i :: 0 <= i < |r| ==>
              r[i] == (engines[|engines| - 1 - i].agentAddr, engines[|engines| - 1 - i].handle)
  {
    seq(|engines|,
        i requires 0 <= i < |engines| => (engines[|engines| - 1 - i].agentAddr, engines[|engines| - 1 - i].handle))
  }

  function StopEvents(stops: seq<(string, string)>): (tr: seq<Event>)
    ensures |tr| == |stops| && forall i :: 0 <= i < |tr| ==> tr[i] == StopEngine(stops[i].0, stops[i].1)
  {
    seq(|stops|, i requires 0 <= i < |stops| => StopEngine(stops[i].0, stops[i].1))
  }

  lemma TraceAppend(tr: seq<Event>, e: Event)
    ensures Readies(tr + [e]) == Readies(tr) + if e.EngineReady? then [(e.engine, e.at)] else []
    ensures Stops(tr + [e]) == Stops(tr) + if e.StopEngine? then [(e.agentAddr, e.handle)] else []
  {
    assert (tr + [e])[..|tr|] == tr;
  }

  lemma {:induction false} TraceConcat(a: seq<Event>, b: seq<Event>)
    ensures Readies(a + b) == Readies(a) + Readies(b)
    ensures Stops(a + b) == Stops(a) + Stops(b)
  {
    if b == [] {
      assert a + b == a;
    } else {
      var front, e := b[..|b| - 1], b[|b| - 1];
      TraceConcat(a, front);
      TraceAppend(a + front, e);
      TraceAppend(front, e);
      assert a + b == a + front + [e] && b == front + [e];
    }
  }

  lemma {:induction false} StopsOfStopEvents(stops: seq<(string, string)>)
    ensures Stops(StopEvents(stops)) == stops && Readies(StopEvents(stops)) == []
  {
    if stops != [] {
      var front := stops[..|stops| - 1];
      StopsOfStopEvents(front);
      assert StopEvents(stops)[..|stops| - 1] == StopEvents(front);
    }
  }

  lemma StopEventsLast(tr: seq<Event>, stops: seq<(string, string)>)
    requires stops != []
    ensures var last := stops[|stops| - 1];
            tr + StopEvents(stops) == tr + StopEvents(stops[..|stops| - 1]) + [StopEngine(last.0, last.1)]
  {
  }

  /** What the registry and the gateway hold and what has happened so far. */
  datatype Snapshot = Snapshot(deployments: seq<Deployment>, plans: map<string, Plan>, routes: map<string, Route>,
                               trace: seq<Event>)

  /** Everything outside the process, shared by the orchestrator, the actuator and both reconcilers. */
  class Cluster {
    var deployments: seq<Deployment>
    var plans: map<string, Plan>
    var routes: map<string, Route>
    var trace: seq<Event>

    ghost predicate Valid()
      reads this
    {
      UniqueIds(deployments)
    }

    ghost function Now(): (s: Snapshot)
      reads this
    {
      Snapshot(deployments, plans, routes, trace)
    }

    constructor ()
      ensures Valid() && deployments == [] && plans == map[] && routes == map[] && trace == []
    {
      deployments, plans, routes, trace := [], map[], map[], [];
    }

    method Emit(e: Event)
      modifies this`trace
      ensures trace == old(trace) + [e]
    {
      trace := trace + [e];
    }

    /** Inserts a row under a new id, last in listing order. */
    method CreateRow(row: Deployment)
      requires Valid() && Find(deployments, row.id).None?
      modifies this`deployments, this`trace
      ensures Valid() && trace == old(trace) + [RowWritten(row)]
      ensures deployments == old(deployments) + [row] && Find(deployments, row.id) == Some(|old(deployments)|)
    {
      deployments := deployments + [row];
      trace := trace + [RowWritten(row)];
    }

    /** Writes a whole row back; the row exists. */
    method WriteRow(row: Deployment)
      requires Valid() && Find(deployments, row.id).Some?
      modifies this`deployments, this`trace
      ensures Valid() && trace == old(trace) + [RowWritten(row)]
      ensures deployments == old(deployments)[Find(old(deployments), row.id).value := row]
      ensures OnlyRow(old(deployments), deployments, row.id)
      ensures Find(deployments, row.id) == Find(old(deployments), row.id)
    {
      var k := Find(deployments, row.id).value;
      deployments := deployments[k := row];
      trace := trace + [RowWritten(row)];
      FindUnique(deployments, k);
    }
  }

  lemma FindUnique(ds: seq<Deployment>, k: nat)
    requires UniqueIds(ds) && k < |ds|
    ensures Find(ds, ds[k].id) == Some(k)
  {
    var r := Find(ds, ds[k].id);
  }
}
