/** What the self-healing loop observes: the gaps between active deployments and reported nodes, and their keys. */
module Observation {
  import opened Common
  import opened Fleet

  // ---- Discrepancies and their keys -------------------------------------------------------

  datatype EventType = EngineDown | NodeDown | NewNode | OrphanDeployment

  datatype Disc = Disc(typ: EventType, depId: string, nodeId: string)

  function TypeName(t: EventType): (s: string)
    ensures '|' !in s
  {
    match t
    case EngineDown => "engine_down"
    case NodeDown => "node_down"
    case NewNode => "new_node"
    case OrphanDeployment => "orphan_deployment"
  }

  /** The tracker key: the three parts joined by bars. */
  function Key(d: Disc): (k: string) { TypeName(d.typ) + ("|" + (d.depId + ("|" + d.nodeId))) }

  /** The key as operators see it in logs and status. */
  lemma KeyMeans(d: Disc)
    ensures Key(d) == (match d.typ
                       case EngineDown => "engine_down|"
                       case NodeDown => "node_down|"
                       case NewNode => "new_node|"
                       case OrphanDeployment => "orphan_deployment|") + d.depId + "|" + d.nodeId
  {
  }

  lemma CutAtBar(a: string, b: string, c: string, d: string)
    requires '|' !in a && '|' !in c && a + ("|" + b) == c + ("|" + d)
    ensures a == c && b == d
  {
    var s, t := a + ("|" + b), c + ("|" + d);
    assert s[|a|] == '|' && t[|c|] == '|';
    SplitConcat(a, "|" + b, c, "|" + d);
    assert b == ("|" + b)[1..] && d == ("|" + d)[1..];
  }

  lemma TypeNameInjective(s: EventType, t: EventType)
    requires TypeName(s) == TypeName(t)
    ensures s == t
  {
    assert |TypeName(EngineDown)| == 11 && |TypeName(NodeDown)| == 9 && |TypeName(NewNode)| == 8
           && |TypeName(OrphanDeployment)| == 17;
  }

  /** Keys are unambiguous as soon as deployment ids contain no bar; node ids may. */
  lemma KeyInjective(d: Disc, e: Disc)
    requires '|' !in d.depId && '|' !in e.depId && Key(d) == Key(e)
    ensures d == e
  {
    CutAtBar(TypeName(d.typ), d.depId + ("|" + d.nodeId), TypeName(e.typ), e.depId + ("|" + e.nodeId));
    CutAtBar(d.depId, d.nodeId, e.depId, e.nodeId);
    TypeNameInjective(d.typ, e.typ);
  }

  // ---- Observation ------------------------------------------------------------------------

  datatype NodeState = NodeReady | NodeRunning | NodeUnreachable | NodeDecommissioned | NodeOther
  datatype Node = Node(state: NodeState, lastSeen: Option<int>, createdAt: int)

  /** One look at the fleet: its nodes, which models are gone, the clock and the liveness timeout. */
  datatype View = View(nodes: map<string, Node>, missing: string -> bool, now: int, nodeTimeout: int)

  predicate NodeIsDown(v: View, n: Node) {
    n.state.NodeUnreachable? || n.state.NodeDecommissioned?
    || (if n.lastSeen.None? then v.now - n.createdAt > v.nodeTimeout else v.now - n.lastSeen.value > v.nodeTimeout)
  }

  predicate Down(v: View, nodeId: string) { nodeId !in v.nodes || NodeIsDown(v, v.nodes[nodeId]) }

  predicate EngineHealthy(n: Node) { n.state.NodeRunning? || n.state.NodeReady? }

  predicate Orphaned(v: View, d: Deployment) {
    d.state == Active && d.detail.modelId != "" && v.missing(d.detail.modelId)
  }

  predicate Watched(v: View, d: Deployment) { d.state == Active && !Orphaned(v, d) }

  function NodesOf(engines: seq<EngineRef>): (s: set<string>) { set i | 0 <= i < |engines| :: engines[i].nodeId }

  predicate Claimed(v: View, ds: seq<Deployment>, nodeId: string) {
    exists i :: 0 <= i < |ds| && Watched(v, ds[i]) && nodeId in NodesOf(ds[i].detail.engines)
  }

  /** The discrepancy one deployment shows at one of its nodes, if any. */
  predicate ShowsAt(v: View, d: Deployment, x: Disc) {
    && Watched(v, d) && x.depId == d.id && x.nodeId in NodesOf(d.detail.engines)
    && (x.typ.NodeDown? || x.typ.EngineDown?)
    && (x.typ.NodeDown? <==> Down(v, x.nodeId))
    && (x.typ.EngineDown? ==> !EngineHealthy(v.nodes[x.nodeId]))
  }

  predicate Shows(v: View, d: Deployment, x: Disc) {
    ShowsAt(v, d, x) || (Orphaned(v, d) && x == Disc(OrphanDeployment, d.id, ""))
  }

  predicate IsNewNode(v: View, ds: seq<Deployment>, x: Disc) {
    x.typ.NewNode? && x.depId == "" && x.nodeId in v.nodes && !Claimed(v, ds, x.nodeId)
    && v.nodes[x.nodeId].state.NodeReady? && !NodeIsDown(v, v.nodes[x.nodeId])
  }

  /** The gaps between desired and real state. */
  ghost predicate Discrepant(v: View, ds: seq<Deployment>, x: Disc) {
    (exists i :: 0 <= i < |ds| && Shows(v, ds[i], x)) || IsNewNode(v, ds, x)
  }

  // ---- What is observed, written out ------------------------------------------------------

  /** The node is not reported, is unreachable or decommissioned, or has been silent longer than the timeout. */
  ghost predicate Gone(v: View, nodeId: string) {
    || nodeId !in v.nodes
    || v.nodes[nodeId].state == NodeUnreachable || v.nodes[nodeId].state == NodeDecommissioned
    || (v.nodes[nodeId].lastSeen.Some? && v.now - v.nodes[nodeId].lastSeen.value > v.nodeTimeout)
    || (v.nodes[nodeId].lastSeen.None? && v.now - v.nodes[nodeId].createdAt > v.nodeTimeout)
  }

  /** An ACTIVE deployment whose model still exists, or that names none, has an engine on the node. */
  ghost predicate Uses(v: View, d: Deployment, nodeId: string) {
    && d.state == Active && (d.detail.modelId == "" || !v.missing(d.detail.modelId))
    && exists e :: e in d.detail.engines && e.nodeId == nodeId
  }

  lemma UsesNode(v: View, d: Deployment, nodeId: string)
    ensures Uses(v, d, nodeId) <==> Watched(v, d) && nodeId in NodesOf(d.detail.engines)
  {
    var engines := d.detail.engines;
    if nodeId in NodesOf(engines) {
      var i :| 0 <= i < |engines| && engines[i].nodeId == nodeId;
      assert engines[i] in engines;
    }
    if e :| e in engines && e.nodeId == nodeId {
      var i :| 0 <= i < |engines| && engines[i] == e;
      assert engines[i].nodeId in NodesOf(engines);
    }
  }

  /** A deployment's node is down when gone; its engine is down when the node is there but neither ready nor running. */
  lemma DownMeans(v: View, ds: seq<Deployment>, x: Disc)
    ensures Discrepant(v, ds, x) && x.typ == NodeDown <==>
            (&& x.typ == NodeDown && Gone(v, x.nodeId)
             && exists i :: 0 <= i < |ds| && ds[i].id == x.depId && Uses(v, ds[i], x.nodeId))
    ensures Discrepant(v, ds, x) && x.typ == EngineDown <==>
            (&& x.typ == EngineDown && !Gone(v, x.nodeId)
             && v.nodes[x.nodeId].state != NodeReady && v.nodes[x.nodeId].state != NodeRunning
             && exists i :: 0 <= i < |ds| && ds[i].id == x.depId && Uses(v, ds[i], x.nodeId))
  {
    forall i | 0 <= i < |ds|
      ensures Uses(v, ds[i], x.nodeId) <==> Watched(v, ds[i]) && x.nodeId in NodesOf(ds[i].detail.engines)
    {
      UsesNode(v, ds[i], x.nodeId);
    }
    assert Down(v, x.nodeId) <==> Gone(v, x.nodeId);
    if i :| 0 <= i < |ds| && ds[i].id == x.depId && Uses(v, ds[i], x.nodeId) {
      assert ShowsAt(v, ds[i], x) <==> (if Gone(v, x.nodeId) then x.typ == NodeDown
                                        else x.typ == EngineDown && !EngineHealthy(v.nodes[x.nodeId]));
    }
  }

  /** A deployment is an orphan when ACTIVE with its model gone; a node is new when ready, there and in nobody's use. */
  lemma OrphanAndNewMean(v: View, ds: seq<Deployment>, x: Disc)
    ensures Discrepant(v, ds, x) && x.typ == OrphanDeployment <==>
            (&& x.typ == OrphanDeployment && x.nodeId == ""
             && exists i :: 0 <= i < |ds| && ds[i].id == x.depId && ds[i].state == Active
                            && ds[i].detail.modelId != "" && v.missing(ds[i].detail.modelId))
    ensures Discrepant(v, ds, x) && x.typ == NewNode <==>
            (&& x.typ == NewNode && x.depId == "" && !Gone(v, x.nodeId) && v.nodes[x.nodeId].state == NodeReady
             && forall i :: 0 <= i < |ds| ==> !Uses(v, ds[i], x.nodeId))
  {
    forall i | 0 <= i < |ds|
      ensures Uses(v, ds[i], x.nodeId) <==> Watched(v, ds[i]) && x.nodeId in NodesOf(ds[i].detail.engines)
    {
      UsesNode(v, ds[i], x.nodeId);
    }
    if i :| 0 <= i < |ds| && ds[i].id == x.depId && ds[i].state == Active
            && ds[i].detail.modelId != "" && v.missing(ds[i].detail.modelId) {
      assert Orphaned(v, ds[i]);
    }
  }

  ghost predicate DistinctNodes(d: Deployment) {
    forall i, j :: 0 <= i < j < |d.detail.engines| ==> d.detail.engines[i].nodeId != d.detail.engines[j].nodeId
  }

  ghost predicate NoRepeats(xs: seq<Disc>) {
    forall i, j :: 0 <= i < j < |xs| ==> xs[i] != xs[j]
  }

  /** The part of observe for one deployment. */
  method ObserveDeployment(v: View, d: Deployment) returns (out: seq<Disc>)
    ensures forall x :: x in out <==> Shows(v, d, x)
    ensures DistinctNodes(d) ==> NoRepeats(out)
  {
    out := [];
    if d.state != Active { return; }
    if d.detail.modelId != "" {
      if v.missing(d.detail.modelId) {
        return [Disc(OrphanDeployment, d.id, "")];
      }
    }
    var engines := d.detail.engines;
    for j := 0 to |engines|
      invariant forall x :: x in out <==> ShowsAt(v, d, x) && x.nodeId in NodesOf(engines[..j])
      invariant DistinctNodes(d) ==> NoRepeats(out)
    {
      var e := engines[j];
      NodesOfStep(engines, j);
      ghost var before := out;
      if Down(v, e.nodeId) {
        out := out + [Disc(NodeDown, d.id, e.nodeId)];
      } else if !EngineHealthy(v.nodes[e.nodeId]) {
        out := out + [Disc(EngineDown, d.id, e.nodeId)];
      }
      assert forall x :: x in out ==> x in before || x == out[|out| - 1];
    }
    assert engines[..|engines|] == engines;
  }

  lemma NodesOfStep(engines: seq<EngineRef>, j: nat)
    requires j < |engines|
    ensures NodesOf(engines[..j + 1]) == NodesOf(engines[..j]) + {engines[j].nodeId}
    ensures engines[j].nodeId in NodesOf(engines)
    ensures (forall i :: 0 <= i < j ==> engines[i].nodeId != engines[j].nodeId) ==>
              engines[j].nodeId !in NodesOf(engines[..j])
  {
    var a, b := engines[..j], engines[..j + 1];
    assert b[j] == engines[j];
    forall x | x in NodesOf(a) ensures x in NodesOf(b) {
      var i :| 0 <= i < |a| && a[i].nodeId == x;
      assert b[i] == a[i];
    }
    forall x | x in NodesOf(b) ensures x in NodesOf(a) + {engines[j].nodeId} {
      var i :| 0 <= i < |b| && b[i].nodeId == x;
      if i < j { assert a[i] == b[i]; }
    }
  }

  method ObserveNewNodes(v: View, ds: seq<Deployment>, claimed: set<string>) returns (out: seq<Disc>)
    requires forall n :: n in claimed <==> Claimed(v, ds, n)
    ensures forall x :: x in out <==> IsNewNode(v, ds, x)
    ensures NoRepeats(out)
  {
    out := [];
    var todo := v.nodes.Keys;
    while todo != {}
      invariant todo <= v.nodes.Keys
      invariant forall x :: x in out <==> IsNewNode(v, ds, x) && x.nodeId !in todo
      invariant NoRepeats(out)
      decreases todo
    {
      var n :| n in todo;
      ghost var before := out;
      todo := todo - {n};
      if n !in claimed && v.nodes[n].state.NodeReady? && !NodeIsDown(v, v.nodes[n]) {
        out := out + [Disc(NewNode, "", n)];
      }
      assert forall x :: x in out ==> x in before || x == Disc(NewNode, "", n);
    }
  }

  /** Exactly the discrepancies, each once when every deployment's engines are on distinct nodes. */
  method Observe(v: View, ds: seq<Deployment>) returns (out: seq<Disc>)
    ensures forall x :: x in out <==> Discrepant(v, ds, x)
    ensures UniqueIds(ds) && (forall i :: 0 <= i < |ds| ==> DistinctNodes(ds[i])) ==> NoRepeats(out)
  {
    out := [];
    var claimed: set<string> := {};
    for i := 0 to |ds|
      invariant forall x :: x in out <==> exists j :: 0 <= j < i && Shows(v, ds[j], x)
      invariant forall n :: n in claimed <==>
                  exists j :: 0 <= j < i && Watched(v, ds[j]) && n in NodesOf(ds[j].detail.engines)
      invariant UniqueIds(ds) && (forall j :: 0 <= j < |ds| ==> DistinctNodes(ds[j])) ==> NoRepeats(out)
    {
      var found := ObserveDeployment(v, ds[i]);
      if Watched(v, ds[i]) { claimed := claimed + NodesOf(ds[i].detail.engines); }
      if UniqueIds(ds) && forall j :: 0 <= j < |ds| ==> DistinctNodes(ds[j]) {
        NoRepeatsConcat(v, ds, i, out, found);
      }
      out := out + found;
    }
    var unclaimed := ObserveNewNodes(v, ds, claimed);
    if UniqueIds(ds) && forall j :: 0 <= j < |ds| ==> DistinctNodes(ds[j]) {
      forall a, b | 0 <= a < |out| && 0 <= b < |unclaimed| ensures out[a] != unclaimed[b] {
        assert out[a] in out && unclaimed[b] in unclaimed;
      }
    }
    out := out + unclaimed;
  }

  lemma NoRepeatsConcat(v: View, ds: seq<Deployment>, i: nat, out: seq<Disc>, found: seq<Disc>)
    requires i < |ds| && UniqueIds(ds) && NoRepeats(out) && NoRepeats(found)
    requires forall x :: x in out ==> exists j :: 0 <= j < i && Shows(v, ds[j], x)
    requires forall x :: x in found ==> Shows(v, ds[i], x)
    ensures NoRepeats(out + found)
  {
    forall a, b | 0 <= a < |out| && 0 <= b < |found| ensures out[a] != found[b] {
      assert out[a] in out && found[b] in found;
      var j :| 0 <= j < i && Shows(v, ds[j], out[a]);
      assert out[a].depId == ds[j].id && found[b].depId == ds[i].id;
    }
  }
}
