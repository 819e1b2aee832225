/** The route reconciler: one pass drives the gateway table to the registry's desired set. */
module Routes {
  import opened Common
  import opened Fleet

  // ---- Desired routes ---------------------------------------------------------------------

  /** The row's own model id, or the one in its detail when the row has none. */
  function ModelOf(d: Deployment): (m: string) { if d.modelId != "" then d.modelId else d.detail.modelId }

  predicate Routable(d: Deployment) { d.state == Active && ModelOf(d) != "" && d.detail.endpoint != "" }

  function RouteFor(d: Deployment): (r: Route) { Route(ModelOf(d), d.detail.endpoint, d.id, d.detail.quantization) }

  /** One route per model with an ACTIVE routable deployment; a later listing overwrites an earlier one. */
  function Desired(ds: seq<Deployment>): (r: map<string, Route>) {
    if ds == [] then map[]
    else
      var front, d := Desired(ds[..|ds| - 1]), ds[|ds| - 1];
      if Routable(d) then front[ModelOf(d) := RouteFor(d)] else front
  }

  method DesiredRoutes(ds: seq<Deployment>) returns (out: map<string, Route>)
    ensures out == Desired(ds)
  {
    out := map[];
    for i := 0 to |ds|
      invariant out == Desired(ds[..i])
    {
      var dep := ds[i];
      assert ds[..i + 1][..i] == ds[..i];
      if dep.state == Active {
        var modelId := dep.modelId;
        if modelId == "" { modelId := dep.detail.modelId; }
        if !(modelId == "" || dep.detail.endpoint == "") {
          out := out[modelId := Route(modelId, dep.detail.endpoint, dep.id, dep.detail.quantization)];
        }
      }
    }
    assert ds[..|ds|] == ds;
  }

  /** ds[k] is the last listed ACTIVE routable deployment of model m. */
  ghost predicate LastFor(ds: seq<Deployment>, m: string, k: nat) {
    && k < |ds| && Routable(ds[k]) && ModelOf(ds[k]) == m
    && forall i :: k < i < |ds| && Routable(ds[i]) ==> ModelOf(ds[i]) != m
  }

  /** A model is desired exactly when some ACTIVE deployment routes it, and the last one listed wins. */
  lemma {:induction false} DesiredIsLast(ds: seq<Deployment>, m: string)
    ensures m in Desired(ds) <==> exists k: nat :: LastFor(ds, m, k)
    ensures forall k: nat :: LastFor(ds, m, k) ==> m in Desired(ds) && Desired(ds)[m] == RouteFor(ds[k])
  {
    if ds != [] {
      var n := |ds| - 1;
      var front := ds[..n];
      DesiredIsLast(front, m);
      if Routable(ds[n]) && ModelOf(ds[n]) == m {
        assert LastFor(ds, m, n);
      } else {
        forall k: nat ensures LastFor(ds, m, k) <==> LastFor(front, m, k) {
          if LastFor(front, m, k) {
            forall i | k < i < |ds| && Routable(ds[i]) ensures ModelOf(ds[i]) != m {
              if i < n { assert front[i] == ds[i]; }
            }
          }
          if LastFor(ds, m, k) { assert k != n; assert front[k] == ds[k]; }
        }
      }
    }
  }

  /** Deployment k is ACTIVE, has an endpoint and is for model m: by its own model id, or else by its detail's. */
  ghost predicate Serves(ds: seq<Deployment>, k: int, m: string) {
    && 0 <= k < |ds| && ds[k].state == Active && ds[k].detail.endpoint != "" && m != ""
    && (ds[k].modelId == m || (ds[k].modelId == "" && ds[k].detail.modelId == m))
  }

  /** The desired table written out: which models it has, and to what the last listed deployment of each routes. */
  lemma DesiredMeans(ds: seq<Deployment>, m: string)
    ensures m in Desired(ds) <==> exists k :: Serves(ds, k, m)
    ensures forall k :: Serves(ds, k, m) && (forall j :: k < j < |ds| ==> !Serves(ds, j, m)) ==>
              m in Desired(ds) && Desired(ds)[m] == Route(m, ds[k].detail.endpoint, ds[k].id, ds[k].detail.quantization)
  {
    DesiredIsLast(ds, m);
    forall k: int ensures Serves(ds, k, m) <==> 0 <= k < |ds| && Routable(ds[k]) && ModelOf(ds[k]) == m {
    }
    if k :| Serves(ds, k, m) { var j := LastServes(ds, m, k); assert LastFor(ds, m, j); }
    if k: nat :| LastFor(ds, m, k) { assert Serves(ds, k, m); }
    forall k | Serves(ds, k, m) && (forall j :: k < j < |ds| ==> !Serves(ds, j, m))
      ensures m in Desired(ds) && Desired(ds)[m] == Route(m, ds[k].detail.endpoint, ds[k].id, ds[k].detail.quantization)
    {
      forall i | k < i < |ds| && Routable(ds[i]) ensures ModelOf(ds[i]) != m { assert !Serves(ds, i, m); }
      assert LastFor(ds, m, k);
    }
  }

  lemma LastServes(ds: seq<Deployment>, m: string, k: int) returns (j: nat)
    requires Serves(ds, k, m)
    ensures Serves(ds, j, m) && forall i :: j < i < |ds| ==> !Serves(ds, i, m)
  {
    j := k;
    for i := k + 1 to |ds|
      invariant j < i && Serves(ds, j, m) && forall n :: j < n < i ==> !Serves(ds, n, m)
    {
      if Serves(ds, i, m) { j := i; }
    }
  }

  /** Every desired route leads to an ACTIVE deployment of its model. */
  lemma DesiredLeadsToActive(ds: seq<Deployment>, m: string)
    requires m in Desired(ds)
    ensures exists k :: LeadsTo(ds, k, m, Desired(ds)[m])
  {
    DesiredMeans(ds, m);
    var k :| Serves(ds, k, m);
    var j := LastServes(ds, m, k);
    assert LeadsTo(ds, j, m, Desired(ds)[m]);
  }

  ghost predicate LeadsTo(ds: seq<Deployment>, k: int, m: string, r: Route) {
    Serves(ds, k, m) && r == Route(m, ds[k].detail.endpoint, ds[k].id, ds[k].detail.quantization)
  }

  // ---- One pass, pointwise ----------------------------------------------------------------

  /** A gateway call succeeds, or fails with or without having taken effect. */
  datatype Outcome = Done | Failed(applied: bool) {
    predicate Effective() { Done? || applied }
  }

  datatype Faults = Faults(upsert: string -> Outcome, delete: string -> Outcome)

  function At(t: map<string, Route>, m: string): (r: Option<Route>) { if m in t then Some(t[m]) else None }

  /** What one pass does at one model: push it if desired, delete it if only observed, else leave it. */
  function AfterAt(was: Option<Route>, want: Option<Route>, observed: bool, f: Faults, m: string): (r: Option<Route>) {
    if want.Some? then (if f.upsert(m).Effective() then want else was)
    else if observed then (if f.delete(m).Effective() then None else was)
    else was
  }

  function AfterRoutes(routes: map<string, Route>, want: map<string, Route>, observed: set<string>,
                       f: Faults): (r: map<string, Route>)
    ensures forall m :: At(r, m) == AfterAt(At(routes, m), At(want, m), m in observed, f, m)
  {
    map m | m in routes.Keys + want.Keys && AfterAt(At(routes, m), At(want, m), m in observed, f, m).Some?
      :: AfterAt(At(routes, m), At(want, m), m in observed, f, m).value
  }

  /** The models whose own gateway call failed in the pass. */
  predicate FailedAt(want: map<string, Route>, observed: set<string>, f: Faults, m: string) {
    if m in want then f.upsert(m).Failed? else m in observed && f.delete(m).Failed?
  }

  /** The bookkeeping of successful pushes. */
  function AfterPushed(pushed: set<string>, want: map<string, Route>, observed: set<string>,
                       f: Faults): (r: set<string>)
    ensures forall m :: m in r <==>
              if m in want then m in pushed || f.upsert(m).Done?
              else m in pushed && !(m in observed && f.delete(m).Done?)
  {
    (pushed + set m | m in want && f.upsert(m).Done?) - set m | m in observed && m !in want && f.delete(m).Done?
  }

  lemma SameTable(a: map<string, Route>, b: map<string, Route>)
    requires forall m :: At(a, m) == At(b, m)
    ensures a == b
  {
    forall m ensures m in a <==> m in b { assert At(a, m) == At(b, m); }
    forall m | m in a ensures a[m] == b[m] { assert At(a, m) == At(b, m); }
  }

  /** Observing the table itself, the pass converges at every model whose own call did not fail. */
  lemma ConvergesWhereNothingFailed(routes: map<string, Route>, want: map<string, Route>, f: Faults, m: string)
    requires !FailedAt(want, routes.Keys, f, m)
    ensures At(AfterRoutes(routes, want, routes.Keys, f), m) == At(want, m)
  {
    assert At(AfterRoutes(routes, want, routes.Keys, f), m) ==
             AfterAt(At(routes, m), At(want, m), m in routes.Keys, f, m);
  }

  /** A pass without failures ends with exactly the desired table if and only if every stale route was observed. */
  lemma ExactTable(routes: map<string, Route>, want: map<string, Route>, observed: set<string>, f: Faults)
    requires forall m :: !FailedAt(want, observed, f, m)
    ensures AfterRoutes(routes, want, observed, f) == want <==> routes.Keys <= want.Keys + observed
  {
    var after := AfterRoutes(routes, want, observed, f);
    if routes.Keys <= want.Keys + observed {
      forall m ensures At(after, m) == At(want, m) {
        assert At(after, m) == AfterAt(At(routes, m), At(want, m), m in observed, f, m);
        assert !FailedAt(want, observed, f, m);
      }
      SameTable(after, want);
    } else {
      var m :| m in routes && m !in want && m !in observed;
      assert At(after, m) == AfterAt(At(routes, m), At(want, m), m in observed, f, m);
      assert m in after;
    }
  }

  /** Without a listing a pass can report success and still leave a stale route it never pushed. */
  lemma StaleRouteSurvives(f: Faults, r: Route)
    ensures AfterRoutes(map["m" := r], map[], {}, f) == map["m" := r]
    ensures forall m :: !FailedAt(map[], {}, f, m)
  {
    var after := AfterRoutes(map["m" := r], map[], {}, f);
    forall m ensures At(after, m) == At(map["m" := r], m) {
      assert At(after, m) == AfterAt(At(map["m" := r], m), None, false, f, m);
    }
    SameTable(after, map["m" := r]);
  }

  // ---- The reconciler ---------------------------------------------------------------------

  /** Whether the gateway can be asked for its table, and whether it answers. */
  datatype Listing = NoLister | ListFails | Lists

  datatype PassResult = ListingDeploymentsFailed | Finished(failures: seq<string>)

  class RouteReconciler {
    const cluster: Cluster
    var pushed: set<string>

    constructor (cluster: Cluster)
      ensures this.cluster == cluster && pushed == {}
    {
      this.cluster := cluster;
      pushed := {};
    }

    function Observed(listing: Listing): (s: set<string>)
      reads this, cluster
    {
      if listing.Lists? then cluster.routes.Keys else pushed
    }

    /** One convergence pass under any per-route failures and in any iteration order. */
    method Reconcile(registryFails: bool, listing: Listing, f: Faults) returns (r: PassResult)
      modifies this, cluster`routes
      ensures r.ListingDeploymentsFailed? <==> registryFails
      ensures registryFails ==> cluster.routes == old(cluster.routes) && pushed == old(pushed)
      ensures r.Finished? ==>
                var want := Desired(cluster.deployments);
                var seen := if listing.Lists? then old(cluster.routes.Keys) else old(pushed);
                && cluster.routes == AfterRoutes(old(cluster.routes), want, seen, f)
                && pushed == AfterPushed(old(pushed), want, seen, f)
                && (forall m :: m in r.failures <==> FailedAt(want, seen, f, m))
      ensures r.Finished? && listing.Lists? ==>
                forall m :: m !in r.failures ==> At(cluster.routes, m) == At(Desired(cluster.deployments), m)
      ensures r.Finished? && listing.Lists? && r.failures == [] ==>
                && cluster.routes == Desired(cluster.deployments)
                && forall m :: m in cluster.routes ==> exists k :: LeadsTo(cluster.deployments, k, m, cluster.routes[m])
    {
      if registryFails { return ListingDeploymentsFailed; }
      var want := DesiredRoutes(cluster.deployments);
      var seen := Observed(listing);
      ghost var routes0, pushed0 := cluster.routes, pushed;
      var errs := PushAll(want, f);
      ghost var routes1, pushed1 := cluster.routes, pushed;
      var errs2 := DeleteStale(want, seen, f);
      PassComposes(routes0, routes1, cluster.routes, want, seen, f);
      PushedComposes(pushed0, want, seen, f);
      r := Finished(errs + errs2);
      if listing.Lists? {
        forall m | m !in r.failures ensures At(cluster.routes, m) == At(want, m) {
          ConvergesWhereNothingFailed(routes0, want, f, m);
        }
        if r.failures == [] {
          forall m ensures !FailedAt(want, seen, f, m) { assert m !in r.failures; }
          ExactTable(routes0, want, seen, f);
          forall m | m in want ensures exists k :: LeadsTo(cluster.deployments, k, m, want[m]) {
            DesiredLeadsToActive(cluster.deployments, m);
          }
        }
      }
    }

    /** Upserts every desired route. */
    method PushAll(want: map<string, Route>, f: Faults) returns (errs: seq<string>)
      modifies this`pushed, cluster`routes
      ensures forall m :: At(cluster.routes, m) ==
                if m in want && f.upsert(m).Effective() then Some(want[m]) else At(old(cluster.routes), m)
      ensures pushed == old(pushed) + set m | m in want && f.upsert(m).Done?
      ensures forall m :: m in errs <==> m in want && f.upsert(m).Failed?
    {
      errs := [];
      var todo := want.Keys;
      while todo != {}
        invariant todo <= want.Keys
        invariant forall m :: At(cluster.routes, m) ==
                    if m in want && m !in todo && f.upsert(m).Effective() then Some(want[m])
                    else At(old(cluster.routes), m)
        invariant pushed == old(pushed) + set m | m in want && m !in todo && f.upsert(m).Done?
        invariant forall m :: m in errs <==> m in want && m !in todo && f.upsert(m).Failed?
        decreases todo
      {
        var m :| m in todo;
        todo := todo - {m};
        var o := f.upsert(m);
        if o.Effective() { cluster.routes := cluster.routes[m := want[m]]; }
        if o.Failed? {
          errs := errs + [m];
        } else {
          pushed := pushed + {m};
        }
      }
    }

    /** Deletes every observed route that is not desired. */
    method DeleteStale(want: map<string, Route>, seen: set<string>, f: Faults) returns (errs: seq<string>)
      modifies this`pushed, cluster`routes
      ensures forall m :: At(cluster.routes, m) ==
                if m in seen && m !in want && f.delete(m).Effective() then None else At(old(cluster.routes), m)
      ensures pushed == old(pushed) - set m | m in seen && m !in want && f.delete(m).Done?
      ensures forall m :: m in errs <==> m in seen && m !in want && f.delete(m).Failed?
    {
      errs := [];
      var todo := seen;
      while todo != {}
        invariant todo <= seen
        invariant forall m :: At(cluster.routes, m) ==
                    if m in seen && m !in todo && m !in want && f.delete(m).Effective() then None
                    else At(old(cluster.routes), m)
        invariant pushed == old(pushed) - set m | m in seen && m !in todo && m !in want && f.delete(m).Done?
        invariant forall m :: m in errs <==> m in seen && m !in todo && m !in want && f.delete(m).Failed?
        decreases todo
      {
        var m :| m in todo;
        todo := todo - {m};
        if m !in want {
          var o := f.delete(m);
          if o.Effective() { cluster.routes := cluster.routes - {m}; }
          if o.Failed? {
            errs := errs + [m];
          } else {
            pushed := pushed - {m};
          }
        }
      }
    }
  }

  lemma PassComposes(routes: map<string, Route>, mid: map<string, Route>, after: map<string, Route>,
                     want: map<string, Route>, seen: set<string>, f: Faults)
    requires forall m :: At(mid, m) == if m in want && f.upsert(m).Effective() then Some(want[m]) else At(routes, m)
    requires forall m :: At(after, m) == if m in seen && m !in want && f.delete(m).Effective() then None else At(mid, m)
    ensures after == AfterRoutes(routes, want, seen, f)
  {
    var spec := AfterRoutes(routes, want, seen, f);
    forall m ensures At(after, m) == At(spec, m) {
      assert At(spec, m) == AfterAt(At(routes, m), At(want, m), m in seen, f, m);
    }
    SameTable(after, spec);
  }

  lemma PushedComposes(pushed: set<string>, want: map<string, Route>, seen: set<string>, f: Faults)
    ensures pushed + (set m | m in want && f.upsert(m).Done?) - (set m | m in seen && m !in want && f.delete(m).Done?)
         == AfterPushed(pushed, want, seen, f)
  {
  }

  // ---- A gateway that cannot be listed ----------------------------------------------------

  /**
   * The reconciler as the only writer: passes over any listing of deployments, and gateway restarts that empty the
   * table.
   */
  datatype Step = Pass(ds: seq<Deployment>, f: Faults) | Restart

  /** A failed call has no effect. */
  ghost predicate Clean(f: Faults) {
    forall m :: (f.upsert(m).Failed? ==> !f.upsert(m).applied) && (f.delete(m).Failed? ==> !f.delete(m).applied)
  }

  /** The gateway table and the pushed set after a run of steps, observing only the pushed set. */
  function Run(steps: seq<Step>): (r: (map<string, Route>, set<string>)) {
    if steps == [] then (map[], {})
    else
      var (routes, pushed) := Run(steps[..|steps| - 1]);
      match steps[|steps| - 1]
      case Restart => (map[], pushed)
      case Pass(ds, f) => (AfterRoutes(routes, Desired(ds), pushed, f), AfterPushed(pushed, Desired(ds), pushed, f))
  }

  lemma PassKeepsCovered(routes: map<string, Route>, pushed: set<string>, want: map<string, Route>, f: Faults)
    requires Clean(f) && routes.Keys <= pushed
    ensures AfterRoutes(routes, want, pushed, f).Keys <= AfterPushed(pushed, want, pushed, f)
  {
    var after := AfterRoutes(routes, want, pushed, f);
    forall m | m in after ensures m in AfterPushed(pushed, want, pushed, f) {
      assert At(after, m) == AfterAt(At(routes, m), At(want, m), m in pushed, f, m);
      assert Clean(f);
      assert f.upsert(m).Failed? ==> !f.upsert(m).applied;
    }
  }

  /** However passes fail and the gateway restarts, its table never holds a model outside the pushed set. */
  lemma {:induction false} RunCovered(steps: seq<Step>)
    requires forall i :: 0 <= i < |steps| && steps[i].Pass? ==> Clean(steps[i].f)
    ensures Run(steps).0.Keys <= Run(steps).1
  {
    if steps != [] {
      var front, last := steps[..|steps| - 1], steps[|steps| - 1];
      RunCovered(front);
      if last.Pass? {
        PassKeepsCovered(Run(front).0, Run(front).1, Desired(last.ds), last.f);
      }
    }
  }

  /** So an error-free pass ends with exactly the desired table even when the gateway cannot be listed. */
  lemma NonListingConverges(steps: seq<Step>, ds: seq<Deployment>, f: Faults)
    requires forall i :: 0 <= i < |steps| && steps[i].Pass? ==> Clean(steps[i].f)
    requires forall m :: !FailedAt(Desired(ds), Run(steps).1, f, m)
    ensures Run(steps + [Pass(ds, f)]).0 == Desired(ds)
  {
    RunCovered(steps);
    assert (steps + [Pass(ds, f)])[..|steps|] == steps;
    ExactTable(Run(steps).0, Desired(ds), Run(steps).1, f);
  }
}
