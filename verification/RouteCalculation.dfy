/** CalculateAllPossibleRoutes: a shortest path search per face, with all other faces of the node made expensive. */
module RouteCalculation {
  import opened Wrappers
  import opened Lists

  type FaceRef = nat
  type RouterId = nat
  type Prefix = string
  type Metrics = map<FaceRef, nat>

  // The edges of a channel's router carry no face.
  datatype Edge = Edge(face: Option<FaceRef>, target: RouterId)

  datatype Graph = Graph(edges: map<RouterId, seq<Edge>>, prefixes: map<RouterId, seq<Prefix>>)

  datatype Weight = Weight(face: Option<FaceRef>, cost: nat)

  datatype Distance = Distance(target: RouterId, weight: Weight)

  datatype Route = Route(prefix: Prefix, face: FaceRef, cost: nat)

  const DISABLED: nat := 65534
  const WEIGHT_ZERO := Weight(None, 0)
  const WEIGHT_INF := Weight(None, 65535)

  function Truncated16(n: nat): nat { n % 0x1_0000 }

  function Truncated32(n: nat): nat { n % 0x1_0000_0000 }

  // ---- Edge weights (boost-graph-ndn-global-routing-helper.hpp) ----

  function EdgeWeight(m: Metrics, e: Edge): Weight {
    if e.face.None? || e.face.value !in m then WEIGHT_ZERO else Weight(e.face, Truncated16(m[e.face.value]))
  }

  function WeightCombine(a: Weight, b: Weight): Weight {
    Weight(if a.face.None? then b.face else a.face, Truncated32(a.cost + b.cost))
  }

  /** What a path weighs. */
  function PathWeight(m: Metrics, p: seq<Edge>): Weight {
    if p == [] then WEIGHT_ZERO else WeightCombine(PathWeight(m, p[..|p| - 1]), EdgeWeight(m, p[|p| - 1]))
  }

  function PathCost(m: Metrics, p: seq<Edge>): nat {
    if p == [] then 0 else PathCost(m, p[..|p| - 1]) + EdgeWeight(m, p[|p| - 1]).cost
  }

  function Sum(costs: seq<nat>): nat {
    if costs == [] then 0 else costs[0] + Sum(costs[1..])
  }

  lemma {:induction false} SumOfFront(costs: seq<nat>)
    requires costs != []
    ensures Sum(costs) == Sum(costs[..|costs| - 1]) + costs[|costs| - 1]
  {
    if |costs| > 1 {
      SumOfFront(costs[1..]);
      assert costs[1..][..|costs| - 2] == costs[..|costs| - 1][1..];
    }
  }

  /** The cost of a path is the sum of the metrics of its faces, each on 16 bits; edges without a face are free. */
  lemma {:induction false} PathCostIsSum(m: Metrics, p: seq<Edge>, costs: seq<nat>)
    requires |costs| == |p|
    requires forall i :: 0 <= i < |p| ==>
            costs[i] == if p[i].face.Some? && p[i].face.value in m then m[p[i].face.value] % 65536 else 0
    ensures PathCost(m, p) == Sum(costs)
  {
    if p != [] {
      var k := |p| - 1;
      PathCostIsSum(m, p[..k], costs[..k]);
      SumOfFront(costs);
    }
  }

  /** The weight of a path is its first face with the sum of the metrics. */
  lemma {:induction false} PathWeightIsSum(m: Metrics, p: seq<Edge>)
    requires |p| > 0 && p[0].face.Some? && p[0].face.value in m
    ensures PathWeight(m, p) == Weight(p[0].face, PathCost(m, p) % 0x1_0000_0000)
  {
    hide Truncated32;
    TruncatedSum(0, EdgeWeight(m, p[|p| - 1]).cost);
    TruncatedZero();
    TruncatedIs(PathCost(m, p));
    TruncatedIs(PathCost(m, p[..|p| - 1]));
    var front := p[..|p| - 1];
    if |p| > 1 {
      PathWeightIsSum(m, front);
      TruncatedSum(PathCost(m, front), EdgeWeight(m, p[|p| - 1]).cost);
    }
  }

  lemma TruncatedIs(n: nat)
    ensures Truncated32(n) == n % 0x1_0000_0000
  {
  }

  lemma TruncatedZero()
    ensures Truncated32(0) == 0
  {
  }

  lemma TruncatedSum(a: nat, b: nat)
    ensures Truncated32(Truncated32(a) + b) == Truncated32(a + b)
  {
    assert a + b == (a / 0x1_0000_0000) * 0x1_0000_0000 + (Truncated32(a) + b);
  }

  function Origin(p: seq<Edge>, source: RouterId, i: nat): RouterId
    requires i < |p|
  {
    if i == 0 then source else p[i - 1].target
  }

  predicate LeavesFrom(g: Graph, e: Edge, u: RouterId) {
    u in g.edges && e in g.edges[u]
  }

  predicate IsWalk(g: Graph, p: seq<Edge>, source: RouterId, target: RouterId) {
    && (forall i :: 0 <= i < |p| ==> LeavesFrom(g, p[i], Origin(p, source, i)))
    && target == if p == [] then source else p[|p| - 1].target
  }

  ghost predicate Weighs(g: Graph, m: Metrics, source: RouterId, d: Distance, p: seq<Edge>) {
    IsWalk(g, p, source, d.target) && d.weight == PathWeight(m, p)
  }

  /** As Weighs, for a sum that did not wrap. */
  ghost predicate WeighsExactly(g: Graph, m: Metrics, source: RouterId, d: Distance, p: seq<Edge>) {
    Weighs(g, m, source, d, p) && d.weight.cost == PathCost(m, p)
  }

  // ---- What Dijkstra's algorithm is taken to return ----

  /** Each distance that has a face is the weight of some path. */
  ghost predicate Attained(g: Graph, m: Metrics, source: RouterId, ds: seq<Distance>) {
    forall d :: d in ds && d.weight.face.Some? ==> exists p :: Weighs(g, m, source, d, p)
  }

  /** Every router some path reaches at a cost below WEIGHT_INF has a distance, and none of its paths is cheaper. */
  ghost predicate Shortest(g: Graph, m: Metrics, source: RouterId, ds: seq<Distance>) {
    forall p, target :: IsWalk(g, p, source, target) && PathCost(m, p) < WEIGHT_INF.cost ==>
      exists d :: d in ds && d.target == target && ShortestTo(g, m, source, d)
  }

  ghost predicate ShortestTo(g: Graph, m: Metrics, source: RouterId, d: Distance) {
    && (exists p :: WeighsExactly(g, m, source, d, p))
    && forall p :: IsWalk(g, p, source, d.target) ==> d.weight.cost <= PathCost(m, p)
  }

  // ---- Routes found while one face is enabled ----

  function AllDisabled(m: Metrics, table: seq<FaceRef>): Metrics {
    map x | x in m :: if x in table then DISABLED else m[x]
  }

  function Originals(m: Metrics, table: seq<FaceRef>): Metrics {
    map f | f in table && f in m :: Truncated16(m[f])
  }

  lemma OriginalsAre(m: Metrics, table: seq<FaceRef>)
    requires forall f :: f in table ==> f in m
    ensures forall f :: f in table ==> f in Originals(m, table) && Originals(m, table)[f] == Truncated16(m[f])
  {
  }

  lemma DisableStep(m: Metrics, table: seq<FaceRef>, i: nat)
    requires NoDuplicates(table) && i < |table| && table[i] in m
    ensures var front, next := table[..i], table[..i + 1];
            && table[i] in AllDisabled(m, front) && AllDisabled(m, front)[table[i]] == m[table[i]]
            && AllDisabled(m, next) == AllDisabled(m, front)[table[i] := DISABLED]
            && Originals(m, next) == Originals(m, front)[table[i] := Truncated16(m[table[i]])]
  {
    assert table[..i + 1] == table[..i] + [table[i]];
  }

  /** The metrics while only f, of all faces of the table, is enabled. */
  function Enabled(m: Metrics, table: seq<FaceRef>, f: FaceRef): Metrics {
    map x | x in m :: if x == f then Truncated16(m[x]) else if x in table then DISABLED else m[x]
  }

  function PrefixRoutes(ps: seq<Prefix>, face: FaceRef, cost: nat): (rs: seq<Route>)
    ensures |rs| == |ps| && forall i :: 0 <= i < |ps| ==> rs[i] == Route(ps[i], face, cost)
  {
    seq(|ps|, i requires 0 <= i < |ps| => Route(ps[i], face, cost))
  }

  function PrefixesOf(g: Graph, r: RouterId): seq<Prefix> {
    if r in g.prefixes then g.prefixes[r] else []
  }

  function TargetRoutes(g: Graph, m: Metrics, d: Distance): seq<Route> {
    if d.weight.face.None? || d.weight.face.value !in m || m[d.weight.face.value] == DISABLED then []
    else PrefixRoutes(PrefixesOf(g, d.target), d.weight.face.value, d.weight.cost)
  }

  /** A distance yields routes unless it is the source's own, unreachable or through a disabled face. */
  function DistanceRoutes(g: Graph, m: Metrics, source: RouterId, d: Distance): seq<Route> {
    if d.target == source then [] else TargetRoutes(g, m, d)
  }

  function DistancesRoutes(g: Graph, m: Metrics, source: RouterId, ds: seq<Distance>): seq<Route> {
    if ds == [] then []
    else DistancesRoutes(g, m, source, ds[..|ds| - 1]) + DistanceRoutes(g, m, source, ds[|ds| - 1])
  }

  function FaceRoutes(g: Graph, m: Metrics, table: seq<FaceRef>, source: RouterId, f: FaceRef,
                      dijkstra: Metrics -> seq<Distance>): seq<Route> {
    var m1 := Enabled(m, table, f);
    DistancesRoutes(g, m1, source, dijkstra(m1))
  }

  /** All routes of one node, face by face. */
  function NodeRoutes(g: Graph, m: Metrics, table: seq<FaceRef>, fs: seq<FaceRef>, netDevice: set<FaceRef>,
                      source: RouterId,
                      dijkstra: Metrics -> seq<Distance>): seq<Route>
  {
    if fs == [] then []
    else
      var f := fs[|fs| - 1];
      NodeRoutes(g, m, table, fs[..|fs| - 1], netDevice, source, dijkstra) +
      if f in netDevice then FaceRoutes(g, m, table, source, f, dijkstra) else []
  }

  /** The first i metrics of the table are back. */
  function PartlyRestored(m: Metrics, table: seq<FaceRef>, i: nat): Metrics
    requires i <= |table|
  {
    map x | x in m :: if x in table[..i] then Truncated16(m[x]) else if x in table then DISABLED else m[x]
  }

  lemma RestoredSoFar(m: Metrics, table: seq<FaceRef>)
    ensures PartlyRestored(m, table, 0) == AllDisabled(m, table)
    ensures PartlyRestored(m, table, |table|) == Restored(m, table)
  {
    assert table[..|table|] == table;
  }

  lemma RestoreStep(m: Metrics, table: seq<FaceRef>, i: nat)
    requires i < |table| && table[i] in m
    ensures table[i] in Originals(m, table)
    ensures PartlyRestored(m, table, i + 1) == PartlyRestored(m, table, i)[table[i] := Originals(m, table)[table[i]]]
  {
    assert table[..i + 1] == table[..i] + [table[i]];
  }

  lemma Reassociate<T>(a: seq<T>, b: seq<T>, c: seq<T>)
    ensures a + b + c == a + (b + c) && (c == [] ==> a + (b + c) == a + b)
  {
  }

  lemma NoNodeRoutes(g: Graph, m: Metrics, table: seq<FaceRef>, netDevice: set<FaceRef>, source: RouterId,
                     dijkstra: Metrics -> seq<Distance>)
    ensures NodeRoutes(g, m, table, table[..0], netDevice, source, dijkstra) == []
  {
  }

  lemma NextNodeRoutes(g: Graph, m: Metrics, table: seq<FaceRef>, i: nat, netDevice: set<FaceRef>, source: RouterId,
                       dijkstra: Metrics -> seq<Distance>)
    requires i < |table|
    ensures NodeRoutes(g, m, table, table[..i + 1], netDevice, source, dijkstra)
            == NodeRoutes(g, m, table, table[..i], netDevice, source, dijkstra)
               + if table[i] in netDevice then FaceRoutes(g, m, table, source, table[i], dijkstra) else []
  {
    assert table[..i + 1][..i] == table[..i];
  }

  /** The metrics once a node is done. */
  function Restored(m: Metrics, table: seq<FaceRef>): Metrics {
    map x | x in m :: if x in table then Truncated16(m[x]) else m[x]
  }

  // ---- All nodes ----

  datatype NodeInfo = NodeInfo(router: Option<RouterId>, table: seq<FaceRef>, netDevice: set<FaceRef>)

  /** The metrics once all nodes are done; a node without a router is passed over. */
  function RestoredAll(m: Metrics, nodes: seq<NodeInfo>): (r: Metrics)
    ensures r.Keys == m.Keys
  {
    if nodes == [] then m
    else
      var before, n := RestoredAll(m, nodes[..|nodes| - 1]), nodes[|nodes| - 1];
      if n.router.None? then before else Restored(before, n.table)
  }

  function AllRoutes(g: Graph, m: Metrics, nodes: seq<NodeInfo>,
                     dijkstra: RouterId -> (Metrics -> seq<Distance>)): seq<Route> {
    if nodes == [] then []
    else
      var front, n := nodes[..|nodes| - 1], nodes[|nodes| - 1];
      AllRoutes(g, m, front, dijkstra) +
      if n.router.None? then []
      else NodeRoutes(g, RestoredAll(m, front), n.table, n.table, n.netDevice, n.router.value, dijkstra(n.router.value))
  }

  /** Whether a metric survives depends only on its fitting 16 bits, however many nodes hold the face. */
  lemma {:induction false} RestoredAllAt(m: Metrics, nodes: seq<NodeInfo>, x: FaceRef)
    requires x in m
    ensures RestoredAll(m, nodes)[x] ==
            if exists i :: 0 <= i < |nodes| && nodes[i].router.Some? && x in nodes[i].table then Truncated16(m[x])
                else m[x]
  {
    if nodes != [] {
      var front := nodes[..|nodes| - 1];
      RestoredAllAt(m, front, x);
      assert forall i :: 0 <= i < |front| ==> front[i] == nodes[i];
    }
  }

  /** The calculation leaves every metric as it found it exactly when the metrics of all routers' faces fit 16 bits. */
  lemma RestoredAllExactly(m: Metrics, nodes: seq<NodeInfo>)
    ensures RestoredAll(m, nodes) == m <==>
            forall i, x :: 0 <= i < |nodes| && nodes[i].router.Some? && x in nodes[i].table && x in m ==>
                m[x] < 0x1_0000
  {
    if RestoredAll(m, nodes) == m {
      forall i, x | 0 <= i < |nodes| && nodes[i].router.Some? && x in nodes[i].table && x in m
        ensures m[x] < 0x1_0000
      {
        RestoredAllAt(m, nodes, x);
      }
    }
    if forall i, x :: 0 <= i < |nodes| && nodes[i].router.Some? && x in nodes[i].table && x in m ==> m[x] < 0x1_0000 {
      forall x | x in m
        ensures RestoredAll(m, nodes)[x] == m[x]
      {
        RestoredAllAt(m, nodes, x);
      }
    }
  }

  class RouteCalculator {
    const graph: Graph
    var metrics: Metrics
    var routes: seq<Route>

    constructor (graph: Graph, metrics: Metrics)
      ensures this.graph == graph && this.metrics == metrics && routes == []
    {
      this.graph, this.metrics, routes := graph, metrics, [];
    }

    method CalculateAllPossibleRoutes(nodes: seq<NodeInfo>, dijkstra: RouterId -> (Metrics -> seq<Distance>))
      requires forall n :: n in nodes ==> NoDuplicates(n.table) && forall f :: f in n.table ==> f in metrics
      modifies this
      ensures metrics == RestoredAll(old(metrics), nodes)
      ensures routes == old(routes) + AllRoutes(graph, old(metrics), nodes, dijkstra)
    {
      hide NodeRoutes, Restored, NoDuplicates;
      var i := 0;
      while i < |nodes|
        invariant 0 <= i <= |nodes| && metrics == RestoredAll(old(metrics), nodes[..i])
        invariant routes == old(routes) + AllRoutes(graph, old(metrics), nodes[..i], dijkstra)
      {
        var n := nodes[i];
        assert nodes[..i + 1][..i] == nodes[..i];
        if n.router.Some? {
          CalculateNode(n.router.value, n.table, n.netDevice, dijkstra(n.router.value));
        }
        i := i + 1;
      }
      assert nodes[..|nodes|] == nodes;
    }

    /** The body of the loop over nodes, for one with a router. */
    method CalculateNode(source: RouterId, table: seq<FaceRef>, netDevice: set<FaceRef>,
                         dijkstra: Metrics -> seq<Distance>)
      requires NoDuplicates(table) && forall f :: f in table ==> f in metrics
      modifies this
      ensures metrics == Restored(old(metrics), table)
      ensures routes == old(routes) + NodeRoutes(graph, old(metrics), table, table, netDevice, source, dijkstra)
    {
      ghost var m0 := metrics;
      var originalMetrics := DisableFaces(table);
      OriginalsAre(m0, table);
      hide NoDuplicates, Restored, AllDisabled, Originals, FaceRoutes, NodeRoutes;
      NoNodeRoutes(graph, m0, table, netDevice, source, dijkstra);
      assert routes + [] == routes;
      var i := 0;
      while i < |table|
        invariant 0 <= i <= |table| && metrics == AllDisabled(m0, table)
        invariant routes == old(routes) + NodeRoutes(graph, m0, table, table[..i], netDevice, source, dijkstra)
      {
        var f := table[i];
        ghost var before := NodeRoutes(graph, m0, table, table[..i], netDevice, source, dijkstra);
        ghost var found := if f in netDevice then FaceRoutes(graph, m0, table, source, f, dijkstra) else [];
        NextNodeRoutes(graph, m0, table, i, netDevice, source, dijkstra);
        Reassociate(old(routes), before, found);
        if f in netDevice {
          CalculateFace(source, table, f, originalMetrics[f], dijkstra, m0);
        }
        i := i + 1;
      }
      assert table[..|table|] == table;
      RestoreMetrics(table, originalMetrics, m0);
    }

    method DisableFaces(table: seq<FaceRef>) returns (originalMetrics: Metrics)
      requires NoDuplicates(table) && forall f :: f in table ==> f in metrics
      modifies this`metrics
      ensures metrics == AllDisabled(old(metrics), table)
      ensures originalMetrics == Originals(old(metrics), table)
    {
      originalMetrics := map[];
      assert table[..0] == [] && AllDisabled(metrics, []) == metrics;
      hide AllDisabled, Originals;
      var i := 0;
      while i < |table|
        invariant 0 <= i <= |table| && metrics == AllDisabled(old(metrics), table[..i])
        invariant originalMetrics == Originals(old(metrics), table[..i])
      {
        DisableStep(old(metrics), table, i);
        originalMetrics := originalMetrics[table[i] := Truncated16(metrics[table[i]])];
        metrics := metrics[table[i] := DISABLED];
        i := i + 1;
      }
      assert table[..|table|] == table;
    }

    /** The body of the loop over faces: enable f only, search, disable f again. */
    method CalculateFace(source: RouterId, table: seq<FaceRef>, f: FaceRef, original: nat,
                         dijkstra: Metrics -> seq<Distance>, ghost m0: Metrics)
      requires f in table && f in m0 && original == Truncated16(m0[f]) && metrics == AllDisabled(m0, table)
      modifies this
      ensures metrics == old(metrics) && routes == old(routes) + FaceRoutes(graph, m0, table, source, f, dijkstra)
    {
      metrics := metrics[f := original];
      assert metrics == Enabled(m0, table, f);
      AddRoutes(source, dijkstra(metrics));
      metrics := metrics[f := DISABLED];
      assert metrics == old(metrics);
    }

    method RestoreMetrics(table: seq<FaceRef>, originalMetrics: Metrics, ghost m0: Metrics)
      requires forall f :: f in table ==> f in m0
      requires originalMetrics == Originals(m0, table)
      requires metrics == AllDisabled(m0, table)
      modifies this`metrics
      ensures metrics == Restored(m0, table)
    {
      RestoredSoFar(m0, table);
      hide Restored, AllDisabled, Originals, PartlyRestored;
      var i := 0;
      while i < |table|
        invariant 0 <= i <= |table| && metrics == PartlyRestored(m0, table, i)
      {
        RestoreStep(m0, table, i);
        metrics := metrics[table[i] := originalMetrics[table[i]]];
        i := i + 1;
      }
    }

    /** The loops over the distances and over the prefixes of each target. */
    method AddRoutes(source: RouterId, ds: seq<Distance>)
      modifies this`routes
      ensures routes == old(routes) + DistancesRoutes(graph, metrics, source, ds)
    {
      var i := 0;
      while i < |ds|
        invariant 0 <= i <= |ds| && routes == old(routes) + DistancesRoutes(graph, metrics, source, ds[..i])
      {
        var d := ds[i];
        assert ds[..i + 1][..i] == ds[..i];
        if d.target != source {
          if d.weight.face.Some? {
            AddPrefixes(d);
          }
        }
        i := i + 1;
      }
      assert ds[..|ds|] == ds;
    }

    method AddPrefixes(d: Distance)
      requires d.weight.face.Some?
      modifies this`routes
      ensures routes == old(routes) + TargetRoutes(graph, metrics, d)
    {
      var face := d.weight.face.value;
      var ps := PrefixesOf(graph, d.target);
      var i := 0;
      while i < |ps|
        invariant 0 <= i <= |ps|
        invariant routes == old(routes) +
          if face !in metrics || metrics[face] == DISABLED then [] else PrefixRoutes(ps[..i], face, d.weight.cost)
      {
        if face !in metrics || metrics[face] == DISABLED {
          i := i + 1;
          continue;
        }
        routes := routes + [Route(ps[i], face, d.weight.cost)];
        i := i + 1;
      }
      assert ps[..|ps|] == ps;
    }
  }

  // ---- What the routes mean ----

  /** Every face the source's edges leave by is in the node's table; so Install made them. */
  ghost predicate OwnFaces(g: Graph, source: RouterId, table: seq<FaceRef>, m: Metrics) {
    && (forall f :: f in table ==> f in m)
    && (source in g.edges ==> forall e :: e in g.edges[source] ==> e.face.Some? && e.face.value in table)
  }

  lemma {:induction false} RouteHasDistance(g: Graph, m: Metrics, source: RouterId, ds: seq<Distance>, r: Route)
    requires r in DistancesRoutes(g, m, source, ds)
    ensures exists d :: d in ds && r in DistanceRoutes(g, m, source, d)
  {
    if r in DistancesRoutes(g, m, source, ds[..|ds| - 1]) {
      RouteHasDistance(g, m, source, ds[..|ds| - 1], r);
      var d :| d in ds[..|ds| - 1] && r in DistanceRoutes(g, m, source, d);
      assert d in ds;
    } else {
      assert ds[|ds| - 1] in ds;
    }
  }

  lemma {:induction false} DistanceHasRoutes(g: Graph, m: Metrics, source: RouterId, ds: seq<Distance>, d: Distance,
                                             r: Route)
    requires d in ds && r in DistanceRoutes(g, m, source, d)
    ensures r in DistancesRoutes(g, m, source, ds)
  {
    if d != ds[|ds| - 1] {
      DistanceHasRoutes(g, m, source, ds[..|ds| - 1], d, r);
    }
  }

  ghost predicate PathVia(g: Graph, p: seq<Edge>, source: RouterId, target: RouterId, f: FaceRef) {
    |p| > 0 && p[0].face == Some(f) && IsWalk(g, p, source, target)
  }

  /** r leads to its prefix on a path that leaves by f, at the cost of that path. */
  ghost predicate Justified(g: Graph, m: Metrics, source: RouterId, f: FaceRef, r: Route, target: RouterId,
                            p: seq<Edge>) {
    && r.face == f && r.prefix in PrefixesOf(g, target) && target != source
    && PathVia(g, p, source, target, f) && r.cost == PathCost(m, p) % 0x1_0000_0000
  }

  /** A node's routes are those found face by face. */
  lemma {:induction false} NodeRoutesByFace(g: Graph, m: Metrics, table: seq<FaceRef>, fs: seq<FaceRef>,
                                            netDevice: set<FaceRef>,
                                            source: RouterId, dijkstra: Metrics -> seq<Distance>, r: Route)
    ensures r in NodeRoutes(g, m, table, fs, netDevice, source, dijkstra) <==>
            exists f :: f in fs && f in netDevice && r in FaceRoutes(g, m, table, source, f, dijkstra)
  {
    hide FaceRoutes;
    if fs != [] {
      NodeRoutesByFace(g, m, table, fs[..|fs| - 1], netDevice, source, dijkstra, r);
      var last := fs[|fs| - 1];
      assert forall f :: f in fs <==> f in fs[..|fs| - 1] || f == last;
    }
  }

  lemma FirstEdgeIsOwn(g: Graph, m: Metrics, table: seq<FaceRef>, source: RouterId, target: RouterId, p: seq<Edge>)
    requires OwnFaces(g, source, table, m) && IsWalk(g, p, source, target) && target != source
    ensures |p| > 0 && p[0].face.Some? && p[0].face.value in table && p[0].face.value in m
  {
    assert LeavesFrom(g, p[0], Origin(p, source, 0));
  }

  /** Every route added while f is enabled names f and costs the sum of the metrics of a path that starts at f. */
  lemma FaceRoutesAreJustified(g: Graph, m: Metrics, table: seq<FaceRef>, source: RouterId, f: FaceRef,
                               dijkstra: Metrics -> seq<Distance>, r: Route)
    requires OwnFaces(g, source, table, m) && f in table
    requires Attained(g, Enabled(m, table, f), source, dijkstra(Enabled(m, table, f)))
    requires r in FaceRoutes(g, m, table, source, f, dijkstra)
    ensures exists target, p :: Justified(g, Enabled(m, table, f), source, f, r, target, p)
  {
    var m1 := Enabled(m, table, f);
    var ds := dijkstra(m1);
    RouteHasDistance(g, m1, source, ds, r);
    var d :| d in ds && r in DistanceRoutes(g, m1, source, d);
    var p :| Weighs(g, m1, source, d, p);
    FirstEdgeIsOwn(g, m, table, source, d.target, p);
    PathWeightIsSum(m1, p);
    assert m1[f] != DISABLED && forall x :: x in table && x != f ==> m1[x] == DISABLED;
    hide PathWeight, PathCost, IsWalk, DistancesRoutes, Enabled, OwnFaces;
    assert Justified(g, m1, source, f, r, d.target, p);
  }

  lemma {:induction false} FirstEdgeCounts(m: Metrics, p: seq<Edge>)
    requires |p| > 0
    ensures PathCost(m, p) >= EdgeWeight(m, p[0]).cost
  {
    if |p| > 1 {
      FirstEdgeCounts(m, p[..|p| - 1]);
    }
  }

  /**
   * With shortest paths, a target some path reaches through f for less than the price of a disabled face
   * gets a route through f for each of its prefixes, at the least cost of all paths that start at f.
   */
  lemma CheapPathsGetRoutes(g: Graph, m: Metrics, table: seq<FaceRef>, source: RouterId, f: FaceRef,
                            dijkstra: Metrics -> seq<Distance>,
                            target: RouterId, p: seq<Edge>, prefix: Prefix)
    returns (r: Route, best: seq<Edge>)
    requires OwnFaces(g, source, table, m) && f in table && target != source && prefix in PrefixesOf(g, target)
    requires Shortest(g, Enabled(m, table, f), source, dijkstra(Enabled(m, table, f)))
    requires PathVia(g, p, source, target, f) && PathCost(Enabled(m, table, f), p) < DISABLED
    ensures r in FaceRoutes(g, m, table, source, f, dijkstra) && r.prefix == prefix && r.face == f
    ensures PathVia(g, best, source, target, f) && r.cost == PathCost(Enabled(m, table, f), best)
    ensures forall q :: PathVia(g, q, source, target, f) ==> r.cost <= PathCost(Enabled(m, table, f), q)
  {
    var m1 := Enabled(m, table, f);
    var ds := dijkstra(m1);
    var d :| d in ds && d.target == target && ShortestTo(g, m1, source, d);
    hide Shortest;
    best := CheapestLeavesBy(g, m, table, source, f, target, p, d);
    r := Route(prefix, f, d.weight.cost);
    TargetHasRoute(g, m1, source, d, f, prefix);
    DistanceHasRoutes(g, m1, source, ds, d, r);
    hide ShortestTo, Enabled, OwnFaces, PathVia, PathCost, DistanceRoutes, DistancesRoutes, PrefixesOf;
  }

  /** The cheapest path to a target that some cheap path reaches through f, the one enabled face, starts at f itself. */
  lemma CheapestLeavesBy(g: Graph, m: Metrics, table: seq<FaceRef>, source: RouterId, f: FaceRef, target: RouterId,
                         p: seq<Edge>, d: Distance)
    returns (best: seq<Edge>)
    requires OwnFaces(g, source, table, m) && f in table && target != source && d.target == target
    requires PathVia(g, p, source, target, f) && PathCost(Enabled(m, table, f), p) < DISABLED
    requires ShortestTo(g, Enabled(m, table, f), source, d)
    ensures PathVia(g, best, source, target, f) && d.weight == Weight(Some(f), PathCost(Enabled(m, table, f), best))
    ensures f in Enabled(m, table, f) && Enabled(m, table, f)[f] != DISABLED
    ensures forall q :: PathVia(g, q, source, target, f) ==> d.weight.cost <= PathCost(Enabled(m, table, f), q)
  {
    var m1 := Enabled(m, table, f);
    FirstEdgeIsOwn(g, m, table, source, target, p);
    FirstEdgeCounts(m1, p);
    best :| WeighsExactly(g, m1, source, d, best);
    FirstEdgeIsOwn(g, m, table, source, target, best);
    PathWeightIsSum(m1, best);
    FirstEdgeCounts(m1, best);
    assert best[0].face == Some(f);
  }

  lemma TargetHasRoute(g: Graph, m: Metrics, source: RouterId, d: Distance, f: FaceRef, prefix: Prefix)
    requires d.target != source && d.weight.face == Some(f) && f in m && m[f] != DISABLED
            && prefix in PrefixesOf(g, d.target)
    ensures Route(prefix, f, d.weight.cost) in DistanceRoutes(g, m, source, d)
  {
    var ps := PrefixesOf(g, d.target);
    var i :| 0 <= i < |ps| && ps[i] == prefix;
    assert PrefixRoutes(ps, f, d.weight.cost)[i] == Route(prefix, f, d.weight.cost);
  }

  // ---- The routes of all nodes ----

  /** Faces are known and each router's edges leave by faces of its node. */
  ghost predicate FacesHeld(g: Graph, m: Metrics, nodes: seq<NodeInfo>) {
    forall n :: n in nodes && n.router.Some? ==> OwnFaces(g, n.router.value, n.table, m)
  }

  ghost predicate HeldUpTo(nodes: seq<NodeInfo>, i: nat, x: FaceRef) {
    exists j :: 0 <= j <= i && j < |nodes| && nodes[j].router.Some? && x in nodes[j].table
  }

  /**
   w are the metrics when the search for face f of the i-th node starts from metrics m: the node's other faces cost
   65534, every other face of a router's node up to this one has been cut to 16 bits, and the rest is untouched.
   */
  ghost predicate SearchMetrics(m: Metrics, nodes: seq<NodeInfo>, i: nat, f: FaceRef, w: Metrics)
    requires i < |nodes|
  {
    && w.Keys == m.Keys
    && forall x :: x in m ==>
         w[x] == if x in nodes[i].table && x != f then 65534
                 else if HeldUpTo(nodes, i, x) then m[x] % 65536
                 else m[x]
  }

  lemma BeforeNode(m: Metrics, nodes: seq<NodeInfo>, i: nat, x: FaceRef)
    requires i < |nodes| && nodes[i].router.Some? && x in m
    ensures var before := RestoredAll(m, nodes[..i])[x];
            before == if i > 0 && HeldUpTo(nodes, i - 1, x) then m[x] % 65536 else m[x]
    ensures x !in nodes[i].table ==> (HeldUpTo(nodes, i, x) <==> i > 0 && HeldUpTo(nodes, i - 1, x))
    ensures x in nodes[i].table ==> HeldUpTo(nodes, i, x)
  {
    RestoredAllAt(m, nodes[..i], x);
    hide RestoredAll;
    assert forall j :: 0 <= j < i ==> nodes[..i][j] == nodes[j];
  }

  lemma SearchMetricsAre(m: Metrics, nodes: seq<NodeInfo>, i: nat, f: FaceRef)
    requires i < |nodes| && nodes[i].router.Some? && f in nodes[i].table
    ensures SearchMetrics(m, nodes, i, f, Enabled(RestoredAll(m, nodes[..i]), nodes[i].table, f))
  {
    var before := RestoredAll(m, nodes[..i]);
    hide RestoredAll, HeldUpTo;
    var w := Enabled(before, nodes[i].table, f);
    forall x | x in m
      ensures w[x] == if x in nodes[i].table && x != f then 65534
                      else if HeldUpTo(nodes, i, x) then m[x] % 65536
                      else m[x]
    {
      BeforeNode(m, nodes, i, x);
    }
  }

  lemma SearchMetricsUnique(m: Metrics, nodes: seq<NodeInfo>, i: nat, f: FaceRef, w: Metrics)
    requires i < |nodes| && nodes[i].router.Some? && f in nodes[i].table && SearchMetrics(m, nodes, i, f, w)
    ensures w == Enabled(RestoredAll(m, nodes[..i]), nodes[i].table, f)
  {
    SearchMetricsAre(m, nodes, i, f);
    hide Enabled, RestoredAll, HeldUpTo;
  }

  lemma {:induction false} AllRoutesByNode(g: Graph, m: Metrics, nodes: seq<NodeInfo>,
                                           dijkstra: RouterId -> (Metrics -> seq<Distance>), r: Route)
    ensures r in AllRoutes(g, m, nodes, dijkstra) <==>
            exists i :: 0 <= i < |nodes| && NodeAdds(g, m, nodes, dijkstra, i, r)
  {
    hide NodeRoutes, RestoredAll;
    if nodes != [] {
      var k := |nodes| - 1;
      var front := nodes[..k];
      AllRoutesByNode(g, m, front, dijkstra, r);
      forall i | 0 <= i < k
        ensures NodeAdds(g, m, front, dijkstra, i, r) <==> NodeAdds(g, m, nodes, dijkstra, i, r)
      {
        assert front[..i] == nodes[..i];
      }
      assert r in AllRoutes(g, m, nodes, dijkstra) <==>
          r in AllRoutes(g, m, front, dijkstra) || NodeAdds(g, m, nodes, dijkstra, k, r);
    }
  }

  ghost predicate NodeAdds(g: Graph, m: Metrics, nodes: seq<NodeInfo>,
                           dijkstra: RouterId -> (Metrics -> seq<Distance>), i: nat, r: Route)
    requires i < |nodes|
  {
    var n := nodes[i];
    && n.router.Some?
    && r in NodeRoutes(g, RestoredAll(m, nodes[..i]), n.table, n.table, n.netDevice, n.router.value,
                       dijkstra(n.router.value))
  }

  lemma OwnFacesByKeys(g: Graph, source: RouterId, table: seq<FaceRef>, m: Metrics, m': Metrics)
    requires OwnFaces(g, source, table, m) && m'.Keys == m.Keys
    ensures OwnFaces(g, source, table, m')
  {
    assert forall f :: f in m <==> f in m.Keys;
    assert forall f :: f in m' <==> f in m'.Keys;
  }

  /**
   Main theorem of the calculation, for each node with a router and each of its faces on a device: every target that
   some path from the router reaches through that face for less than the price of a disabled one gets a route through
   it for each of its prefixes, at the least cost of all paths that leave by that face. The metrics are those at that
   time, and what the search returns is shortest there.
   */
  lemma EveryFaceGetsRoutes(g: Graph, m: Metrics, nodes: seq<NodeInfo>,
                            dijkstra: RouterId -> (Metrics -> seq<Distance>), i: nat, f: FaceRef, w: Metrics,
                            target: RouterId, p: seq<Edge>, prefix: Prefix)
    returns (r: Route, best: seq<Edge>)
    requires FacesHeld(g, m, nodes) && i < |nodes| && nodes[i].router.Some?
    requires f in nodes[i].table && f in nodes[i].netDevice && SearchMetrics(m, nodes, i, f, w)
    requires var source := nodes[i].router.value;
             && Shortest(g, w, source, dijkstra(source)(w))
             && target != source && prefix in PrefixesOf(g, target)
             && PathVia(g, p, source, target, f) && PathCost(w, p) < 65534
    ensures r in AllRoutes(g, m, nodes, dijkstra) && r.prefix == prefix && r.face == f
    ensures var source := nodes[i].router.value;
            && PathVia(g, best, source, target, f) && r.cost == PathCost(w, best)
            && forall q :: PathVia(g, q, source, target, f) ==> r.cost <= PathCost(w, q)
  {
    var n, before := nodes[i], RestoredAll(m, nodes[..i]);
    var source := n.router.value;
    SearchMetricsUnique(m, nodes, i, f, w);
    assert n in nodes;
    OwnFacesByKeys(g, source, n.table, m, before);
    hide Enabled, RestoredAll, SearchMetrics, Shortest, OwnFaces, PathVia, PathCost, AllRoutes, FaceRoutes, NodeRoutes,
         PrefixesOf;
    r, best := CheapPathsGetRoutes(g, before, n.table, source, f, dijkstra(source), target, p, prefix);
    NodeRoutesByFace(g, before, n.table, n.table, n.netDevice, source, dijkstra(source), r);
    assert NodeAdds(g, m, nodes, dijkstra, i, r);
    AllRoutesByNode(g, m, nodes, dijkstra, r);
  }

  /** What each search returns is attained by paths. */
  ghost predicate AllAttained(g: Graph, m: Metrics, nodes: seq<NodeInfo>,
                              dijkstra: RouterId -> (Metrics -> seq<Distance>)) {
    forall i, f, w :: 0 <= i < |nodes| && nodes[i].router.Some? && f in nodes[i].table
                      && f in nodes[i].netDevice && SearchMetrics(m, nodes, i, f, w) ==>
                          Attained(g, w, nodes[i].router.value, dijkstra(nodes[i].router.value)(w))
  }

  /**
   Conversely, every route added is justified: some node has a router and the route's face among those on its devices,
   and a path from that router leaves by this face to a target with the prefix, at the cost of the route.
   */
  lemma EveryRouteIsJustified(g: Graph, m: Metrics, nodes: seq<NodeInfo>,
                              dijkstra: RouterId -> (Metrics -> seq<Distance>), r: Route)
    returns (i: nat, w: Metrics, target: RouterId, p: seq<Edge>)
    requires FacesHeld(g, m, nodes) && AllAttained(g, m, nodes, dijkstra) && r in AllRoutes(g, m, nodes, dijkstra)
    ensures i < |nodes| && nodes[i].router.Some? && r.face in nodes[i].table && r.face in nodes[i].netDevice
    ensures SearchMetrics(m, nodes, i, r.face, w)
            && Justified(g, w, nodes[i].router.value, r.face, r, target, p)
  {
    AllRoutesByNode(g, m, nodes, dijkstra, r);
    i :| 0 <= i < |nodes| && NodeAdds(g, m, nodes, dijkstra, i, r);
    var n, before := nodes[i], RestoredAll(m, nodes[..i]);
    var source := n.router.value;
    NodeRoutesByFace(g, before, n.table, n.table, n.netDevice, source, dijkstra(source), r);
    var f :| f in n.table && f in n.netDevice && r in FaceRoutes(g, before, n.table, source, f, dijkstra(source));
    w := Enabled(before, n.table, f);
    SearchMetricsAre(m, nodes, i, f);
    assert n in nodes;
    OwnFacesByKeys(g, source, n.table, m, before);
    hide Enabled, RestoredAll, SearchMetrics, Attained, OwnFaces, Justified, AllRoutes, FaceRoutes, NodeRoutes;
    FaceRoutesAreJustified(g, before, n.table, source, f, dijkstra(source), r);
    target, p :| Justified(g, w, source, f, r, target, p);
    JustifiedFace(g, w, source, f, r, target, p);
  }

  lemma JustifiedFace(g: Graph, m: Metrics, source: RouterId, f: FaceRef, r: Route, target: RouterId, p: seq<Edge>)
    requires Justified(g, m, source, f, r, target, p)
    ensures r.face == f
  {
  }
}
