/**
 GlobalRouter and GlobalRoutingHelper::Install (model/ndn-global-router.cpp, helper/ndn-global-routing-helper.cpp).
 */
module GlobalRouting {
  import opened Wrappers
  import opened Topology

  // The face is null on the edges of a channel's router.
  datatype Incidency = Incidency(source: GlobalRouter, face: Option<FaceId>, target: GlobalRouter)

  class GlobalRouter {
    const id: nat
    var incidencies: seq<Incidency>

    constructor (id: nat)
      ensures this.id == id && incidencies == []
    {
      this.id, incidencies := id, [];
    }

    method AddIncidency(face: Option<FaceId>, gr: GlobalRouter)
      modifies this
      ensures incidencies == old(incidencies) + [Incidency(this, face, gr)]
    {
      incidencies := incidencies + [Incidency(this, face, gr)];
    }
  }

  type Routers = map<Vertex, GlobalRouter>

  ghost predicate Extends(m: Routers, m': Routers) {
    forall v :: v in m ==> v in m' && m'[v] == m[v]
  }

  ghost function Missing(g: Network, m: Routers): set<Vertex> {
    Vertices(g) - m.Keys
  }

  lemma MissingShrinks(g: Network, m: Routers, m': Routers)
    requires Extends(m, m')
    ensures Missing(g, m') <= Missing(g, m)
  {
  }

  ghost predicate Known(m: Routers, ends: seq<End>) {
    forall e :: e in ends ==> OfNode(e.node) in m
  }

  ghost function Edges(m: Routers, self: GlobalRouter, ends: seq<End>): (r: seq<Incidency>)
    requires Known(m, ends)
    ensures |r| == |ends|
    ensures forall i :: 0 <= i < |ends| ==> r[i] == Incidency(self, ends[i].face, m[OfNode(ends[i].node)])
  {
    seq(|ends|, i requires 0 <= i < |ends| => Incidency(self, ends[i].face, m[OfNode(ends[i].node)]))
  }

  lemma EdgesStay(m: Routers, m': Routers, self: GlobalRouter, ends: seq<End>)
    requires Known(m, ends) && Extends(m, m')
    ensures Known(m', ends) && Edges(m', self, ends) == Edges(m, self, ends)
  {
  }

  lemma EdgeAdded(m: Routers, m': Routers, self: GlobalRouter, ends: seq<End>, e: End)
    requires Known(m, ends) && Extends(m, m') && OfNode(e.node) in m'
    ensures Known(m', ends + [e])
    ensures Edges(m', self, ends + [e]) == Edges(m, self, ends) + [Incidency(self, e.face, m'[OfNode(e.node)])]
  {
  }

  /** A router whose edges are those of the ends so far. */
  ghost predicate Connected(m: Routers, self: GlobalRouter, incidencies: seq<Incidency>, ends: seq<End>) {
    Known(m, ends) && incidencies == Edges(m, self, ends)
  }

  /** A router of u with exactly the edges it must have, all neighbours of u having routers. */
  ghost predicate Complete(g: Network, m: Routers, self: GlobalRouter, incidencies: seq<Incidency>, u: Vertex)
    requires WellFormed(g)
  {
    && u in Vertices(g)
    && (forall v :: Adjacent(g, u, v) ==> v in m)
    && Connected(m, self, incidencies, VertexEnds(g, u))
  }

  /** A complete router has an edge for each end of its vertex and no other, to the router at that end. */
  lemma EdgesAreEnds(g: Network, m: Routers, self: GlobalRouter, incidencies: seq<Incidency>, u: Vertex,
                     face: Option<FaceId>, target: GlobalRouter)
    requires WellFormed(g) && Complete(g, m, self, incidencies, u)
    ensures Incidency(self, face, target) in incidencies <==>
            exists e :: e in VertexEnds(g, u) && OfNode(e.node) in m && e.face == face && m[OfNode(e.node)] == target
  {
    var ends := VertexEnds(g, u);
    hide WellFormed, VertexEnds;
    if Incidency(self, face, target) in incidencies {
      var i :| 0 <= i < |incidencies| && incidencies[i] == Incidency(self, face, target);
      assert ends[i] in ends;
    }
    if exists e :: e in ends && OfNode(e.node) in m && e.face == face && m[OfNode(e.node)] == target {
      var i :| 0 <= i < |ends| && OfNode(ends[i].node) in m && ends[i].face == face
          && m[OfNode(ends[i].node)] == target;
      assert incidencies[i] == Incidency(self, face, target);
    }
  }

  lemma CompleteStays(g: Network, m: Routers, m': Routers, self: GlobalRouter, incidencies: seq<Incidency>, u: Vertex)
    requires WellFormed(g) && Complete(g, m, self, incidencies, u) && Extends(m, m')
    ensures Complete(g, m', self, incidencies, u)
  {
    EdgesStay(m, m', self, VertexEnds(g, u));
  }

  lemma ConnectedStays(m: Routers, m': Routers, self: GlobalRouter, incidencies: seq<Incidency>, ends: seq<End>)
    requires Connected(m, self, incidencies, ends) && Extends(m, m')
    ensures Connected(m', self, incidencies, ends)
  {
    EdgesStay(m, m', self, ends);
  }

  type EdgeLists = map<Vertex, seq<Incidency>>

  /** Every router that m lacks is complete and reachable from u, apart from that of u itself. */
  ghost predicate GrownFrom(g: Network, m: Routers, u: Vertex, m': Routers, edges: EdgeLists)
    requires WellFormed(g)
  {
    && Extends(m, m') && edges.Keys == m'.Keys
    && forall v :: v in m' && v !in m && v != u ==> Complete(g, m', m'[v], edges[v], v) && Reaches(g, u, v)
  }

  /** The effect of installing at u. */
  ghost predicate Installed(g: Network, m: Routers, u: Vertex, m': Routers, edges: EdgeLists)
    requires WellFormed(g)
  {
    && u in m' && GrownFrom(g, m, u, m', edges)
    && (u in m ==> m' == m)
    && (u !in m ==> Complete(g, m', m'[u], edges[u], u))
  }

  lemma NeighbourInstalled(g: Network, m: Routers, u: Vertex, m1: Routers, edges1: EdgeLists, w: Vertex, m2: Routers,
                           edges2: EdgeLists)
    requires WellFormed(g) && u in m1 && GrownFrom(g, m, u, m1, edges1)
    requires Adjacent(g, u, w) && Installed(g, m1, w, m2, edges2)
    requires forall v :: v in edges1 ==> v in edges2 && edges2[v] == edges1[v]
    ensures GrownFrom(g, m, u, m2, edges2)
  {
    hide Complete, Adjacent, Reaches, WellFormed;
    forall v | v in m2 && v !in m && v != u
      ensures Complete(g, m2, m2[v], edges2[v], v) && Reaches(g, u, v)
    {
      if v in m1 {
        CompleteStays(g, m1, m2, m2[v], edges2[v], v);
      } else {
        ReachesSelf(g, w);
        ReachesVia(g, u, w, v);
      }
    }
  }

  /** The effect of installing at all nodes of ns. */
  ghost predicate InstalledAll(g: Network, m: Routers, ns: seq<NodeId>, m': Routers, edges: EdgeLists)
    requires WellFormed(g)
  {
    && Extends(m, m') && edges.Keys == m'.Keys
    && (forall n :: n in ns ==> OfNode(n) in m')
    && forall v :: v in m' && v !in m ==>
         Complete(g, m', m'[v], edges[v], v) && ReachedFrom(g, ns, v)
  }

  ghost predicate ReachedFrom(g: Network, ns: seq<NodeId>, v: Vertex)
    requires WellFormed(g)
  {
    exists n :: n in ns && Reaches(g, OfNode(n), v)
  }

  lemma NoNodes(g: Network, m: Routers, edges: EdgeLists)
    requires WellFormed(g) && edges.Keys == m.Keys
    ensures InstalledAll(g, m, [], m, edges)
  {
  }

  lemma ReachedFromMore(g: Network, ns: seq<NodeId>, n: NodeId, v: Vertex)
    requires WellFormed(g) && (ReachedFrom(g, ns, v) || Reaches(g, OfNode(n), v))
    ensures ReachedFrom(g, ns + [n], v)
  {
    if Reaches(g, OfNode(n), v) {
      assert n in ns + [n];
    } else {
      var k :| k in ns && Reaches(g, OfNode(k), v);
      assert k in ns + [n];
    }
  }

  lemma OneMoreNode(g: Network, m: Routers, ns: seq<NodeId>, m1: Routers, edges1: EdgeLists, n: NodeId, m2: Routers,
                    edges2: EdgeLists)
    requires WellFormed(g) && InstalledAll(g, m, ns, m1, edges1) && Installed(g, m1, OfNode(n), m2, edges2)
    requires forall v :: v in edges1 ==> v in edges2 && edges2[v] == edges1[v]
    ensures InstalledAll(g, m, ns + [n], m2, edges2)
  {
    hide Complete, Reaches, ReachedFrom, WellFormed;
    forall v | v in m2 && v !in m
      ensures Complete(g, m2, m2[v], edges2[v], v) && ReachedFrom(g, ns + [n], v)
    {
      if v in m1 {
        CompleteStays(g, m1, m2, m2[v], edges2[v], v);
      } else {
        ReachesSelf(g, v);
      }
      ReachedFromMore(g, ns, n, v);
    }
  }

  /**
   * Main result: starting from routers whose neighbours all have routers (none, say), installing at ns
   * gives a router to exactly those and to every vertex reachable from ns.
   */
  lemma InstalledIsReachable(g: Network, m: Routers, ns: seq<NodeId>, m': Routers, edges: EdgeLists)
    requires WellFormed(g) && InstalledAll(g, m, ns, m', edges) && Closed(g, m.Keys)
    ensures Closed(g, m'.Keys)
    ensures forall u :: u in m' <==> u in m || ReachedFrom(g, ns, u)
  {
    var from := set n | n in ns :: OfNode(n);
    forall u, v | u in m' && u !in m && Adjacent(g, u, v)
      ensures v in m'
    {
      assert Complete(g, m', m'[u], edges[u], u);
    }
    forall u | u in m' && u !in m
      ensures exists f :: f in from && Reaches(g, f, u)
    {
      var n :| n in ns && Reaches(g, OfNode(n), u);
      assert OfNode(n) in from;
    }
    hide Closed, Complete, Adjacent, Reaches;
    CompleteMeansReachable(g, m.Keys, m'.Keys, from);
    forall u
      ensures u in m' <==> u in m || ReachedFrom(g, ns, u)
    {
      if ReachedFrom(g, ns, u) {
        var n :| n in ns && Reaches(g, OfNode(n), u);
        assert OfNode(n) in from;
      }
    }
  }

  lemma OwnEdgeAdded(g: Network, m: Routers, u: Vertex, m': Routers, edges: EdgeLists, edges': EdgeLists)
    requires WellFormed(g) && GrownFrom(g, m, u, m', edges) && edges'.Keys == edges.Keys
    requires forall v :: v in edges && v != u ==> edges'[v] == edges[v]
    ensures GrownFrom(g, m, u, m', edges')
  {
  }

  lemma ExtendsTransitive(m: Routers, m1: Routers, m2: Routers)
    requires Extends(m, m1) && Extends(m1, m2)
    ensures Extends(m, m2)
  {
  }

  class GlobalRoutingHelper {
    const network: Network
    var routers: Routers
    var idCounter: nat

    ghost predicate Valid()
      reads this
    {
      && WellFormed(network)
      && routers.Keys <= Vertices(network)
      && (forall v :: v in routers ==> routers[v].id < idCounter)
      && (forall u, v :: u in routers && v in routers && u != v ==> routers[u].id != routers[v].id)
    }

    constructor (network: Network)
      requires WellFormed(network)
      ensures Valid() && this.network == network && routers == map[]
    {
      this.network, routers, idCounter := network, map[], 0;
    }

    /** The edges of every router. */
    ghost function Snapshot(): map<Vertex, seq<Incidency>>
      reads this, routers.Values
    {
      map v | v in routers :: routers[v].incidencies
    }

    /** gr is the router of u, and whatever else was added since m is complete. */
    ghost predicate Growing(m: Routers, u: Vertex, gr: GlobalRouter)
      reads this, routers.Values
    {
      Valid() && u in routers && routers[u] == gr && GrownFrom(network, m, u, routers, Snapshot())
    }

    method Aggregate(u: Vertex) returns (gr: GlobalRouter)
      requires Valid() && u in Vertices(network) && u !in routers
      modifies this
      ensures Growing(old(routers), u, gr) && fresh(gr) && gr.incidencies == []
      ensures Missing(network, routers) < old(Missing(network, routers))
    {
      assert u in Missing(network, routers);
      gr := new GlobalRouter(idCounter);
      idCounter := idCounter + 1;
      routers := routers[u := gr];
    }

    /** Installs what is at w unless it has a router already. */
    method InstallNeighbour(u: Vertex, gr: GlobalRouter, w: Vertex, ghost m: Routers)
      requires WellFormed(network) && Growing(m, u, gr) && Adjacent(network, u, w)
      modifies this
      ensures Growing(m, u, gr) && w in routers && Extends(old(routers), routers)
      ensures Missing(network, routers) <= old(Missing(network, routers))
      decreases Missing(network, routers), 1
    {
      hide Adjacent, Missing, WellFormed, Complete, Reaches;
      if w in routers {
        return;
      }
      AdjacentIsVertex(network, u, w);
      VertexKind(network, w);
      hide Vertices;
      match w {
        case OfNode(n) => InstallNode(n);
        case OfChannel(c) => InstallChannel(c);
      }
      NeighbourInstalled(network, m, u, old(routers), old(Snapshot()), w, routers, Snapshot());
      MissingShrinks(network, old(routers), routers);
    }

    /** Adds the edge from the router of u to that of node e.node, installing the latter first if needed. */
    method Connect(u: Vertex, gr: GlobalRouter, e: End, ghost ends: seq<End>, ghost m: Routers)
      requires WellFormed(network) && Growing(m, u, gr) && Adjacent(network, u, OfNode(e.node))
      requires Connected(routers, gr, gr.incidencies, ends)
      modifies this, gr
      ensures Growing(m, u, gr) && Extends(old(routers), routers) && Connected(routers, gr, gr.incidencies, ends + [e])
      ensures Missing(network, routers) <= old(Missing(network, routers))
      decreases Missing(network, routers), 2
    {
      hide Adjacent, Reaches, Complete, Vertices, WellFormed, Missing, Extends;
      InstallNeighbour(u, gr, OfNode(e.node), m);
      EdgeAdded(old(routers), routers, gr, ends, e);
      hide Known;
      ghost var edges := Snapshot();
      gr.AddIncidency(e.face, routers[OfNode(e.node)]);
      OwnEdgeAdded(network, m, u, routers, edges, Snapshot());
    }

    // ---- Lines 66-132 ----

    method InstallNode(n: NodeId)
      requires Valid() && n in network.faces
      modifies this
      ensures Valid() && Installed(network, old(routers), OfNode(n), routers, Snapshot())
      decreases Missing(network, routers), 0
    {
      AlreadyInstalled(OfNode(n));
      NodeIsVertex(network, n);
      hide Growing, Installed, GrownFrom, Adjacent, Complete, FacesConnected, Missing, WellFormed, Vertices;
      var u := OfNode(n);
      if u in routers {
        return;
      }
      var gr := Aggregate(u);
      var fs := network.faces[n];
      NoFaces(network, routers, gr);
      assert fs[..0] == [];
      var i := 0;
      while i < |fs|
        invariant 0 <= i <= |fs| && Growing(old(routers), u, gr)
        invariant FacesConnected(network, routers, gr, gr.incidencies, fs[..i])
        invariant Missing(network, routers) < old(Missing(network, routers))
      {
        InstallFace(gr, n, i, old(routers));
        i := i + 1;
      }
      assert fs[..|fs|] == fs;
      AllFaces(network, routers, gr, gr.incidencies, n);
      GrownIsInstalled(old(routers), u, gr);
    }

    /** One iteration of the loop over the faces of node n. */
    method InstallFace(gr: GlobalRouter, n: NodeId, i: nat, ghost m: Routers)
      requires WellFormed(network) && Growing(m, OfNode(n), gr) && n in network.faces && i < |network.faces[n]|
      requires FacesConnected(network, routers, gr, gr.incidencies, network.faces[n][..i])
      modifies this, gr
      ensures Growing(m, OfNode(n), gr)
              && FacesConnected(network, routers, gr, gr.incidencies, network.faces[n][..i + 1])
      ensures Missing(network, routers) <= old(Missing(network, routers))
      decreases Missing(network, routers), 5
    {
      ghost var before, front := routers, network.faces[n][..i];
      var u, f := OfNode(n), network.faces[n][i];
      assert network.faces[n][..i + 1] == front + [f];
      FaceFacts(network, n, i);
      hide Adjacent, Growing, WellFormed, NodeEnds, FaceEnds, FacesLeadTo, Missing, Connected, Extends;
      if f.transport.Other? {
        SkipFace(network, routers, gr, gr.incidencies, front, f);
        return;
      }
      if f.transport.device.None? {
        SkipFace(network, routers, gr, gr.incidencies, front, f);
        return;
      }
      var nd := f.transport.device.value;
      var ch := network.devices[nd].channel;
      if ch.None? {
        SkipFace(network, routers, gr, gr.incidencies, front, f);
        return;
      }
      var ds := network.channels[ch.value];
      if |ds| == 2 {
        InstallPeer(gr, n, i, nd, ds, m);
      } else {
        InstallNeighbour(u, gr, OfChannel(ch.value), m);
        SharedFace(network, before, routers, gr, gr.incidencies, front, f);
      }
      OneMoreFace(network, before, routers, gr, gr.incidencies, front, f);
    }

    /** Face i of node n, on a channel of the two devices ds. */
    method InstallPeer(gr: GlobalRouter, n: NodeId, i: nat, nd: DeviceId, ds: seq<DeviceId>, ghost m: Routers)
      requires WellFormed(network) && Growing(m, OfNode(n), gr) && n in network.faces && i < |network.faces[n]|
      requires var f := network.faces[n][i];
               && ChannelOf(network, f).Some? && nd == f.transport.device.value
                    && ds == network.channels[ChannelOf(network, f).value]
               && |ds| == 2
      requires Connected(routers, gr, gr.incidencies, NodeEnds(network, network.faces[n][..i]))
      modifies this, gr
      ensures Growing(m, OfNode(n), gr) && Extends(old(routers), routers)
      ensures Connected(routers, gr, gr.incidencies,
                        NodeEnds(network, network.faces[n][..i]) + FaceEnds(network, network.faces[n][i]))
      ensures Missing(network, routers) <= old(Missing(network, routers))
      decreases Missing(network, routers), 4
    {
      var u, f := OfNode(n), network.faces[n][i];
      PeersAreAdjacent(network, n, i);
      assert FaceEnds(network, f) == OtherEnds(network, f.id, ds, nd);
      hide Adjacent, Growing, WellFormed, Missing, NodeEnds, Connected, OtherEnds, Extends, FaceEnds, ChannelOf;
      ConnectOthers(u, gr, f.id, nd, ds, NodeEnds(network, network.faces[n][..i]), m);
    }

    /** The loop over the devices of the channel. */
    method ConnectOthers(u: Vertex, gr: GlobalRouter, face: FaceId, nd: DeviceId, ds: seq<DeviceId>,
                         ghost ends: seq<End>, ghost m: Routers)
      requires WellFormed(network) && Growing(m, u, gr) && Connected(routers, gr, gr.incidencies, ends)
      requires forall d :: d in ds ==>
                 d in network.devices && (d != nd ==> Adjacent(network, u, OfNode(network.devices[d].node)))
      modifies this, gr
      ensures Growing(m, u, gr) && Extends(old(routers), routers)
      ensures Connected(routers, gr, gr.incidencies, ends + OtherEnds(network, face, ds, nd))
      ensures Missing(network, routers) <= old(Missing(network, routers))
      decreases Missing(network, routers), 3
    {
      ExtendsSelf(routers);
      hide Adjacent, Growing, WellFormed, Missing, Connected, OtherEnds, Extends;
      OtherEndsStep(network, face, ds, nd, ends);
      assert ds[..0] == [];
      var k := 0;
      while k < |ds|
        invariant 0 <= k <= |ds| && Growing(m, u, gr) && Extends(old(routers), routers)
        invariant Connected(routers, gr, gr.incidencies, ends + OtherEnds(network, face, ds[..k], nd))
        invariant Missing(network, routers) <= old(Missing(network, routers))
      {
        if ds[k] != nd {
          ghost var before := routers;
          Connect(u, gr, End(Some(face), network.devices[ds[k]].node), ends + OtherEnds(network, face, ds[..k], nd), m);
          ExtendsTransitive(old(routers), before, routers);
        }
        k := k + 1;
      }
      assert ds[..|ds|] == ds;
    }

    // ---- Lines 134-161 ----

    method InstallChannel(c: ChannelId)
      requires Valid() && c in network.channels
      modifies this
      ensures Valid() && Installed(network, old(routers), OfChannel(c), routers, Snapshot())
      decreases Missing(network, routers), 0
    {
      AlreadyInstalled(OfChannel(c));
      ChannelIsVertex(network, c);
      ChannelEnds(network, c);
      hide Growing, Installed, GrownFrom, Adjacent, Complete, Connected, VertexEnds, Missing, WellFormed, Vertices,
          Extends;
      var u := OfChannel(c);
      if u in routers {
        return;
      }
      var gr := Aggregate(u);
      var ds := network.channels[c];
      ghost var ends := VertexEnds(network, u);
      NoEnds(routers, gr);
      var i := 0;
      while i < |ds|
        invariant 0 <= i <= |ds| && Growing(old(routers), u, gr)
        invariant Connected(routers, gr, gr.incidencies, ends[..i])
        invariant Missing(network, routers) < old(Missing(network, routers))
      {
        Connect(u, gr, End(None, network.devices[ds[i]].node), ends[..i], old(routers));
        i := i + 1;
      }
      AllDevices(network, routers, gr, gr.incidencies, c);
      GrownIsInstalled(old(routers), u, gr);
    }

    // ---- Lines 163-169 ----

    method Install(ns: seq<NodeId>)
      requires Valid() && forall n :: n in ns ==> n in network.faces
      modifies this
      ensures Valid() && InstalledAll(network, old(routers), ns, routers, Snapshot())
    {
      NoNodes(network, routers, Snapshot());
      assert WellFormed(network) && ns[..0] == [];
      hide WellFormed, InstalledAll, Valid;
      var i := 0;
      while i < |ns|
        invariant 0 <= i <= |ns| && Valid() && InstalledAll(network, old(routers), ns[..i], routers, Snapshot())
      {
        InstallNext(ns, i, old(routers));
        i := i + 1;
      }
      assert ns[..|ns|] == ns;
    }

    /** One iteration of the loop over the nodes ns. */
    method InstallNext(ns: seq<NodeId>, i: nat, ghost m: Routers)
      requires Valid() && i < |ns| && ns[i] in network.faces && InstalledAll(network, m, ns[..i], routers, Snapshot())
      modifies this
      ensures Valid() && InstalledAll(network, m, ns[..i + 1], routers, Snapshot())
    {
      hide WellFormed, InstalledAll, Complete, Reaches;
      InstallNode(ns[i]);
      OneMoreNode(network, m, ns[..i], old(routers), old(Snapshot()), ns[i], routers, Snapshot());
      assert ns[..i + 1] == ns[..i] + [ns[i]];
    }

    lemma AlreadyInstalled(u: Vertex)
      requires Valid()
      ensures u in routers ==> Installed(network, routers, u, routers, Snapshot())
    {
    }

    lemma GrownIsInstalled(m: Routers, u: Vertex, gr: GlobalRouter)
      requires WellFormed(network) && Growing(m, u, gr) && u !in m
      requires Complete(network, routers, gr, gr.incidencies, u)
      ensures Valid() && Installed(network, m, u, routers, Snapshot())
    {
    }
  }

  lemma NodeIsVertex(g: Network, n: NodeId)
    requires n in g.faces
    ensures OfNode(n) in Vertices(g)
  {
  }

  lemma ChannelIsVertex(g: Network, c: ChannelId)
    requires c in g.channels
    ensures OfChannel(c) in Vertices(g)
  {
  }

  lemma ExtendsSelf(m: Routers)
    ensures Extends(m, m)
  {
  }

  lemma OtherEndsStep(g: Network, face: FaceId, ds: seq<DeviceId>, nd: DeviceId, ends: seq<End>)
    requires forall d :: d in ds ==> d in g.devices
    ensures ends + OtherEnds(g, face, [], nd) == ends
    ensures forall k :: 0 <= k < |ds| ==>
              ends + OtherEnds(g, face, ds[..k + 1], nd) ==
              if ds[k] == nd then ends + OtherEnds(g, face, ds[..k], nd)
              else ends + OtherEnds(g, face, ds[..k], nd) + [End(Some(face), g.devices[ds[k]].node)]
  {
    forall k | 0 <= k < |ds|
      ensures ends + OtherEnds(g, face, ds[..k + 1], nd) ==
              if ds[k] == nd then ends + OtherEnds(g, face, ds[..k], nd)
              else ends + OtherEnds(g, face, ds[..k], nd) + [End(Some(face), g.devices[ds[k]].node)]
    {
      assert ds[..k + 1][..k] == ds[..k];
    }
  }

  lemma SharedFace(g: Network, m: Routers, m': Routers, self: GlobalRouter, incidencies: seq<Incidency>,
                   front: seq<Face>, f: Face)
    requires WellFormed(g) && FacesConnected(g, m, self, incidencies, front) && Extends(m, m')
    requires ChannelOf(g, f).Some? && |g.channels[ChannelOf(g, f).value]| != 2
    ensures Connected(m', self, incidencies, NodeEnds(g, front) + FaceEnds(g, f))
  {
    ConnectedStays(m, m', self, incidencies, NodeEnds(g, front));
    assert NodeEnds(g, front) + FaceEnds(g, f) == NodeEnds(g, front);
  }

  lemma ChannelEnds(g: Network, c: ChannelId)
    requires WellFormed(g) && c in g.channels
    ensures var ds, ends := g.channels[c], VertexEnds(g, OfChannel(c));
            && |ends| == |ds| && ends[..0] == [] && ends[..|ds|] == ends
            && forall i :: 0 <= i < |ds| ==>
                 && ds[i] in g.devices && Adjacent(g, OfChannel(c), OfNode(g.devices[ds[i]].node))
                 && ends[..i + 1] == ends[..i] + [End(None, g.devices[ds[i]].node)]
  {
  }

  lemma FaceFacts(g: Network, n: NodeId, i: nat)
    requires WellFormed(g) && n in g.faces && i < |g.faces[n]|
    ensures var f := g.faces[n][i];
            && (f.transport.NetDevice? && f.transport.device.Some? ==>
                  f.transport.device.value in g.devices
                      && ChannelOf(g, f) == g.devices[f.transport.device.value].channel)
            && (ChannelOf(g, f).Some? && |g.channels[ChannelOf(g, f).value]| != 2 ==>
                  Adjacent(g, OfNode(n), OfChannel(ChannelOf(g, f).value)))
  {
    var f := g.faces[n][i];
    if ChannelOf(g, f).Some? && |g.channels[ChannelOf(g, f).value]| != 2 {
      assert FaceLeadsTo(g, g.faces[n][i], OfChannel(ChannelOf(g, f).value));
    }
  }

  lemma PeersAreAdjacent(g: Network, n: NodeId, i: nat)
    requires WellFormed(g) && n in g.faces && i < |g.faces[n]|
    ensures var f := g.faces[n][i];
            ChannelOf(g, f).Some? && |g.channels[ChannelOf(g, f).value]| == 2 ==>
              forall d :: d in g.channels[ChannelOf(g, f).value] ==>
                d in g.devices && (d != f.transport.device.value ==> Adjacent(g, OfNode(n), OfNode(g.devices[d].node)))
  {
    var f := g.faces[n][i];
    if ChannelOf(g, f).Some? && |g.channels[ChannelOf(g, f).value]| == 2 {
      var ds := g.channels[ChannelOf(g, f).value];
      forall d | d in ds && d != f.transport.device.value
        ensures Adjacent(g, OfNode(n), OfNode(g.devices[d].node))
      {
        OtherEndsAre(g, f.id, ds, f.transport.device.value, End(Some(f.id), g.devices[d].node));
        assert FaceLeadsTo(g, g.faces[n][i], OfNode(g.devices[d].node));
      }
    }
  }

  lemma SkipFace(g: Network, m: Routers, self: GlobalRouter, incidencies: seq<Incidency>, front: seq<Face>, f: Face)
    requires WellFormed(g) && FacesConnected(g, m, self, incidencies, front) && ChannelOf(g, f).None?
    ensures FacesConnected(g, m, self, incidencies, front + [f])
  {
    assert NodeEnds(g, front) + FaceEnds(g, f) == NodeEnds(g, front);
    OneMoreFace(g, m, m, self, incidencies, front, f);
  }

  lemma OneMoreFace(g: Network, m: Routers, m': Routers, self: GlobalRouter, incidencies: seq<Incidency>,
                    front: seq<Face>, f: Face)
    requires WellFormed(g) && Extends(m, m') && Connected(m', self, incidencies, NodeEnds(g, front) + FaceEnds(g, f))
    requires forall v :: FacesLeadTo(g, front, v) ==> v in m
    requires ChannelOf(g, f).Some? && |g.channels[ChannelOf(g, f).value]| != 2 ==>
            OfChannel(ChannelOf(g, f).value) in m'
    ensures FacesConnected(g, m', self, incidencies, front + [f])
  {
    var fs := front + [f];
    assert fs[..|fs| - 1] == front;
    forall v | FacesLeadTo(g, fs, v)
      ensures v in m'
    {
      var i :| 0 <= i < |fs| && FaceLeadsTo(g, fs[i], v);
      if i < |front| {
        assert FaceLeadsTo(g, front[i], v);
      }
    }
  }

  lemma VertexKind(g: Network, w: Vertex)
    requires w in Vertices(g)
    ensures if w.OfNode? then w.node in g.faces else w.channel in g.channels
  {
  }

  /** The router of a node after the faces fs. */
  ghost predicate FacesConnected(g: Network, m: Routers, self: GlobalRouter, incidencies: seq<Incidency>, fs: seq<Face>)
    requires WellFormed(g)
  {
    Connected(m, self, incidencies, NodeEnds(g, fs)) && forall v :: FacesLeadTo(g, fs, v) ==> v in m
  }

  lemma NoEnds(m: Routers, self: GlobalRouter)
    ensures Connected(m, self, [], [])
  {
  }

  lemma NoFaces(g: Network, m: Routers, self: GlobalRouter)
    requires WellFormed(g)
    ensures FacesConnected(g, m, self, [], [])
  {
  }

  lemma AllFaces(g: Network, m: Routers, self: GlobalRouter, incidencies: seq<Incidency>, n: NodeId)
    requires WellFormed(g) && n in g.faces && FacesConnected(g, m, self, incidencies, g.faces[n])
    ensures Complete(g, m, self, incidencies, OfNode(n))
  {
  }

  lemma AllDevices(g: Network, m: Routers, self: GlobalRouter, incidencies: seq<Incidency>, c: ChannelId)
    requires WellFormed(g) && c in g.channels && Connected(m, self, incidencies, VertexEnds(g, OfChannel(c)))
    ensures Complete(g, m, self, incidencies, OfChannel(c))
  {
    var ds := g.channels[c];
    forall v | Adjacent(g, OfChannel(c), v)
      ensures v in m
    {
      var k :| 0 <= k < |ds| && ds[k] in g.devices && v == OfNode(g.devices[ds[k]].node);
      assert DeviceEnds(g, ds)[k] in DeviceEnds(g, ds);
    }
  }
}
