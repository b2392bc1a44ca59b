/**
 Nodes, devices and channels of a simulation, and which routers become neighbours (helper/ndn-global-routing-
 helper.cpp).
 */
module Topology {
  import opened Wrappers

  type NodeId = nat
  type DeviceId = nat
  type ChannelId = nat
  type FaceId = nat

  // Only faces of a NetDeviceTransport name a device, and even those may name none.
  datatype Transport = Other | NetDevice(device: Option<DeviceId>)

  datatype Face = Face(id: FaceId, transport: Transport)

  datatype Device = Device(node: NodeId, channel: Option<ChannelId>)

  datatype Network = Network(faces: map<NodeId, seq<Face>>, devices: map<DeviceId, Device>,
                             channels: map<ChannelId, seq<DeviceId>>)

  /** What a GlobalRouter is aggregated to. */
  datatype Vertex = OfNode(node: NodeId) | OfChannel(channel: ChannelId)

  /** Every node runs NDN, every device has a node: what NS_ASSERT asks for. */
  ghost predicate WellFormed(g: Network) {
    && (forall n, f :: n in g.faces && f in g.faces[n] && f.transport.NetDevice? && f.transport.device.Some? ==>
        f.transport.device.value in g.devices)
    && (forall d :: d in g.devices ==> g.devices[d].node in g.faces)
    && (forall d :: d in g.devices && g.devices[d].channel.Some? ==> g.devices[d].channel.value in g.channels)
    && (forall c, d :: c in g.channels && d in g.channels[c] ==> d in g.devices)
  }

  function Vertices(g: Network): set<Vertex> {
    (set n | n in g.faces :: OfNode(n)) + (set c | c in g.channels :: OfChannel(c))
  }

  /** The channel a face sends on. */
  function ChannelOf(g: Network, f: Face): (c: Option<ChannelId>)
    ensures c.Some? ==> f.transport.NetDevice? && f.transport.device.Some? && c.value in g.channels
  {
    if f.transport.Other? || f.transport.device.None? || f.transport.device.value !in g.devices then None
    else
      var c := g.devices[f.transport.device.value].channel;
      if c.Some? && c.value in g.channels then c else None
  }

  /** Where an edge goes; the edges of a channel's router have no face. */
  datatype End = End(face: Option<FaceId>, node: NodeId)

  /** The ends at the devices ds, leaving out the device nd. */
  function OtherEnds(g: Network, face: FaceId, ds: seq<DeviceId>, nd: DeviceId): seq<End>
    requires forall d :: d in ds ==> d in g.devices
  {
    if ds == [] then []
    else
      var rest := OtherEnds(g, face, ds[..|ds| - 1], nd);
      var d := ds[|ds| - 1];
      if d == nd then rest else rest + [End(Some(face), g.devices[d].node)]
  }

  /** A face has an end only on a channel of two devices. */
  function FaceEnds(g: Network, f: Face): seq<End>
    requires WellFormed(g)
  {
    var c := ChannelOf(g, f);
    if c.Some? && |g.channels[c.value]| == 2 then OtherEnds(g, f.id, g.channels[c.value], f.transport.device.value)
        else []
  }

  function NodeEnds(g: Network, fs: seq<Face>): seq<End>
    requires WellFormed(g)
  {
    if fs == [] then [] else NodeEnds(g, fs[..|fs| - 1]) + FaceEnds(g, fs[|fs| - 1])
  }

  function DeviceEnds(g: Network, ds: seq<DeviceId>): (es: seq<End>)
    requires forall d :: d in ds ==> d in g.devices
    ensures |es| == |ds| && forall i :: 0 <= i < |ds| ==> es[i] == End(None, g.devices[ds[i]].node)
  {
    seq(|ds|, i requires 0 <= i < |ds| => End(None, g.devices[ds[i]].node))
  }

  /** All edges the router of u must have, in order. */
  function VertexEnds(g: Network, u: Vertex): seq<End>
    requires WellFormed(g) && u in Vertices(g)
  {
    match u
    case OfNode(n) => NodeEnds(g, g.faces[n])
    case OfChannel(c) => DeviceEnds(g, g.channels[c])
  }

  ghost predicate FaceLeadsTo(g: Network, f: Face, v: Vertex)
    requires WellFormed(g)
  {
    var c := ChannelOf(g, f);
    c.Some? && if |g.channels[c.value]| == 2 then v.OfNode? && End(Some(f.id), v.node) in FaceEnds(g, f)
        else v == OfChannel(c.value)
  }

  ghost predicate FacesLeadTo(g: Network, fs: seq<Face>, v: Vertex)
    requires WellFormed(g)
  {
    exists i :: 0 <= i < |fs| && FaceLeadsTo(g, fs[i], v)
  }

  ghost predicate DevicesLeadTo(g: Network, ds: seq<DeviceId>, v: Vertex) {
    exists i :: 0 <= i < |ds| && ds[i] in g.devices && v == OfNode(g.devices[ds[i]].node)
  }

  /** v is a neighbour of u. */
  ghost predicate Adjacent(g: Network, u: Vertex, v: Vertex)
    requires WellFormed(g)
  {
    match u
    case OfNode(n) => n in g.faces && FacesLeadTo(g, g.faces[n], v)
    case OfChannel(c) => c in g.channels && DevicesLeadTo(g, g.channels[c], v)
  }

  lemma AdjacentIsVertex(g: Network, u: Vertex, v: Vertex)
    requires WellFormed(g) && Adjacent(g, u, v)
    ensures v in Vertices(g)
  {
    if u.OfNode? {
      var fs := g.faces[u.node];
      var i :| 0 <= i < |fs| && FaceLeadsTo(g, fs[i], v);
      if v.OfNode? {
        OtherEndsAre(g, fs[i].id, g.channels[ChannelOf(g, fs[i]).value], fs[i].transport.device.value,
                     End(Some(fs[i].id), v.node));
      }
    }
  }

  lemma {:induction false} OtherEndsAre(g: Network, face: FaceId, ds: seq<DeviceId>, nd: DeviceId, e: End)
    requires forall d :: d in ds ==> d in g.devices
    ensures e in OtherEnds(g, face, ds, nd) <==>
            exists d :: d in ds && d != nd && e == End(Some(face), g.devices[d].node)
  {
    if ds != [] {
      OtherEndsAre(g, face, ds[..|ds| - 1], nd, e);
      var last := ds[|ds| - 1];
      assert forall d :: d in ds <==> d in ds[..|ds| - 1] || d == last;
    }
  }

  /** A face on a channel of two devices, one of them its own, has exactly one end: the node of the other. */
  lemma OneOtherEnd(g: Network, f: Face, other: DeviceId)
    requires WellFormed(g) && ChannelOf(g, f).Some?
    requires var nd := f.transport.device.value;
             other != nd && (g.channels[ChannelOf(g, f).value] == [nd, other]
                             || g.channels[ChannelOf(g, f).value] == [other, nd])
    ensures FaceEnds(g, f) == [End(Some(f.id), g.devices[other].node)]
  {
    var nd := f.transport.device.value;
    var ds := g.channels[ChannelOf(g, f).value];
    assert ds[..1] == [ds[0]] && ds[..1][..0] == [];
    assert OtherEnds(g, f.id, ds[..1][..0], nd) == [];
    assert OtherEnds(g, f.id, ds[..1], nd) == if ds[0] == nd then [] else [End(Some(f.id), g.devices[ds[0]].node)];
  }

  // ---- Edges and neighbours in terms of the network itself ----

  /** f is a face of node n, on device d of channel c. */
  ghost predicate FaceOn(g: Network, n: NodeId, f: Face, d: DeviceId, c: ChannelId) {
    && n in g.faces && f in g.faces[n] && f.transport == NetDevice(Some(d))
    && d in g.devices && g.devices[d].channel == Some(c) && c in g.channels
  }

  lemma ChannelOfFace(g: Network, n: NodeId, f: Face, d: DeviceId, c: ChannelId)
    requires n in g.faces && f in g.faces[n]
    ensures FaceOn(g, n, f, d, c) <==> ChannelOf(g, f) == Some(c) && f.transport.device == Some(d)
  {
  }

  lemma {:induction false} NodeEndsByFace(g: Network, fs: seq<Face>, e: End)
    requires WellFormed(g)
    ensures e in NodeEnds(g, fs) <==> exists f :: f in fs && e in FaceEnds(g, f)
  {
    hide WellFormed, FaceEnds;
    if fs != [] {
      NodeEndsByFace(g, fs[..|fs| - 1], e);
      var last := fs[|fs| - 1];
      assert forall f :: f in fs <==> f in fs[..|fs| - 1] || f == last;
    }
  }

  /** e is the end of a face of n on a channel of exactly two devices: the node of the other device. */
  ghost predicate IsPeer(g: Network, n: NodeId, e: End) {
    exists f, d, c, o :: FaceOn(g, n, f, d, c) && PeerOn(g, f, d, c, o, e)
  }

  ghost predicate PeerOn(g: Network, f: Face, d: DeviceId, c: ChannelId, o: DeviceId, e: End) {
    && c in g.channels && |g.channels[c]| == 2 && o in g.channels[c] && o != d
    && o in g.devices && e == End(Some(f.id), g.devices[o].node)
  }

  lemma FaceEndsAre(g: Network, n: NodeId, f: Face, e: End)
    requires WellFormed(g) && n in g.faces && f in g.faces[n]
    ensures e in FaceEnds(g, f) <==> exists d, c, o :: FaceOn(g, n, f, d, c) && PeerOn(g, f, d, c, o, e)
  {
    var c := ChannelOf(g, f);
    if c.Some? {
      var nd := f.transport.device.value;
      assert forall d :: d in g.channels[c.value] ==> d in g.devices;
      OtherEndsAre(g, f.id, g.channels[c.value], nd, e);
      ChannelOfFace(g, n, f, nd, c.value);
      if e in FaceEnds(g, f) {
        var o :| o in g.channels[c.value] && o != nd && e == End(Some(f.id), g.devices[o].node);
        assert PeerOn(g, f, nd, c.value, o, e);
      }
    }
    hide OtherEnds, WellFormed;
  }

  /**
   The edges of a node's router, read off the network: one for each face on a channel of exactly two devices,
       to the node
   of the other device. Those of a channel's router go to the nodes of its devices and have no face.
   */
  lemma EdgesReadOff(g: Network, u: Vertex, e: End)
    requires WellFormed(g) && u in Vertices(g)
    ensures e in VertexEnds(g, u) <==>
            match u
            case OfNode(n) => IsPeer(g, n, e)
            case OfChannel(c) => exists d :: d in g.channels[c] && d in g.devices && e == End(None, g.devices[d].node)
  {
    match u
    case OfNode(n) =>
      NodeEndsByFace(g, g.faces[n], e);
      hide WellFormed, FaceEnds, NodeEnds, PeerOn;
      forall f | f in g.faces[n]
        ensures e in FaceEnds(g, f) <==> exists d, c, o :: FaceOn(g, n, f, d, c) && PeerOn(g, f, d, c, o, e)
      {
        FaceEndsAre(g, n, f, e);
      }
    case OfChannel(c) =>
      var ds := g.channels[c];
      assert forall i :: 0 <= i < |ds| ==> DeviceEnds(g, ds)[i] == End(None, g.devices[ds[i]].node);
  }

  /** The neighbours: over a channel of two devices the other node, over any other channel the channel itself. */
  lemma NeighboursReadOff(g: Network, n: NodeId, v: Vertex)
    requires WellFormed(g)
    ensures Adjacent(g, OfNode(n), v) <==>
            exists f, d, c ::
              FaceOn(g, n, f, d, c) &&
              if |g.channels[c]| == 2 then exists o :: v.OfNode? && PeerOn(g, f, d, c, o, End(Some(f.id), v.node))
              else v == OfChannel(c)
  {
    if n in g.faces {
      forall f | f in g.faces[n]
        ensures FaceLeadsTo(g, f, v) <==>
                exists d, c ::
                  FaceOn(g, n, f, d, c) &&
                  if |g.channels[c]| == 2 then exists o :: v.OfNode? && PeerOn(g, f, d, c, o, End(Some(f.id), v.node))
                  else v == OfChannel(c)
      {
        FaceReadOff(g, n, f, v);
      }
    }
    hide FaceLeadsTo, WellFormed, PeerOn;
  }

  lemma FaceReadOff(g: Network, n: NodeId, f: Face, v: Vertex)
    requires WellFormed(g) && n in g.faces && f in g.faces[n]
    ensures FaceLeadsTo(g, f, v) <==>
            exists d, c ::
              FaceOn(g, n, f, d, c) &&
              if |g.channels[c]| == 2 then exists o :: v.OfNode? && PeerOn(g, f, d, c, o, End(Some(f.id), v.node))
              else v == OfChannel(c)
  {
    if v.OfNode? {
      FaceEndsAre(g, n, f, End(Some(f.id), v.node));
    }
    var c := ChannelOf(g, f);
    if c.Some? {
      ChannelOfFace(g, n, f, f.transport.device.value, c.value);
    }
    hide FaceEnds, WellFormed, PeerOn;
  }

  // ---- Reachability ----

  ghost predicate IsPath(g: Network, p: seq<Vertex>)
    requires WellFormed(g)
  {
    |p| > 0 && forall i :: 0 <= i < |p| - 1 ==> Adjacent(g, p[i], p[i + 1])
  }

  ghost predicate PathFromTo(g: Network, p: seq<Vertex>, u: Vertex, v: Vertex)
    requires WellFormed(g)
  {
    IsPath(g, p) && p[0] == u && p[|p| - 1] == v
  }

  ghost predicate Reaches(g: Network, u: Vertex, v: Vertex)
    requires WellFormed(g)
  {
    exists p :: PathFromTo(g, p, u, v)
  }

  lemma ReachesSelf(g: Network, u: Vertex)
    requires WellFormed(g)
    ensures Reaches(g, u, u)
  {
    assert PathFromTo(g, [u], u, u);
  }

  lemma ReachesVia(g: Network, u: Vertex, v: Vertex, w: Vertex)
    requires WellFormed(g) && Adjacent(g, u, v) && Reaches(g, v, w)
    ensures Reaches(g, u, w)
  {
    var p :| PathFromTo(g, p, v, w);
    var q := [u] + p;
    forall i | 0 <= i < |q| - 1
      ensures Adjacent(g, q[i], q[i + 1])
    {
      assert i > 0 ==> q[i] == p[i - 1] && q[i + 1] == p[i];
    }
    assert PathFromTo(g, q, u, w);
  }

  ghost predicate Closed(g: Network, s: set<Vertex>)
    requires WellFormed(g)
  {
    forall u, v :: u in s && Adjacent(g, u, v) ==> v in s
  }

  lemma {:induction false} PathStaysInside(g: Network, s: set<Vertex>, p: seq<Vertex>)
    requires WellFormed(g) && Closed(g, s) && IsPath(g, p) && p[0] in s
    ensures p[|p| - 1] in s
  {
    if |p| > 1 {
      var q := p[..|p| - 1];
      forall i | 0 <= i < |q| - 1
        ensures Adjacent(g, q[i], q[i + 1])
      {
        assert Adjacent(g, p[i], p[i + 1]);
      }
      PathStaysInside(g, s, q);
      assert Adjacent(g, p[|p| - 2], p[|p| - 1]);
    }
  }

  /** A depth-first search that completed every new vertex has found exactly what is reachable. */
  lemma CompleteMeansReachable(g: Network, before: set<Vertex>, after: set<Vertex>, from: set<Vertex>)
    requires WellFormed(g) && Closed(g, before) && before <= after && from <= after
    requires forall u, v :: u in after && u !in before && Adjacent(g, u, v) ==> v in after
    requires forall u :: u in after && u !in before ==> exists f :: f in from && Reaches(g, f, u)
    ensures Closed(g, after)
    ensures forall u :: u in after <==> u in before || exists f :: f in from && Reaches(g, f, u)
  {
    forall f, u | f in from && Reaches(g, f, u)
      ensures u in after
    {
      var p :| PathFromTo(g, p, f, u);
      PathStaysInside(g, after, p);
    }
  }
}
