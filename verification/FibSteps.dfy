/** Every update that does not crash has a step, so runs go on until one does. */
module FibSteps {
  import opened Lists
  import opened Wrappers
  import opened Routes
  import opened RibTree
  import opened FibDeltas
  import opened EntryUpdates
  import opened FibRefinement

  // ---- The pointers ----

  ghost function Listed(s: set<Name>): (l: seq<Name>)
    ensures NoDuplicates(l) && forall x :: x in l <==> x in s
  {
    if s == {} then []
    else
      var x :| x in s;
      [x] + Listed(s - {x})
  }

  ghost function ChildrenOf(names: set<Name>, n: Name): set<Name> {
    set c | c in names && ParentOf(names, c) == Some(n)
  }

  /** The entries of V with pointers that follow the prefix order. */
  ghost function Hanging(V: RibView): RibView {
    map n | n in V :: V[n].(parent := ParentOf(V.Keys, n), children := Listed(ChildrenOf(V.Keys, n)))
  }

  lemma HangingIsTree(V: RibView)
    ensures TreeOk(Hanging(V)) && Hanging(V).Keys == V.Keys
  {
    var H := Hanging(V);
    assert H.Keys == V.Keys;
    forall m, c | m in H
      ensures LinkedAt(H, m, c)
    {
      assert H[m].children == Listed(ChildrenOf(V.Keys, m));
    }
  }

  // ---- The faces an update can touch ----

  ghost function Faces(rib: RibView, u: RibUpdate): set<FaceId> {
    (set n, i | n in rib && 0 <= i < |rib[n].routes| :: rib[n].routes[i].faceId)
    + (set n, f | n in rib && f in rib[n].inherited :: f)
    + {u.route.faceId}
  }

  lemma {:induction false} FirstInheritIsThere(rs: seq<Route>, f: FaceId)
    ensures FirstInherit(rs, f).Some? ==> HasFaceId(rs, f)
  {
    if |rs| > 0 {
      var k := |rs| - 1;
      FirstInheritIsThere(rs[..k], f);
      if HasFaceId(rs[..k], f) {
        var i :| 0 <= i < k && rs[..k][i].faceId == f;
        assert rs[i].faceId == f;
      }
    }
  }

  lemma {:induction false} NoOfferElsewhere(rib: RibView, p: Name, f: FaceId)
    requires forall n :: n in rib ==> !HasFaceId(rib[n].routes, f)
    ensures Offer(rib, p, f) == None
    decreases |p|
  {
    if p in rib {
      FirstInheritIsThere(rib[p].routes, f);
    }
    if p != [] {
      NoOfferElsewhere(rib, Up(p), f);
    }
  }

  lemma NothingOnOtherFaces(rib: RibView, u: RibUpdate, d: Name, f: FaceId)
    requires f !in Faces(rib, u)
    ensures Delta(rib, u, d, f) == EMPTY_SLOT
  {
    forall n | n in rib
      ensures !HasFaceId(rib[n].routes, f) && f !in rib[n].inherited
    {
    }
    if u.name != [] {
      NoOfferElsewhere(rib, Up(u.name), f);
    }
    assert Ancestor(rib, u.name, f) == None && f != u.route.faceId;
    if u.name in rib && SecondLowest(rib[u.name].routes, u.route.faceId).Some? {
      var i, j := SecondLowestIsSecond(rib[u.name].routes, u.route.faceId);
    }
    hide Lowest, Ancestor, HasFaceId, SecondLowest, Open, NullDereference, Faces, FindRoute;
  }

  // ---- The state after a step ----

  /** Routes and capture counts after the update, with pointers and records of no meaning. */
  function DataAfter(rib: RibView, u: RibUpdate): RibView {
    var n, r := u.name, u.route;
    var count := if r.capture then 1 else 0;
    if u.action == Register then
      if n !in rib then rib[n := Entry(None, [], [r], {}, count)]
      else
        var e, i := rib[n], FindRoute(rib[n].routes, r);
        rib[n := if i < |e.routes| then e.(routes := e.routes[i := r])
                 else e.(routes := e.routes + [r], nCapture := e.nCapture + count)]
    else if n !in rib || FindRoute(rib[n].routes, r) == |rib[n].routes| then rib
    else if |rib[n].routes| > 1 then rib[n := EraseAt(rib[n], FindRoute(rib[n].routes, r))]
    else rib - {n}
  }

  ghost function Recording(rib: RibView, u: RibUpdate, V: RibView): RibView {
    map d | d in V :: V[d].(inherited := set f | f in Faces(rib, u) && RecordedAfter(rib, u, d, f))
  }

  ghost function FibMoved(s: State, u: RibUpdate): Fib {
    map k: (Name, FaceId) | k in s.fib.Keys + Touched(s.rib, u) && HopAfter(s, u, k).Some? :: HopAfter(s, u, k).value
  }

  ghost function Touched(rib: RibView, u: RibUpdate): set<(Name, FaceId)> {
    set d, f | d in rib.Keys + {u.name} && f in Faces(rib, u) :: (d, f)
  }

  ghost function HopAfter(s: State, u: RibUpdate, k: (Name, FaceId)): Option<nat> {
    Applied(Lookup(s.fib, k.0, k.1), Delta(s.rib, u, k.0, k.1).pending)
  }

  ghost function Stepped(s: State, u: RibUpdate): State {
    State(Hanging(Recording(s.rib, u, DataAfter(s.rib, u))), FibMoved(s, u))
  }

  lemma DataIsRibAfter(rib: RibView, u: RibUpdate, V: RibView)
    requires V.Keys == DataAfter(rib, u).Keys
    requires forall m :: m in V ==>
            V[m].routes == DataAfter(rib, u)[m].routes && V[m].nCapture == DataAfter(rib, u)[m].nCapture
    ensures RibAfter(rib, u, V)
  {
    hide Erased, Decremented;
  }

  lemma RecordsAreRight(rib: RibView, u: RibUpdate, d: Name, f: FaceId)
    requires RecordedAfter(rib, u, d, f)
    ensures f in Faces(rib, u)
  {
    if f !in Faces(rib, u) {
      NothingOnOtherFaces(rib, u, d, f);
    }
  }

  lemma FibMovedAt(s: State, u: RibUpdate, d: Name, f: FaceId)
    ensures Lookup(FibMoved(s, u), d, f) == HopAfter(s, u, (d, f))
  {
    if (d, f) !in s.fib.Keys + Touched(s.rib, u) {
      if f !in Faces(s.rib, u) {
        NothingOnOtherFaces(s.rib, u, d, f);
      } else {
        NothingOutside(s.rib, u, d, f);
      }
    }
    hide Touched, Delta;
  }

  lemma StepExists(s: State, u: RibUpdate)
    requires !Crashes(s.rib, u)
    ensures Acknowledged(s, u, Stepped(s, u))
  {
    var s' := Stepped(s, u);
    var D := DataAfter(s.rib, u);
    var V := Recording(s.rib, u, D);
    HangingIsTree(V);
    DataIsRibAfter(s.rib, u, s'.rib);
    hide DataAfter, Crashes, RibAfter, TreeOk, Delta, FibMoved, RecordedAfter;
    forall d, f | d in s'.rib
      ensures f in s'.rib[d].inherited <==> RecordedAfter(s.rib, u, d, f)
    {
      if RecordedAfter(s.rib, u, d, f) {
        RecordsAreRight(s.rib, u, d, f);
      }
    }
    forall d, f
      ensures Lookup(s'.fib, d, f) == Applied(Lookup(s.fib, d, f), Delta(s.rib, u, d, f).pending)
    {
      FibMovedAt(s, u, d, f);
    }
  }
}
