/**
 A face is destroyed: Rib::beginRemoveFace sends one batch for each of its routes (rib/rib.cpp:362-374). The forwarder
 has dropped the next hops on that face by then (daemon/table/cleanup.cpp:31-50), and the updater leaves it alone.
 */
module FaceRemoval {
  import opened Wrappers
  import opened Routes
  import opened RibTree
  import opened FibDeltas
  import opened FibSpec
  import opened EntryUpdates
  import opened FibRefinement
  import opened FibRuns

  // ---- One batch ----

  function AsUnregistration(u: RibUpdate): RibUpdate {
    u.(action := Unregister)
  }

  lemma RemovalDelta(rib: RibView, u: RibUpdate, d: Name, f: FaceId)
    requires u.action == RemoveFace
    ensures var slot := Delta(rib, AsUnregistration(u), d, f);
            Delta(rib, u, d, f) == if f == u.route.faceId then slot.(pending := None) else slot
  {
    hide AfterUnregistration;
  }

  lemma RemovalConditions(rib: RibView, u: RibUpdate, d: Name, f: FaceId)
    requires u.action == RemoveFace
    ensures Safe(rib, AsUnregistration(u), d, f) <==> Safe(rib, u, d, f)
    ensures Stale(rib, AsUnregistration(u), f) <==> Stale(rib, u, f)
  {
    hide StrayErased, OverErased, StaleErased, Found, Due, FindRoute, Open, HasFaceId;
  }

  /**
   No command goes to the destroyed face. On every other face the pending command turns the old next hop into the new
   one exactly at safe names, and then the record is right unless it stays behind.
   */
  lemma RemovalExactAt(rib: RibView, u: RibUpdate, rib': RibView, d: Name, f: FaceId)
    requires Sound(rib) && RecordsOk(rib) && u.action == RemoveFace && RibAfter(rib, u, rib')
    ensures var hop := NextHop(RoutesOf(rib'), d, f);
            && (f == u.route.faceId ==> Delta(rib, u, d, f).pending == None)
            && (f != u.route.faceId ==>
                  (Applied(NextHop(RoutesOf(rib), d, f), Delta(rib, u, d, f).pending) == hop <==> Safe(rib, u, d, f)))
            && (Safe(rib, u, d, f) && d in rib' ==>
                  ((RecordedAfter(rib, u, d, f) <==> !HasFaceId(rib'[d].routes, f) && hop.Some?)
                   <==> !(d == u.name && Stale(rib, u, f))))
  {
    assert RibAfter(rib, AsUnregistration(u), rib');
    RemovalDelta(rib, u, d, f);
    RemovalConditions(rib, u, d, f);
    hide RibAfter, Delta, Safe, Stale, NextHop, HasFaceId, Sound, RecordsOk;
    RibStepExactAt(rib, AsUnregistration(u), rib', d, f);
  }

  /** The last route of a name goes with its face: a next hop the name had inherited on another face is removed. */
  lemma InheritedHopIsRemoved(rib: RibView, u: RibUpdate, f: FaceId)
    requires u.action == RemoveFace && Present(rib, u) && |rib[u.name].routes| == 1
    requires f in rib[u.name].inherited && f != u.route.faceId
    ensures Delta(rib, u, u.name, f).pending == Some(Remove)
  {
    hide AfterErasedRoute, AfterNewRoute, FindRoute, SecondLowest;
  }

  // ---- States without the face ----

  /** The next hops are those the routes call for, but for those on g: the forwarder has none. */
  ghost predicate HopsWithout(s: State, g: FaceId) {
    forall d, f :: Lookup(s.fib, d, f) == if f == g then None else NextHop(RoutesOf(s.rib), d, f)
  }

  ghost predicate ExactWithout(s: State, g: FaceId) {
    RecordsOk(s.rib) && HopsWithout(s, g)
  }

  /** What the forwarder does to its own FIB when the face goes. */
  function CutOff(s: State, g: FaceId): State {
    s.(fib := map k | k in s.fib && k.1 != g :: s.fib[k])
  }

  lemma CutOffIsExactWithout(s: State, g: FaceId)
    requires Exact(s)
    ensures ExactWithout(CutOff(s, g), g)
  {
    hide NextHop, RecordsOk;
    forall d, f
      ensures Lookup(CutOff(s, g).fib, d, f) == if f == g then None else NextHop(RoutesOf(s.rib), d, f)
    {
      assert Lookup(s.fib, d, f) == NextHop(RoutesOf(s.rib), d, f);
    }
  }

  /** The next hops on the other faces stay right if and only if every name is safe there. */
  lemma RemovalKeepsHopsExactly(s: State, u: RibUpdate, s': State)
    requires Sound(s.rib) && ExactWithout(s, u.route.faceId) && u.action == RemoveFace && Acknowledged(s, u, s')
    ensures HopsWithout(s', u.route.faceId) <==> forall d, f :: f != u.route.faceId ==> Safe(s.rib, u, d, f)
  {
    hide Safe, NextHop, Sound, RecordsOk, RibAfter, Delta, Stale, RecordedAfter, HasFaceId;
    forall d, f
      ensures f == u.route.faceId ==> Lookup(s'.fib, d, f) == None
      ensures f != u.route.faceId ==>
                (Lookup(s'.fib, d, f) == NextHop(RoutesOf(s'.rib), d, f) <==> Safe(s.rib, u, d, f))
    {
      RemovalExactAt(s.rib, u, s'.rib, d, f);
    }
    if HopsWithout(s', u.route.faceId) {
      forall d, f | f != u.route.faceId
        ensures Safe(s.rib, u, d, f)
      {
        assert Lookup(s'.fib, d, f) == NextHop(RoutesOf(s'.rib), d, f);
      }
    }
    if forall d, f :: f != u.route.faceId ==> Safe(s.rib, u, d, f) {
      forall d, f
        ensures Lookup(s'.fib, d, f) == if f == u.route.faceId then None else NextHop(RoutesOf(s'.rib), d, f)
      {
        assert f != u.route.faceId ==> Safe(s.rib, u, d, f);
      }
    }
  }

  lemma HarmlessRemoval(s: State, u: RibUpdate, s': State)
    requires Sound(s.rib) && ExactWithout(s, u.route.faceId) && u.action == RemoveFace && Acknowledged(s, u, s')
    requires Harmless(s.rib, u)
    ensures Sound(s'.rib) && ExactWithout(s', u.route.faceId)
  {
    SoundUnlessToggled(s.rib, u, s'.rib);
    RemovalKeepsHopsExactly(s, u, s');
    hide Safe, NextHop, Sound, RibAfter, Delta, Stale, RecordedAfter;
    forall d, f | d in s'.rib
      ensures RecordOk(s'.rib, d, f)
    {
      assert Safe(s.rib, u, d, f) && !Stale(s.rib, u, f);
      assert f in s'.rib[d].inherited <==> RecordedAfter(s.rib, u, d, f);
      hide RecordsOk, HasFaceId;
      RemovalExactAt(s.rib, u, s'.rib, d, f);
    }
  }

  // ---- All its routes ----

  /** One acknowledged batch after the other, each for a route on g. */
  ghost predicate Removal(states: seq<State>, updates: seq<RibUpdate>, g: FaceId) {
    && |states| == |updates| + 1
    && forall i :: 0 <= i < |updates| ==>
         updates[i].action == RemoveFace && updates[i].route.faceId == g
         && Acknowledged(states[i], updates[i], states[i + 1])
  }

  lemma {:induction false} RemovalStaysExact(states: seq<State>, updates: seq<RibUpdate>, g: FaceId, k: nat)
    requires Removal(states, updates, g) && Sound(states[0].rib) && ExactWithout(states[0], g) && k <= |updates|
    requires forall i :: 0 <= i < k ==> Harmless(states[i].rib, updates[i])
    ensures Sound(states[k].rib) && ExactWithout(states[k], g)
  {
    hide Acknowledged, Sound, ExactWithout, Harmless;
    if k > 0 {
      RemovalStaysExact(states, updates, g, k - 1);
      assert Acknowledged(states[k - 1], updates[k - 1], states[k - 1 + 1]);
      HarmlessRemoval(states[k - 1], updates[k - 1], states[k]);
    }
  }

  ghost predicate NoRouteOn(rib: RibView, g: FaceId) {
    forall n :: n in rib ==> !HasFaceId(rib[n].routes, g)
  }

  lemma {:induction false} NothingInherited(rib: RibView, p: Name, g: FaceId)
    requires NoRouteOn(rib, g)
    ensures Inherited(RoutesOf(rib), p, g) == None
    decreases |p|
  {
    InheritedIs(RoutesOf(rib), p, g);
    if p in rib {
      ScanFacts(rib[p].routes, g);
    }
    if p != [] {
      NothingInherited(rib, Up(p), g);
    }
  }

  lemma NoHopOn(rib: RibView, d: Name, g: FaceId)
    requires NoRouteOn(rib, g)
    ensures NextHop(RoutesOf(rib), d, g) == None
  {
    NextHopIs(RoutesOf(rib), d, g);
    if d in rib {
      ScanFacts(rib[d].routes, g);
    }
    if d != [] {
      NothingInherited(rib, Up(d), g);
    }
  }

  /**
   Starting from a right FIB, the forwarder drops the face and harmless batches erase its routes: when none is left,
   FIB and records are again those that the remaining routes call for.
   */
  lemma RemovedFaceLeavesExact(s: State, states: seq<State>, updates: seq<RibUpdate>, g: FaceId)
    requires Inv(s) && Removal(states, updates, g) && states[0] == CutOff(s, g)
    requires forall i :: 0 <= i < |updates| ==> Harmless(states[i].rib, updates[i])
    requires NoRouteOn(states[|updates|].rib, g)
    ensures Exact(states[|updates|])
  {
    var last := states[|updates|];
    CutOffIsExactWithout(s, g);
    RemovalStaysExact(states, updates, g, |updates|);
    forall d {
      NoHopOn(last.rib, d, g);
    }
    hide NextHop, RecordsOk, NoRouteOn, Removal, Harmless, Sound;
  }

  // ---- One route at each name ----

  lemma RoutineRemovalIsHarmless(rib: RibView, u: RibUpdate)
    requires Sound(rib) && OneRouteEach(rib) && u.action == RemoveFace
    requires Present(rib, u) ==> !Existing(rib, u).capture
    ensures Harmless(rib, u)
  {
    assert Single(rib);
    if Present(rib, u) {
      SoleErasureIsHarmless(rib, AsUnregistration(u));
      hide Safe, Stale, Sound, Single, OneRouteEach;
      forall d, f
        ensures Safe(rib, u, d, f) && !Stale(rib, u, f)
      {
        assert Safe(rib, AsUnregistration(u), d, f) && !Stale(rib, AsUnregistration(u), f);
        RemovalConditions(rib, u, d, f);
      }
    }
  }

  /** The update names a route that is there. */
  predicate Hits(rib: RibView, u: RibUpdate, n: Name) {
    u.name == n && Present(rib, u)
  }

  /** rib is rib0 without names that were hit by one of the updates. */
  ghost predicate Reduced(rib0: RibView, updates: seq<RibUpdate>, rib: RibView) {
    && (forall n :: n in rib ==> n in rib0 && rib[n].routes == rib0[n].routes)
    && (forall n :: n in rib0 ==> (n in rib <==> forall i :: 0 <= i < |updates| ==> !Hits(rib0, updates[i], n)))
  }

  lemma OneMoreReduced(rib0: RibView, updates: seq<RibUpdate>, rib: RibView, u: RibUpdate, rib': RibView)
    requires OneRouteEach(rib0) && Reduced(rib0, updates, rib) && u.action == RemoveFace && RibAfter(rib, u, rib')
    ensures Reduced(rib0, updates + [u], rib')
  {
    var us := updates + [u];
    assert forall i :: 0 <= i < |updates| ==> us[i] == updates[i];
    forall n | n in rib0
      ensures n in rib' <==> forall i :: 0 <= i < |us| ==> !Hits(rib0, us[i], n)
    {
      assert n in rib' <==> n in rib && !Hits(rib, u, n);
      assert us[|updates|] == u;
      if n in rib {
        assert Hits(rib, u, n) <==> Hits(rib0, u, n);
      }
    }
  }

  lemma {:induction false} RoutineRemoval(s: State, states: seq<State>, updates: seq<RibUpdate>, g: FaceId, k: nat)
    requires Inv(s) && OneRouteEach(s.rib) && Removal(states, updates, g) && states[0] == CutOff(s, g)
    requires forall n :: n in s.rib && HasFaceId(s.rib[n].routes, g) ==> !Captures(s.rib[n].routes)
    requires k <= |updates|
    ensures Reduced(s.rib, updates[..k], states[k].rib) && Sound(states[k].rib) && ExactWithout(states[k], g)
    ensures forall i :: 0 <= i < k ==> Harmless(states[i].rib, updates[i])
  {
    if k == 0 {
      CutOffIsExactWithout(s, g);
    } else {
      RoutineRemoval(s, states, updates, g, k - 1);
      var s1, u := states[k - 1], updates[k - 1];
      assert Acknowledged(s1, u, states[k - 1 + 1]);
      assert updates[..k] == updates[..k - 1] + [u];
      OneMoreReduced(s.rib, updates[..k - 1], s1.rib, u, states[k].rib);
      assert OneRouteEach(s1.rib);
      RoutineRemovalIsHarmless(s1.rib, u);
      HarmlessRemoval(s1, u, states[k]);
    }
  }

  ghost predicate Covers(rib: RibView, updates: seq<RibUpdate>, g: FaceId) {
    && (forall i :: 0 <= i < |updates| ==> updates[i].route.faceId == g)
    && forall n :: n in rib && HasFaceId(rib[n].routes, g) ==>
         exists i :: 0 <= i < |updates| && Hits(rib, updates[i], n)
  }

  lemma WhatIsLeft(rib0: RibView, updates: seq<RibUpdate>, rib: RibView, g: FaceId)
    requires Reduced(rib0, updates, rib) && Covers(rib0, updates, g)
    ensures NoRouteOn(rib, g)
    ensures RoutesOf(rib) == map n | n in rib0 && !HasFaceId(rib0[n].routes, g) :: rib0[n].routes
  {
    forall n | n in rib0
      ensures n in rib <==> !HasFaceId(rib0[n].routes, g)
    {
      forall i | 0 <= i < |updates| && Hits(rib0, updates[i], n)
        ensures HasFaceId(rib0[n].routes, g)
      {
        assert rib0[n].routes[FindRoute(rib0[n].routes, updates[i].route)].faceId == g;
      }
    }
  }

  /**
   With one route at each name and no capturing one on the face: once there has been a batch for each name with a route
   on the face, exactly those names are gone, and FIB and records are the ones recomputed from the routes that are left.
   */
  lemma DestroyedFaceIsForgotten(s: State, states: seq<State>, updates: seq<RibUpdate>, g: FaceId)
    requires Inv(s) && OneRouteEach(s.rib) && Removal(states, updates, g) && states[0] == CutOff(s, g)
    requires forall n :: n in s.rib && HasFaceId(s.rib[n].routes, g) ==> !Captures(s.rib[n].routes)
    requires Covers(s.rib, updates, g)
    ensures RoutesOf(states[|updates|].rib) ==
            map n | n in s.rib && !HasFaceId(s.rib[n].routes, g) :: s.rib[n].routes
    ensures Exact(states[|updates|])
  {
    RoutineRemoval(s, states, updates, g, |updates|);
    assert updates[..|updates|] == updates;
    hide Inv, Covers, OneRouteEach, Removal, Reduced, HasFaceId, Captures, Exact, Harmless, Sound, ExactWithout,
        NoRouteOn;
    WhatIsLeft(s.rib, updates, states[|updates|].rib, g);
    RemovedFaceLeavesExact(s, states, updates, g);
  }
}
