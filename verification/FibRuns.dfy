/** Whole runs of acknowledged batches, and consequences of the exactness of one step. */
module FibRuns {
  import opened Wrappers
  import opened Routes
  import opened RibTree
  import opened FibDeltas
  import opened FibSpec
  import opened EntryUpdates
  import opened FibRefinement

  const EMPTY_STATE := State(map[], map[])

  ghost predicate Run(states: seq<State>, updates: seq<RibUpdate>) {
    && |states| == |updates| + 1
    && forall i :: 0 <= i < |updates| ==> Step(states[i], updates[i], states[i + 1])
  }

  lemma LongerRun(states: seq<State>, updates: seq<RibUpdate>, u: RibUpdate, s: State)
    requires Run(states, updates) && Step(states[|updates|], u, s)
    ensures Run(states + [s], updates + [u])
  {
    hide Step;
  }

  lemma EmptyStateOk()
    ensures Inv(EMPTY_STATE)
  {
    forall d, f
      ensures Lookup(EMPTY_STATE.fib, d, f) == NextHop(RoutesOf(EMPTY_STATE.rib), d, f)
    {
      assert d !in RoutesOf(EMPTY_STATE.rib);
    }
  }

  /** The capture counts are right as long as no update has toggled the capture of an existing route. */
  lemma {:induction false} CountsStayRight(states: seq<State>, updates: seq<RibUpdate>, k: nat)
    requires Run(states, updates) && states[0] == EMPTY_STATE && k <= |updates|
    requires forall i :: 0 <= i < k ==> !TogglesCapture(states[i].rib, updates[i])
    ensures Sound(states[k].rib)
  {
    if k > 0 {
      CountsStayRight(states, updates, k - 1);
      assert Step(states[k - 1], updates[k - 1], states[k - 1 + 1]);
      hide RibAfter, Sound, TogglesCapture;
      SoundUnlessToggled(states[k - 1].rib, updates[k - 1], states[k].rib);
    }
  }

  lemma NextIsExactlyHarmless(states: seq<State>, updates: seq<RibUpdate>, i: nat)
    requires Run(states, updates) && TreeOk(states[0].rib) && i < |updates|
    requires Sound(states[i].rib) && Exact(states[i])
    ensures Exact(states[i + 1]) <==> Harmless(states[i].rib, updates[i])
  {
    assert Step(states[i], updates[i], states[i + 1]);
    if i > 0 {
      assert Step(states[i - 1], updates[i - 1], states[i - 1 + 1]);
    }
    hide Sound, Exact, Harmless, TreeOk, RibAfter, Crashes;
    StepIsExactlyHarmless(states[i], updates[i], states[i + 1]);
  }

  lemma {:induction false} HarmlessMeansExact(states: seq<State>, updates: seq<RibUpdate>, k: nat)
    requires Run(states, updates) && Inv(states[0]) && k <= |updates|
    requires forall i :: 0 <= i < k ==> Sound(states[i].rib) && Harmless(states[i].rib, updates[i])
    ensures Exact(states[k])
  {
    if k > 0 {
      HarmlessMeansExact(states, updates, k - 1);
      hide Run, Sound, Exact, Harmless, TreeOk;
      NextIsExactlyHarmless(states, updates, k - 1);
    }
  }

  /**
   Main theorem on runs, with any number of origins: as long as the capture counts are right, FIB and records are
   right in every state if and only if every update was harmless when it was applied.
   */
  lemma RunIsExactlyHarmless(states: seq<State>, updates: seq<RibUpdate>)
    requires Run(states, updates) && states[0] == EMPTY_STATE
    requires forall i :: 0 <= i < |updates| ==> Sound(states[i].rib)
    ensures (forall i :: 0 <= i < |states| ==> Exact(states[i]))
            <==> (forall i :: 0 <= i < |updates| ==> Harmless(states[i].rib, updates[i]))
  {
    EmptyStateOk();
    assert TreeOk(states[0].rib) && |states| == |updates| + 1;
    hide Run, Inv, Sound, Exact, Harmless;
    if forall i :: 0 <= i < |states| ==> Exact(states[i]) {
      forall i | 0 <= i < |updates|
        ensures Harmless(states[i].rib, updates[i])
      {
        assert Exact(states[i]) && Exact(states[i + 1]);
        NextIsExactlyHarmless(states, updates, i);
      }
    }
    if forall i :: 0 <= i < |updates| ==> Harmless(states[i].rib, updates[i]) {
      forall i | 0 <= i < |states|
        ensures Exact(states[i])
      {
        HarmlessMeansExact(states, updates, i);
      }
    }
  }

  // ---- Updates that are harmless ----

  /** Registering an absent name is harmless exactly when it captures or finds, on other faces, what is due. */
  lemma NewNameHarmlessExactly(rib: RibView, u: RibUpdate)
    requires u.action == Register && u.name !in rib
    ensures Harmless(rib, u) <==>
            u.route.capture || forall f :: f != u.route.faceId ==> Found(rib, u.name, f) == Due(rib, u.name, f)
  {
    hide Found, Due;
    if Harmless(rib, u) && !u.route.capture {
      forall f | f != u.route.faceId
        ensures Found(rib, u.name, f) == Due(rib, u.name, f)
      {
        assert Safe(rib, u, u.name, f);
      }
    }
  }

  /** With one route for each face every flag combination of a new name is harmless. */
  lemma NewNameIsHarmless(rib: RibView, u: RibUpdate)
    requires Sound(rib) && Single(rib) && u.action == Register && u.name !in rib
    ensures Harmless(rib, u)
  {
    forall f
      ensures Found(rib, u.name, f) == Due(rib, u.name, f)
    {
      FoundIsDue(rib, u.name, f);
    }
    NewNameHarmlessExactly(rib, u);
  }

  /** Changing the cost of a route, or turning its child inheritance on or (without capture) off. */
  lemma ReregistrationIsHarmless(rib: RibView, u: RibUpdate)
    requires Sound(rib) && Single(rib) && RecordsOk(rib) && u.action == Register && Present(rib, u)
    requires var was := Existing(rib, u);
             u.route.capture == was.capture && (was.childInherit ==> u.route.childInherit || !rib[u.name].HasCapture())
    ensures Harmless(rib, u)
  {
    var e := rib[u.name];
    var i := FindRoute(e.routes, u.route);
    forall f
      ensures !Stray(rib, u, f) && !Overgranted(rib, u, f) && !Stale(rib, u, f)
    {
      FoundIsDue(rib, u.name, f);
      OverwrittenAlone(e.routes, i, u.route);
      assert HasFaceId(e.routes, u.route.faceId);
      assert RecordOk(rib, u.name, u.route.faceId);
      hide Found, Due, FindRoute, Lowest, Sound, Single, RecordsOk, HasFaceId;
    }
    hide Stray, Overgranted, Stale;
  }

  lemma OverwrittenAlone(rs: seq<Route>, i: nat, r: Route)
    requires OnePerFace(rs) && i < |rs| && r.faceId == rs[i].faceId
    ensures Lowest(rs[i := r], r.faceId, false) == Some(r)
    ensures Lowest(rs[i := r], r.faceId, true) == if r.childInherit then Some(r) else None
  {
    SoleRouteReplaced(rs, i, r, r.faceId);
    SoleRoute(rs[i := r], r.faceId);
  }

  /** Unregistering the only route of a name, unless it captures. */
  lemma SoleErasureIsHarmless(rib: RibView, u: RibUpdate)
    requires Sound(rib) && Single(rib) && u.action == Unregister && Present(rib, u)
    requires |rib[u.name].routes| == 1 && !rib[u.name].routes[0].capture
    ensures Harmless(rib, u)
  {
    var e, i := rib[u.name], FindRoute(rib[u.name].routes, u.route);
    forall f
      ensures !Stray(rib, u, f) && !Overgranted(rib, u, f) && !Stale(rib, u, f)
    {
      FoundIsDue(rib, u.name, f);
      RouteErased(e, i, f);
      hide Found, Due, FindRoute, Lowest, Sound, Single, Captures, Erased;
    }
    hide Stray, Overgranted, Stale;
  }

  // ---- The null dereference of fib-updater.cpp:486 ----

  /** With one route for each face no update reaches it. */
  lemma SingleNeverCrashes(rib: RibView, u: RibUpdate)
    requires Single(rib)
    ensures !Crashes(rib, u)
  {
    if u.action == Register && Present(rib, u) {
      var e := rib[u.name];
      var i := FindRoute(e.routes, u.route);
      SoleRouteReplaced(e.routes, i, u.route, u.route.faceId);
    }
  }

  /** The route with index k is another route on r's face. */
  predicate OtherOnFace(rs: seq<Route>, i: nat, r: Route, k: int) {
    0 <= k < |rs| && k != i && rs[k].faceId == r.faceId
  }

  /**
   In general it is reached exactly when the one cheapest of several routes on a face is made dearer than
   another, and neither it nor any of the others child-inherits afterwards.
   */
  lemma CrashesExactly(rib: RibView, u: RibUpdate)
    requires u.action == Register && Present(rib, u)
    ensures var rs := rib[u.name].routes;
            var i := FindRoute(rs, u.route);
            Crashes(rib, u) <==>
              && !u.route.childInherit
              && (forall k :: OtherOnFace(rs, i, u.route, k) ==> rs[i].cost < rs[k].cost && !rs[k].childInherit)
              && exists k :: OtherOnFace(rs, i, u.route, k) && rs[k].cost < u.route.cost
  {
    var rs := rib[u.name].routes;
    var i := FindRoute(rs, u.route);
    var f := u.route.faceId;
    var us := rs[i := u.route];
    ScanFacts(us, f);
    forall k | OtherOnFace(rs, i, u.route, k)
      ensures Lowest(us, f, false).Some? && Lowest(us, f, false).value.cost <= rs[k].cost
      ensures rs[k].childInherit ==> Lowest(us, f, true).Some?
    {
      LowestAtMost(us, f, false, k);
      if rs[k].childInherit {
        LowestAtMost(us, f, true, k);
      }
    }
    LowestAtMost(us, f, false, i);
    var m := LowestAttained(us, f, false);
    if Lowest(us, f, true).Some? {
      var c := LowestAttained(us, f, true);
      assert c != i ==> OtherOnFace(rs, i, u.route, c);
    }
    if u.route.childInherit {
      LowestAtMost(us, f, true, i);
    }
    assert m != i ==> OtherOnFace(rs, i, u.route, m);
    hide Lowest, FindRoute;
  }

  // ---- Runs with one route at each name ----

  ghost predicate OneRouteEach(rib: RibView) {
    forall n :: n in rib ==> |rib[n].routes| == 1
  }

  /**
   The updates under which runs with one route at each name stay exact: registering an absent name, whatever the
   flags; changing the cost of a route; changing child-inherit of one that does not capture; unregistering one that
   does not capture, or one that is not there.
   */
  predicate Routine(rib: RibView, u: RibUpdate) {
    if u.action == Register then
      || u.name !in rib
      || (Present(rib, u)
          && var was := Existing(rib, u);
             u.route.capture == was.capture && (u.route.childInherit == was.childInherit || !was.capture))
    else u.action == Unregister && (Present(rib, u) ==> !Existing(rib, u).capture)
  }

  lemma RoutineIsHarmless(s: State, u: RibUpdate)
    requires Inv(s) && OneRouteEach(s.rib) && Routine(s.rib, u)
    ensures Harmless(s.rib, u) && !TogglesCapture(s.rib, u) && !Crashes(s.rib, u)
  {
    assert Single(s.rib);
    SingleNeverCrashes(s.rib, u);
    if u.action == Register && u.name !in s.rib {
      NewNameIsHarmless(s.rib, u);
    } else if u.action == Register {
      SoundCapture(s.rib, u.name);
      ReregistrationIsHarmless(s.rib, u);
    } else if Present(s.rib, u) {
      SoleErasureIsHarmless(s.rib, u);
    }
  }

  lemma RoutineKeepsOneRoute(rib: RibView, u: RibUpdate, rib': RibView)
    requires OneRouteEach(rib) && Routine(rib, u) && RibAfter(rib, u, rib')
    ensures OneRouteEach(rib')
  {
    forall n | n in rib'
      ensures |rib'[n].routes| == 1
    {
      assert n != u.name ==> n in rib;
    }
  }

  lemma EmptyHasOneRouteEach()
    ensures OneRouteEach(EMPTY_STATE.rib)
  {
  }

  lemma RoutineStep(s: State, u: RibUpdate, s': State)
    requires Inv(s) && OneRouteEach(s.rib) && Routine(s.rib, u) && Step(s, u, s')
    ensures Inv(s') && OneRouteEach(s'.rib)
  {
    RoutineIsHarmless(s, u);
    StepKeepsInvExactly(s, u, s');
    RoutineKeepsOneRoute(s.rib, u, s'.rib);
  }

  lemma {:induction false} RoutinePrefix(states: seq<State>, updates: seq<RibUpdate>, k: nat)
    requires Run(states, updates) && states[0] == EMPTY_STATE && k <= |updates|
    requires forall i :: 0 <= i < k ==> Routine(states[i].rib, updates[i])
    ensures Inv(states[k]) && OneRouteEach(states[k].rib)
  {
    hide Step, Inv, Routine, OneRouteEach;
    if k == 0 {
      EmptyStateOk();
      EmptyHasOneRouteEach();
    } else {
      RoutinePrefix(states, updates, k - 1);
      assert Step(states[k - 1], updates[k - 1], states[k - 1 + 1]);
      RoutineStep(states[k - 1], updates[k - 1], states[k]);
    }
  }

  /**
   Whole runs from an empty RIB: if every update is a routine one, then in every state FIB and inherited records are
   those recomputed from the routes, the capture counts are right and each name has one route; and no routine update
   that may follow crashes.
   */
  lemma RoutineRunIsExact(states: seq<State>, updates: seq<RibUpdate>)
    requires Run(states, updates) && states[0] == EMPTY_STATE
    requires forall i :: 0 <= i < |updates| ==> Routine(states[i].rib, updates[i])
    ensures forall i :: 0 <= i < |states| ==> Exact(states[i]) && Inv(states[i]) && OneRouteEach(states[i].rib)
    ensures forall i, u :: 0 <= i < |states| && Routine(states[i].rib, u) ==> !Crashes(states[i].rib, u)
  {
    forall i | 0 <= i < |states|
      ensures Inv(states[i]) && OneRouteEach(states[i].rib)
      ensures forall u :: Routine(states[i].rib, u) ==> !Crashes(states[i].rib, u)
    {
      RoutinePrefix(states, updates, i);
      hide Run, Step, Inv, Routine, OneRouteEach, Crashes;
      forall u | Routine(states[i].rib, u) {
        RoutineIsHarmless(states[i], u);
      }
    }
    hide Run, Routine, Crashes, OneRouteEach;
  }

  /** The assertion of Rib::modifyInheritedRoutes: every recorded name is in the updated RIB, for any RIB and update. */
  lemma RecordedNamesArePresent(rib: RibView, u: RibUpdate, rib': RibView, d: Name, f: FaceId)
    requires RibAfter(rib, u, rib') && Delta(rib, u, d, f).record.Some?
    ensures d in rib'
  {
  }

  lemma InsertedThenErasedRoutes(rib0: RibView, rib1: RibView, rib2: RibView, n: Name, route: Route)
    requires n !in rib0
    requires RibAfter(rib0, RibUpdate(Register, n, route), rib1)
            && RibAfter(rib1, RibUpdate(Unregister, n, route), rib2)
    ensures RoutesOf(rib2) == RoutesOf(rib0)
  {
    assert rib1[n].routes == [route] && n !in rib2;
    assert forall m :: m != n ==> (m in rib0 <==> m in rib2) && (m in rib0 ==> rib0[m].routes == rib2[m].routes);
    assert RoutesOf(rib2).Keys == RoutesOf(rib0).Keys;
  }

  lemma SameNextHopsSameFib(s: State, s': State)
    requires FibOk(s) && FibOk(s') && RoutesOf(s.rib) == RoutesOf(s'.rib)
    ensures s.fib == s'.fib
  {
    forall k
      ensures k in s.fib <==> k in s'.fib
      ensures k in s.fib ==> s.fib[k] == s'.fib[k]
    {
      assert Lookup(s.fib, k.0, k.1) == NextHop(RoutesOf(s.rib), k.0, k.1) == Lookup(s'.fib, k.0, k.1);
    }
  }

  lemma NewNameStaysSingle(rib: RibView, n: Name, route: Route, rib': RibView)
    requires Single(rib) && n !in rib && RibAfter(rib, RibUpdate(Register, n, route), rib')
    ensures Single(rib')
  {
  }

  /** Registering an absent name without capture and unregistering it again restores the FIB. */
  lemma RegisterThenUnregisterRestores(s0: State, s1: State, s2: State, n: Name, route: Route)
    requires Inv(s0) && Single(s0.rib) && n !in s0.rib && !route.capture
    requires Step(s0, RibUpdate(Register, n, route), s1) && Step(s1, RibUpdate(Unregister, n, route), s2)
    ensures RoutesOf(s2.rib) == RoutesOf(s0.rib) && s2.fib == s0.fib
  {
    NewNameIsHarmless(s0.rib, RibUpdate(Register, n, route));
    StepKeepsInvExactly(s0, RibUpdate(Register, n, route), s1);
    NewNameStaysSingle(s0.rib, n, route, s1.rib);
    SoleErasureIsHarmless(s1.rib, RibUpdate(Unregister, n, route));
    StepKeepsInvExactly(s1, RibUpdate(Unregister, n, route), s2);
    InsertedThenErasedRoutes(s0.rib, s1.rib, s2.rib, n, route);
    SameNextHopsSameFib(s0, s2);
  }

  // ---- Several origins on one face ----

  /** The cheapest cost on f among the routes other than the one at x, met by the route at m. */
  ghost predicate CheapestOther(rs: seq<Route>, f: FaceId, x: nat, m: nat) {
    && m < |rs| && m != x && rs[m].faceId == f
    && forall k :: 0 <= k < |rs| && k != x && rs[k].faceId == f ==> rs[m].cost <= rs[k].cost
  }

  lemma CheapestOtherIsLowest(rs: seq<Route>, f: FaceId, x: nat, m: nat)
    requires x < |rs| && CheapestOther(rs, f, x, m)
    ensures Lowest(Erased(rs, x), f, false).Some? && Lowest(Erased(rs, x), f, false).value.cost == rs[m].cost
  {
    var es := Erased(rs, x);
    var m' := if m < x then m else m - 1;
    ErasedAt(rs, x, m');
    assert HasFaceId(es, f);
    var i := LowestAt(es, f);
    ErasedAt(rs, x, i);
  }

  /**
   Unregistering one of several routes on a face leaves the next hop with the cheapest remaining cost
   if and only if the erased route was itself a cheapest one, or two remaining routes share the least
   cost, or an uncaptured ancestor happens to offer the face at that cost.
   */
  lemma ErasedOriginExact(rib: RibView, u: RibUpdate, m: nat)
    requires u.action == Unregister && Present(rib, u)
    requires var rs := rib[u.name].routes; CheapestOther(rs, u.route.faceId, FindRoute(rs, u.route), m)
    ensures var e := rib[u.name];
            var x := FindRoute(e.routes, u.route);
            var f := u.route.faceId;
            var least := e.routes[m].cost;
            var above := Ancestor(rib, u.name, f);
            Delta(rib, u, u.name, f).pending == Some(Add(least)) <==>
              || e.routes[x].cost <= least
              || (exists k ::
                    0 <= k < |e.routes| && k != x && k != m && e.routes[k].faceId == f && e.routes[k].cost == least)
              || (above.Some? && !EraseAt(e, x).HasCapture() && above.value.cost == least)
  {
    var e := rib[u.name];
    var x := FindRoute(e.routes, u.route);
    var f := u.route.faceId;
    if SecondLowest(e.routes, f).None? {
      OnlyOne(e.routes, f, x);
      assert false;
    }
    var i, j := SecondLowestIsSecond(e.routes, f);
    CheapestOtherIsLowest(e.routes, f, x, m);
    SecondAgainstRemaining(e.routes, f, x, m, i, j);
  }

  lemma SecondAgainstRemaining(rs: seq<Route>, f: FaceId, x: nat, m: nat, i: nat, j: nat)
    requires x < |rs| && rs[x].faceId == f && CheapestOther(rs, f, x, m) && TwoCheapest(rs, f, i, j)
    ensures rs[j].cost <= rs[m].cost <==>
              || rs[x].cost <= rs[m].cost
              || (exists k :: 0 <= k < |rs| && k != x && k != m && rs[k].faceId == f && rs[k].cost == rs[m].cost)
    ensures rs[j].cost <= rs[m].cost ==> rs[j].cost == rs[m].cost
  {
    if rs[j].cost <= rs[m].cost && rs[x].cost > rs[m].cost {
      var k := if m == i then j else i;
      assert k != x && k != m && rs[k].cost == rs[m].cost;
    }
  }
}
