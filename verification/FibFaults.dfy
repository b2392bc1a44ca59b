/**
 Runs from the empty RIB in which the code goes wrong, one for each condition of FibRefinement.Harmless that can fail.
 */
module FibFaults {
  import opened Wrappers
  import opened Routes
  import opened RibTree
  import opened FibDeltas
  import opened FibSpec
  import opened EntryUpdates
  import opened FibRefinement
  import opened FibRuns
  import opened FibSteps

  const ROOT: Name := []
  const A: Name := ["a"]
  const AB: Name := ["a", "b"]

  function Registering(n: Name, r: Route): RibUpdate {
    RibUpdate(Register, n, r)
  }

  function Unregistering(n: Name, r: Route): RibUpdate {
    RibUpdate(Unregister, n, r)
  }

  /** A route of origin 0. */
  function On(face: FaceId, cost: nat, childInherit: bool, capture: bool): Route {
    Route(face, 0, cost, childInherit, capture)
  }

  /** A route on face 1 without capture. */
  function Of(origin: nat, cost: nat, childInherit: bool): Route {
    Route(1, origin, cost, childInherit, false)
  }

  /** What every name below the root may inherit on face 1. */
  const TOP := On(1, 10, true, false)

  /** A route that leaves face 1 alone. */
  const APART := On(9, 1, false, false)

  // ---- Building runs ----

  ghost predicate FromEmpty(states: seq<State>, updates: seq<RibUpdate>) {
    Run(states, updates) && states[0] == EMPTY_STATE
  }

  function Last(states: seq<State>): State {
    if states == [] then EMPTY_STATE else states[|states| - 1]
  }

  ghost predicate Reached(s: State, t: RouteTable) {
    Inv(s) && RoutesOf(s.rib) == t
  }

  lemma Extended(states: seq<State>, updates: seq<RibUpdate>, u: RibUpdate) returns (s': State)
    requires FromEmpty(states, updates) && u.action != RemoveFace && !Crashes(Last(states).rib, u)
    ensures FromEmpty(states + [s'], updates + [u]) && Step(Last(states), u, s')
  {
    hide Acknowledged, Stepped, Crashes, Run;
    StepExists(Last(states), u);
    s' := Stepped(Last(states), u);
    StartStays(states, updates, s');
    LongerRun(states, updates, u, s');
  }

  lemma StartStays(states: seq<State>, updates: seq<RibUpdate>, s': State)
    requires Run(states, updates)
    ensures |states| == |updates| + 1 && (states + [s'])[0] == states[0]
  {
    hide Step;
  }

  lemma Started() returns (states: seq<State>)
    ensures FromEmpty(states, []) && Reached(Last(states), map[])
  {
    EmptyStateOk();
    states := [EMPTY_STATE];
  }

  function WithRoute(t: RouteTable, n: Name, r: Route): RouteTable {
    t[n := (if n in t then t[n] else []) + [r]]
  }

  lemma Registered(states: seq<State>, updates: seq<RibUpdate>, t: RouteTable, n: Name, r: Route)
    returns (states': seq<State>)
    requires FromEmpty(states, updates) && Reached(Last(states), t)
    requires Harmless(Last(states).rib, Registering(n, r)) && !Present(Last(states).rib, Registering(n, r))
    ensures FromEmpty(states', updates + [Registering(n, r)]) && Reached(Last(states'), WithRoute(t, n, r))
  {
    var s, u := Last(states), Registering(n, r);
    var s' := Extended(states, updates, u);
    StepKeepsInvExactly(s, u, s');
    RegisteredTable(s.rib, n, r, s'.rib);
    states' := states + [s'];
    hide Inv, Step, Harmless, FromEmpty, Present;
  }

  lemma RegisteredTable(rib: RibView, n: Name, r: Route, rib': RibView)
    requires !Present(rib, Registering(n, r)) && RibAfter(rib, Registering(n, r), rib')
    ensures RoutesOf(rib') == WithRoute(RoutesOf(rib), n, r)
  {
    assert [] + [r] == [r];
    assert RoutesOf(rib').Keys == WithRoute(RoutesOf(rib), n, r).Keys;
  }

  /** The run of these updates is exact up to the last one, which leaves a wrong next hop at d and f. */
  ghost predicate EndsWrong(states: seq<State>, updates: seq<RibUpdate>, d: Name, f: FaceId) {
    && FromEmpty(states, updates) && |updates| > 0
    && var s, s' := states[|updates| - 1], states[|updates|];
       Exact(s) && Lookup(s'.fib, d, f) != NextHop(RoutesOf(s'.rib), d, f)
  }

  lemma GoesWrong(states: seq<State>, updates: seq<RibUpdate>, u: RibUpdate, d: Name, f: FaceId)
    returns (states': seq<State>)
    requires FromEmpty(states, updates) && Inv(Last(states)) && u.action != RemoveFace
    requires !Crashes(Last(states).rib, u) && !Safe(Last(states).rib, u, d, f)
    ensures EndsWrong(states', updates + [u], d, f) && states' == states + [Last(states')]
  {
    var s' := Extended(states, updates, u);
    StepExactAt(Last(states), u, s', d, f);
    states' := states + [s'];
    hide Step, Safe, NextHop, Crashes, RecordsOk, FibOk;
  }

  /**
   The run of these updates is exact up to the last one, which leaves d's next hop on f right and its record wrong.
   */
  ghost predicate EndsUnrecorded(states: seq<State>, updates: seq<RibUpdate>, d: Name, f: FaceId) {
    && FromEmpty(states, updates) && |updates| > 0
    && var s, s' := states[|updates| - 1], states[|updates|];
       && Exact(s) && Lookup(s'.fib, d, f) == NextHop(RoutesOf(s'.rib), d, f)
       && d in s'.rib && !RecordOk(s'.rib, d, f)
  }

  lemma LeavesRecord(states: seq<State>, updates: seq<RibUpdate>, u: RibUpdate, f: FaceId) returns (states': seq<State>)
    requires FromEmpty(states, updates) && Inv(Last(states)) && u.action != RemoveFace
    requires !Crashes(Last(states).rib, u) && Stale(Last(states).rib, u, f) && !Overgranted(Last(states).rib, u, f)
    ensures EndsUnrecorded(states', updates + [u], u.name, f)
  {
    var s := Last(states);
    var s' := Extended(states, updates, u);
    assert Safe(s.rib, u, u.name, f);
    StepExactAt(s, u, s', u.name, f);
    StaleNameStays(s, u, s', f);
    states' := states + [s'];
    hide Step, Safe, NextHop, Crashes, RecordsOk, FibOk, Stale, Overgranted;
  }

  // ---- Updates that do no harm while a run is built ----

  /** At the root nothing is inherited, so every new route is harmless there. */
  lemma RootRegistrationIsHarmless(rib: RibView, r: Route)
    requires RecordsOk(rib) && !Present(rib, Registering(ROOT, r))
    ensures Harmless(rib, Registering(ROOT, r))
  {
    var u := Registering(ROOT, r);
    forall f
      ensures !Stray(rib, u, f) && !Overgranted(rib, u, f) && !Stale(rib, u, f)
    {
      assert Found(rib, ROOT, f) == None == Due(rib, ROOT, f);
      if ROOT in rib {
        assert RecordOk(rib, ROOT, f);
        NextHopIs(RoutesOf(rib), ROOT, f);
        ScanFacts(rib[ROOT].routes, f);
      }
      hide Found, Due, NextHop, RecordsOk, Lowest, HasFaceId;
    }
    hide Stray, Overgranted, Stale;
  }

  /** So is a further route of a name on a face it does not inherit, unless it is the first that captures. */
  lemma FurtherRouteIsHarmless(rib: RibView, n: Name, r: Route)
    requires n in rib && !Present(rib, Registering(n, r)) && r.faceId !in rib[n].inherited
            && (r.capture ==> rib[n].HasCapture())
    ensures Harmless(rib, Registering(n, r))
  {
    var u := Registering(n, r);
    forall f
      ensures !Stray(rib, u, f) && !Overgranted(rib, u, f) && !Stale(rib, u, f)
    {
      hide Found, Due, FindRoute, Lowest;
    }
    hide Stray, Overgranted, Stale;
  }

  /** Turning on the capture of the only route of a name, one that is not inherited itself, is harmless. */
  lemma CaptureOnIsHarmless(rib: RibView, n: Name, p: Route)
    requires Sound(rib) && RecordsOk(rib) && n in rib && rib[n].routes == [p] && !p.capture && !p.childInherit
    ensures Harmless(rib, Registering(n, p.(capture := true)))
  {
    var u := Registering(n, p.(capture := true));
    assert FindRoute([p], u.route) == 0;
    assert [p][0 := u.route] == [u.route];
    assert HasFaceId(rib[n].routes, p.faceId);
    assert RecordOk(rib, n, p.faceId);
    forall f
      ensures !Stray(rib, u, f) && !Overgranted(rib, u, f) && !Stale(rib, u, f)
    {
      OneRoute(u.route, f);
      hide FindRoute, Found, Due, Lowest, Sound, RecordsOk, HasFaceId;
    }
    hide Stray, Overgranted, Stale;
  }

  // ---- Short lists of routes ----

  lemma OfOne(r: Route, f: FaceId)
    ensures FirstInherit([r], f) == if r.faceId == f && r.childInherit then Some(r) else None
    ensures Lowest([r], f, false) == if f == r.faceId then Some(r) else None
    ensures Lowest([r], f, true) == if f == r.faceId && r.childInherit then Some(r) else None
    ensures HasFaceId([r], f) <==> f == r.faceId
    ensures CountCapture([r]) == if r.capture then 1 else 0
    ensures SecondLowest([r], f) == None
    ensures Captures([r]) <==> r.capture
  {
    OneRoute(r, f);
    assert [r][..0] == [];
  }

  lemma OfTwo(r: Route, q: Route, f: FaceId)
    ensures FirstInherit([r, q], f) == if FirstInherit([r], f).Some? then FirstInherit([r], f) else FirstInherit([q], f)
    ensures CostOf(Lowest([r, q], f, false)) == Least(CostOf(Lowest([r], f, false)), Part(q, f, false))
    ensures CostOf(Lowest([r, q], f, true)) == Least(CostOf(Lowest([r], f, true)), Part(q, f, true))
    ensures HasFaceId([r, q], f) <==> f == r.faceId || f == q.faceId
    ensures CountCapture([r, q]) == CountCapture([r]) + if q.capture then 1 else 0
    ensures Captures([r, q]) <==> r.capture || q.capture
  {
    assert [r] + [q] == [r, q] && [r, q][..1] == [r];
    OfOne(r, f);
    OfOne(q, f);
    OneMoreRoute([r], q, f);
  }

  lemma OfThree(r: Route, q: Route, p: Route, f: FaceId)
    ensures FirstInherit([r, q, p], f) == if FirstInherit([r, q], f).Some? then FirstInherit([r, q], f)
            else FirstInherit([p], f)
    ensures CostOf(Lowest([r, q, p], f, false)) == Least(CostOf(Lowest([r, q], f, false)), Part(p, f, false))
    ensures CostOf(Lowest([r, q, p], f, true)) == Least(CostOf(Lowest([r, q], f, true)), Part(p, f, true))
    ensures Captures([r, q, p]) <==> r.capture || q.capture || p.capture
  {
    assert [r, q] + [p] == [r, q, p] && [r, q, p][..2] == [r, q];
    OfOne(p, f);
    OfTwo(r, q, f);
    OneMoreRoute([r, q], p, f);
  }

  lemma SecondOfTwo(r: Route, q: Route, f: FaceId)
    requires r.faceId == f == q.faceId
    ensures Lowest([r, q], f, false) == Some(if q.cost < r.cost then q else r)
    ensures SecondLowest([r, q], f) == Some(if q.cost < r.cost then r else q)
  {
    assert [r, q][..1] == [r];
    OfOne(r, f);
  }

  lemma SecondOfThree(r: Route, q: Route, p: Route, f: FaceId)
    requires r.faceId == f == q.faceId && p.faceId == f && r.cost < q.cost <= p.cost
    ensures SecondLowest([r, q, p], f) == Some(q)
  {
    assert [r, q, p][..2] == [r, q];
    SecondOfTwo(r, q, f);
  }

  // ---- Runs with TOP at /, one or two routes at /a and one at /a/b ----

  function Below(rs: seq<Route>): RouteTable {
    map[ROOT := [TOP], A := rs, AB := [APART]]
  }

  lemma TableIsSingle(s: State, t: RouteTable)
    requires Reached(s, t) && forall n :: n in t ==> OnePerFace(t[n])
    ensures Single(s.rib)
  {
    forall n | n in s.rib
      ensures OnePerFace(s.rib[n].routes)
    {
      assert RoutesOf(s.rib)[n] == s.rib[n].routes;
    }
  }

  /** A new route of another origin or face can be registered at the root. */
  lemma RootIsFree(s: State, t: RouteTable, r: Route)
    requires Reached(s, t) && (ROOT in t ==> FindRoute(t[ROOT], r) == |t[ROOT]|)
    ensures Harmless(s.rib, Registering(ROOT, r)) && !Present(s.rib, Registering(ROOT, r))
  {
    if ROOT in s.rib {
      assert RoutesOf(s.rib)[ROOT] == s.rib[ROOT].routes;
    }
    hide Harmless;
    RootRegistrationIsHarmless(s.rib, r);
  }

  lemma AtRoot(r: Route) returns (states: seq<State>)
    ensures FromEmpty(states, [Registering(ROOT, r)]) && Reached(Last(states), map[ROOT := [r]])
  {
    states := Started();
    hide FromEmpty, Reached, Inv, Harmless, Present;
    RootIsFree(Last(states), map[], r);
    states := Registered(states, [], map[], ROOT, r);
    assert [] + [Registering(ROOT, r)] == [Registering(ROOT, r)];
    assert WithRoute(map[], ROOT, r) == map[ROOT := [r]] by {
      assert [] + [r] == [r];
    }
  }

  lemma OneMoreAtRoot(states: seq<State>, updates: seq<RibUpdate>, rs: seq<Route>, r: Route)
    returns (states': seq<State>)
    requires FromEmpty(states, updates) && Reached(Last(states), map[ROOT := rs]) && FindRoute(rs, r) == |rs|
    ensures FromEmpty(states', updates + [Registering(ROOT, r)]) && Reached(Last(states'), map[ROOT := rs + [r]])
  {
    hide FromEmpty, Reached, Inv, Harmless, Present, FindRoute;
    RootIsFree(Last(states), map[ROOT := rs], r);
    states' := Registered(states, updates, map[ROOT := rs], ROOT, r);
    assert WithRoute(map[ROOT := rs], ROOT, r) == map[ROOT := rs + [r]];
  }

  lemma TwoAtRoot(r: Route, q: Route) returns (states: seq<State>)
    requires r.origin != q.origin
    ensures FromEmpty(states, [Registering(ROOT, r), Registering(ROOT, q)])
            && Reached(Last(states), map[ROOT := [r, q]])
  {
    hide FromEmpty, Reached;
    assert FindRoute([r], q) == 1;
    states := AtRoot(r);
    states := OneMoreAtRoot(states, [Registering(ROOT, r)], [r], q);
    assert [Registering(ROOT, r)] + [Registering(ROOT, q)] == [Registering(ROOT, r), Registering(ROOT, q)]
        && [r] + [q] == [r, q];
  }

  lemma ThreeAtRoot(r: Route, q: Route, p: Route) returns (states: seq<State>)
    requires r.origin != q.origin && r.origin != p.origin && q.origin != p.origin
    ensures FromEmpty(states, [Registering(ROOT, r), Registering(ROOT, q), Registering(ROOT, p)])
    ensures Reached(Last(states), map[ROOT := [r, q, p]])
  {
    hide FromEmpty, Reached;
    assert [r, q][1..] == [q] && FindRoute([q], p) == 1 && FindRoute([r, q], p) == 2;
    states := TwoAtRoot(r, q);
    states := OneMoreAtRoot(states, [Registering(ROOT, r), Registering(ROOT, q)], [r, q], p);
    assert [Registering(ROOT, r), Registering(ROOT, q)] + [Registering(ROOT, p)]
           == [Registering(ROOT, r), Registering(ROOT, q), Registering(ROOT, p)];
    assert [r, q] + [p] == [r, q, p];
  }

  /** So can an absent name with one route on each face everywhere. */
  lemma NameIsFree(s: State, t: RouteTable, n: Name, r: Route)
    requires Reached(s, t) && n !in t && forall m :: m in t ==> OnePerFace(t[m])
    ensures Harmless(s.rib, Registering(n, r)) && !Present(s.rib, Registering(n, r))
  {
    TableIsSingle(s, t);
    assert n !in RoutesOf(s.rib);
    hide Harmless, Single;
    NewNameIsHarmless(s.rib, Registering(n, r));
  }

  lemma OneAtA(r: Route) returns (states: seq<State>)
    ensures FromEmpty(states, [Registering(ROOT, TOP), Registering(A, r)])
            && Reached(Last(states), map[ROOT := [TOP], A := [r]])
  {
    states := AtRoot(TOP);
    hide FromEmpty, Reached, Harmless, Present;
    NameIsFree(Last(states), map[ROOT := [TOP]], A, r);
    states := Registered(states, [Registering(ROOT, TOP)], map[ROOT := [TOP]], A, r);
    assert [Registering(ROOT, TOP)] + [Registering(A, r)] == [Registering(ROOT, TOP), Registering(A, r)];
    assert WithRoute(map[ROOT := [TOP]], A, r) == map[ROOT := [TOP], A := [r]] by {
      assert [] + [r] == [r];
    }
  }

  lemma TwoAtA(r: Route, q: Route) returns (states: seq<State>)
    requires q.faceId != r.faceId && q.faceId != 1 && (q.capture ==> r.capture)
    ensures FromEmpty(states, [Registering(ROOT, TOP), Registering(A, r), Registering(A, q)])
    ensures Reached(Last(states), map[ROOT := [TOP], A := [r, q]])
  {
    states := OneAtA(r);
    hide FromEmpty, Reached, Harmless, Present;
    var t, updates := map[ROOT := [TOP], A := [r]], [Registering(ROOT, TOP), Registering(A, r)];
    FaceIsFree(Last(states), t, r, q);
    states := Registered(states, updates, t, A, q);
    assert updates + [Registering(A, q)] == [Registering(ROOT, TOP), Registering(A, r), Registering(A, q)];
    assert WithRoute(t, A, q) == map[ROOT := [TOP], A := [r, q]] by {
      assert [r] + [q] == [r, q];
    }
  }

  lemma FaceIsFree(s: State, t: RouteTable, r: Route, q: Route)
    requires Reached(s, t) && ROOT in t && t[ROOT] == [TOP] && A in t && t[A] == [r]
    requires q.faceId != r.faceId && q.faceId != 1 && (q.capture ==> r.capture)
    ensures Harmless(s.rib, Registering(A, q)) && !Present(s.rib, Registering(A, q))
  {
    assert RoutesOf(s.rib)[A] == s.rib[A].routes;
    NotInherited(s, t, q.faceId);
    OfOne(r, q.faceId);
    assert SoundEntry(s.rib[A]);
    assert FindRoute([r], q) == 1;
    hide Harmless, Inv;
    FurtherRouteIsHarmless(s.rib, A, q);
  }

  /** The root offers face 1 only. */
  lemma NotInherited(s: State, t: RouteTable, f: FaceId)
    requires Reached(s, t) && ROOT in t && t[ROOT] == [TOP] && A in t && (f == 1 ==> HasFaceId(t[A], f))
    ensures A in s.rib && f !in s.rib[A].inherited
  {
    assert RoutesOf(s.rib)[A] == s.rib[A].routes;
    assert RecordOk(s.rib, A, f);
    ScanFacts(t[A], f);
    NextHopIs(t, A, f);
    InheritedIs(t, ROOT, f);
    OfOne(TOP, f);
    assert Up(A) == ROOT;
  }

  lemma NameBelow(states: seq<State>, updates: seq<RibUpdate>, rs: seq<Route>) returns (states': seq<State>)
    requires FromEmpty(states, updates) && Reached(Last(states), map[ROOT := [TOP], A := rs]) && OnePerFace(rs)
    ensures FromEmpty(states', updates + [Registering(AB, APART)]) && Reached(Last(states'), Below(rs))
  {
    hide FromEmpty, Reached, Harmless, Present, Inv;
    var t := map[ROOT := [TOP], A := rs];
    NameIsFree(Last(states), t, AB, APART);
    states' := Registered(states, updates, t, AB, APART);
    assert WithRoute(t, AB, APART) == Below(rs) by {
      assert [] + [APART] == [APART];
    }
  }

  lemma OneBelow(r: Route) returns (states: seq<State>)
    ensures FromEmpty(states, [Registering(ROOT, TOP), Registering(A, r), Registering(AB, APART)])
    ensures Reached(Last(states), Below([r]))
  {
    var updates := [Registering(ROOT, TOP), Registering(A, r)];
    hide FromEmpty, Reached;
    states := OneAtA(r);
    states := NameBelow(states, updates, [r]);
    assert updates + [Registering(AB, APART)] == [Registering(ROOT, TOP), Registering(A, r), Registering(AB, APART)];
  }

  lemma TwoBelow(r: Route, q: Route) returns (states: seq<State>)
    requires q.faceId != r.faceId && q.faceId != 1 && (q.capture ==> r.capture)
    ensures FromEmpty(states, [Registering(ROOT, TOP), Registering(A, r), Registering(A, q), Registering(AB, APART)])
    ensures Reached(Last(states), Below([r, q]))
  {
    var updates := [Registering(ROOT, TOP), Registering(A, r), Registering(A, q)];
    hide FromEmpty, Reached;
    states := TwoAtA(r, q);
    states := NameBelow(states, updates, [r, q]);
    assert updates + [Registering(AB, APART)] ==
           [Registering(ROOT, TOP), Registering(A, r), Registering(A, q), Registering(AB, APART)];
  }

  /** Face 1 comes to /a from the root, and from /a to /a/b. */
  lemma FaceOne(s: State, rs: seq<Route>, u: RibUpdate)
    requires Reached(s, Below(rs)) && u.name == A
    ensures A in s.rib && s.rib[A].routes == rs && s.rib[A].nCapture == CountCapture(rs)
    ensures Found(s.rib, A, 1) == Some(10) == Due(s.rib, A, 1)
    ensures Stray(s.rib, u, 1) ==> !Safe(s.rib, u, AB, 1)
  {
    EntryOf(s, Below(rs), ROOT);
    EntryOf(s, Below(rs), A);
    EntryOf(s, Below(rs), AB);
    hide Inv, Below, Stray, Sound;
    FromRoot(s.rib);
    if Stray(s.rib, u, 1) {
      OpenBelow(s.rib);
      OfOne(APART, 1);
    }
    hide Found, Due;
  }

  lemma EntryOf(s: State, t: RouteTable, n: Name)
    requires Reached(s, t) && n in t
    ensures n in s.rib && s.rib[n].routes == t[n] && s.rib[n].nCapture == CountCapture(t[n])
  {
    assert RoutesOf(s.rib)[n] == s.rib[n].routes;
    assert SoundEntry(s.rib[n]);
  }

  lemma FromRoot(rib: RibView)
    requires ROOT in rib && rib[ROOT].routes == [TOP]
    ensures Found(rib, A, 1) == Some(10) == Due(rib, A, 1)
  {
    assert Up(A) == ROOT;
    OfOne(TOP, 1);
    InheritedIs(RoutesOf(rib), ROOT, 1);
    assert RoutesOf(rib)[ROOT] == [TOP];
  }

  lemma OpenBelow(rib: RibView)
    requires AB in rib && rib[AB].routes == [APART] && rib[AB].nCapture == CountCapture([APART])
    ensures A < AB && Open(rib, A, AB, 1)
  {
    OfOne(APART, 1);
    forall q | q in rib && A < q <= AB
      ensures Clear(rib[q], 1)
    {
      assert q == AB;
    }
  }

  /** What an update at /a finds there. */
  ghost predicate There(rib: RibView, rs: seq<Route>) {
    && A in rib && rib[A].routes == rs && rib[A].nCapture == CountCapture(rs)
    && Found(rib, A, 1) == Some(10) == Due(rib, A, 1)
  }

  /** An update at /a that is stray on face 1 leaves a wrong next hop at /a/b. */
  lemma WrongBelowOne(r: Route, u: RibUpdate) returns (states: seq<State>)
    requires u.name == A && u.action != RemoveFace
    requires forall rib :: There(rib, [r]) ==> Stray(rib, u, 1) && !Crashes(rib, u)
    ensures EndsWrong(states, [Registering(ROOT, TOP), Registering(A, r), Registering(AB, APART), u], AB, 1)
  {
    hide FromEmpty, Safe, Stray, Crashes, EndsWrong;
    states := OneBelow(r);
    FaceOne(Last(states), [r], u);
    hide Reached, Inv, There;
    var updates := [Registering(ROOT, TOP), Registering(A, r), Registering(AB, APART)];
    states := GoesWrong(states, updates, u, AB, 1);
    assert updates + [u] == [Registering(ROOT, TOP), Registering(A, r), Registering(AB, APART), u];
  }

  lemma WrongBelowTwo(r: Route, q: Route, u: RibUpdate) returns (states: seq<State>)
    requires q.faceId != r.faceId && q.faceId != 1 && (q.capture ==> r.capture) && u.name == A && u.action != RemoveFace
    requires forall rib :: There(rib, [r, q]) ==> Stray(rib, u, 1) && !Crashes(rib, u)
    ensures EndsWrong(states, [Registering(ROOT, TOP), Registering(A, r), Registering(A, q), Registering(AB, APART), u],
                      AB, 1)
  {
    hide FromEmpty, Safe, Stray, Crashes, EndsWrong;
    states := TwoBelow(r, q);
    FaceOne(Last(states), [r, q], u);
    hide Reached, Inv, There;
    var updates := [Registering(ROOT, TOP), Registering(A, r), Registering(A, q), Registering(AB, APART)];
    states := GoesWrong(states, updates, u, AB, 1);
    assert updates + [u] == [Registering(ROOT, TOP), Registering(A, r), Registering(A, q), Registering(AB, APART), u];
  }

  // ---- Stray routes ----

  /** A sole route that captures goes, and what it blocked is not given back. */
  lemma CaptureErasureLosesRoutes() returns (states: seq<State>)
    ensures var c := On(2, 1, false, true);
            EndsWrong(states, [Registering(ROOT, TOP), Registering(A, c), Registering(AB, APART), Unregistering(A, c)],
                      AB, 1)
  {
    var c := On(2, 1, false, true);
    forall rib | There(rib, [c])
      ensures Stray(rib, Unregistering(A, c), 1)
    {
      assert FindRoute([c], c) == 0 && Erased([c], 0) == [];
      hide Found, Due;
    }
    states := WrongBelowOne(c, Unregistering(A, c));
  }

  /** Child inherit of a capturing route is turned off, and the ancestor's route is pushed past the capture. */
  lemma ChildInheritOffPassesCapture() returns (states: seq<State>)
    ensures var c := On(1, 3, true, true);
            EndsWrong(states, [Registering(ROOT, TOP), Registering(A, c), Registering(AB, APART),
                               Registering(A, c.(childInherit := false))], AB, 1)
  {
    var c, c' := On(1, 3, true, true), On(1, 3, false, true);
    forall rib | There(rib, [c])
      ensures Stray(rib, Registering(A, c'), 1)
    {
      assert FindRoute([c], c') == 0 && [c][0 := c'] == [c'];
      OfOne(c, 1);
      OfOne(c', 1);
      hide Found, Due, Lowest, FindRoute;
    }
    states := WrongBelowOne(c, Registering(A, c'));
  }

  /** Capture is turned on, and what the entry itself offers on an ancestor's face is removed below. */
  lemma CaptureOnRemovesOwnOffer() returns (states: seq<State>)
    ensures var p, q := On(1, 3, true, false), On(2, 1, false, false);
            EndsWrong(states, [Registering(ROOT, TOP), Registering(A, p), Registering(A, q), Registering(AB, APART),
                               Registering(A, q.(capture := true))], AB, 1)
  {
    var p, q, q' := On(1, 3, true, false), On(2, 1, false, false), On(2, 1, false, true);
    forall rib | There(rib, [p, q])
      ensures Stray(rib, Registering(A, q'), 1)
    {
      assert [p, q][1..] == [q] && FindRoute([q], q') == 0;
      assert FindRoute([p, q], q') == 1 && [p, q][1 := q'] == [p, q'];
      OfOne(p, 1);
      OfTwo(p, q, 1);
      OfTwo(p, q', 1);
      hide Found, Due, Lowest, FindRoute;
    }
    states := WrongBelowTwo(p, q, Registering(A, q'));
  }

  /** A new route that captures does the same. */
  lemma NewCaptureRemovesOwnOffer() returns (states: seq<State>)
    ensures var p, q := On(1, 3, true, false), On(2, 1, false, true);
            EndsWrong(states, [Registering(ROOT, TOP), Registering(A, p), Registering(AB, APART), Registering(A, q)],
                      AB, 1)
  {
    var p, q := On(1, 3, true, false), On(2, 1, false, true);
    forall rib | There(rib, [p])
      ensures Stray(rib, Registering(A, q), 1)
    {
      assert FindRoute([p], q) == 1;
      OfOne(p, 1);
      hide Found, Due, Lowest, FindRoute;
    }
    states := WrongBelowOne(p, Registering(A, q));
  }

  /** Capture of one of two capturing routes is turned off, and the ancestor's route is pushed past the other one. */
  lemma CaptureOffPassesCapture() returns (states: seq<State>)
    ensures var p, q := On(2, 1, false, true), On(3, 1, false, true);
            EndsWrong(states, [Registering(ROOT, TOP), Registering(A, p), Registering(A, q), Registering(AB, APART),
                               Registering(A, p.(capture := false))], AB, 1)
  {
    var p, q, p' := On(2, 1, false, true), On(3, 1, false, true), On(2, 1, false, false);
    forall rib | There(rib, [p, q])
      ensures Stray(rib, Registering(A, p'), 1)
    {
      assert FindRoute([p, q], p') == 0 && [p, q][0 := p'] == [p', q];
      OfOne(p', 1);
      OfOne(p, 1);
      OfTwo(p', q, 1);
      OfTwo(p, q, 1);
      hide Found, Due, Lowest, FindRoute, CountCapture;
    }
    states := WrongBelowTwo(p, q, Registering(A, p'));
  }

  /** A route that inherits goes, and the ancestor's route is pushed over the one the entry still offers on its face. */
  lemma ErasureOverridesOwnOffer() returns (states: seq<State>)
    ensures var p, q := On(1, 3, true, false), On(2, 1, true, false);
            EndsWrong(states, [Registering(ROOT, TOP), Registering(A, p), Registering(A, q), Registering(AB, APART),
                               Unregistering(A, q)], AB, 1)
  {
    var p, q := On(1, 3, true, false), On(2, 1, true, false);
    forall rib | There(rib, [p, q])
      ensures Stray(rib, Unregistering(A, q), 1)
    {
      assert [p, q][1..] == [q] && FindRoute([q], q) == 0;
      assert FindRoute([p, q], q) == 1 && Erased([p, q], 1) == [p];
      OfOne(p, 1);
      OfOne(p, 2);
      OfTwo(p, q, 1);
      hide Found, Due, Lowest, FindRoute, CountCapture, Erased;
    }
    states := WrongBelowTwo(p, q, Unregistering(A, q));
  }

  // ---- Records that stay behind ----

  /** A second route of a name, on the face it inherits: the face stays recorded as inherited. */
  lemma NewRouteStaysRecorded() returns (states: seq<State>)
    ensures var p, q := On(2, 1, false, false), On(1, 3, false, false);
            EndsUnrecorded(states, [Registering(ROOT, TOP), Registering(A, p), Registering(A, q)], A, 1)
  {
    var p, q := On(2, 1, false, false), On(1, 3, false, false);
    states := OneAtA(p);
    RecordedAtA(Last(states), p);
    assert FindRoute([p], q) == 1;
    hide FromEmpty, EndsUnrecorded, Inv, Crashes, FindRoute;
    var updates := [Registering(ROOT, TOP), Registering(A, p)];
    states := LeavesRecord(states, updates, Registering(A, q), 1);
    assert updates + [Registering(A, q)] == [Registering(ROOT, TOP), Registering(A, p), Registering(A, q)];
  }

  lemma RecordedAtA(s: State, p: Route)
    requires Reached(s, map[ROOT := [TOP], A := [p]]) && p.faceId != 1 && !p.capture
    ensures A in s.rib && s.rib[A].routes == [p] && 1 in s.rib[A].inherited
  {
    var t := map[ROOT := [TOP], A := [p]];
    EntryOf(s, t, A);
    assert RecordOk(s.rib, A, 1);
    OfOne(p, 1);
    OfOne(TOP, 1);
    NextHopIs(t, A, 1);
    InheritedIs(t, ROOT, 1);
    assert Up(A) == ROOT;
  }

  /** One of two origins on an inherited face goes: the face is recorded as inherited beside the route that is left. */
  lemma ErasureRecordsOwnFace() returns (states: seq<State>)
    ensures var r, q := Of(0, 1, false), Of(1, 2, false);
            EndsUnrecorded(states, [Registering(ROOT, TOP), Registering(A, r), Registering(A, q), Unregistering(A, r)],
                           A, 1)
  {
    var r, q := Of(0, 1, false), Of(1, 2, false);
    var updates := [Registering(ROOT, TOP), Registering(A, r), Registering(A, q)];
    states := TwoOriginsAtA(r, q);
    OriginLeft(Last(states), r, q);
    hide FromEmpty, EndsUnrecorded, Reached, Inv, Crashes, Stale, Overgranted;
    states := LeavesRecord(states, updates, Unregistering(A, r), 1);
    assert updates + [Unregistering(A, r)] ==
           [Registering(ROOT, TOP), Registering(A, r), Registering(A, q), Unregistering(A, r)];
  }

  lemma TwoOriginsAtA(r: Route, q: Route) returns (states: seq<State>)
    requires r.faceId == 1 == q.faceId && r.origin != q.origin && !r.capture && !q.capture
    ensures FromEmpty(states, [Registering(ROOT, TOP), Registering(A, r), Registering(A, q)])
    ensures Reached(Last(states), map[ROOT := [TOP], A := [r, q]])
  {
    states := OneAtA(r);
    hide FromEmpty, Reached, Harmless, Present;
    var t, updates := map[ROOT := [TOP], A := [r]], [Registering(ROOT, TOP), Registering(A, r)];
    OriginIsFree(Last(states), t, r, q);
    states := Registered(states, updates, t, A, q);
    assert updates + [Registering(A, q)] == [Registering(ROOT, TOP), Registering(A, r), Registering(A, q)];
    assert WithRoute(t, A, q) == map[ROOT := [TOP], A := [r, q]] by {
      assert [r] + [q] == [r, q];
    }
  }

  lemma OriginIsFree(s: State, t: RouteTable, r: Route, q: Route)
    requires Reached(s, t) && ROOT in t && t[ROOT] == [TOP] && A in t && t[A] == [r]
    requires r.faceId == 1 == q.faceId && r.origin != q.origin && !q.capture
    ensures Harmless(s.rib, Registering(A, q)) && !Present(s.rib, Registering(A, q))
  {
    EntryOf(s, t, A);
    OfOne(r, 1);
    NotInherited(s, t, 1);
    assert FindRoute([r], q) == 1;
    hide Harmless, Inv;
    FurtherRouteIsHarmless(s.rib, A, q);
  }

  lemma OriginLeft(s: State, r: Route, q: Route)
    requires Reached(s, map[ROOT := [TOP], A := [r, q]])
    requires r == Of(0, 1, false) && q == Of(1, 2, false)
    ensures Stale(s.rib, Unregistering(A, r), 1) && !Overgranted(s.rib, Unregistering(A, r), 1)
  {
    EntryOf(s, map[ROOT := [TOP], A := [r, q]], ROOT);
    EntryOf(s, map[ROOT := [TOP], A := [r, q]], A);
    FromRoot(s.rib);
    assert FindRoute([r, q], r) == 0;
    OneLeft(s.rib[A], r, q);
    hide Reached, Found, Due, FindRoute, StaleErased, OverErased;
  }

  lemma OneLeft(e: Entry, r: Route, q: Route)
    requires e.routes == [r, q] && e.nCapture == CountCapture([r, q]) && r == Of(0, 1, false) && q == Of(1, 2, false)
    ensures StaleErased(e, 0, 1, Some(10)) && !OverErased(e, 0, 1, Some(10), Some(10))
  {
    assert Erased([r, q], 0) == [q];
    OfOne(r, 1);
    OfOne(q, 1);
    OfTwo(r, q, 1);
    SecondOfTwo(r, q, 1);
    hide Lowest, SecondLowest, Erased, CountCapture;
  }

  // ---- A capture count that is not kept ----

  /**
   A plain route at /a is registered again with capture: FIB and records stay right, but the entry's count of capturing
   routes stays 0. A name registered below then gets, past the capturing entry, a next hop that is not due.
   */
  lemma StaleCountMisleads() returns (states: seq<State>)
    ensures var p := On(2, 1, false, false);
            && EndsWrong(states, [Registering(ROOT, TOP), Registering(A, p), Registering(A, p.(capture := true)),
                                  Registering(AB, APART)], AB, 1)
            && Inv(states[2]) && TogglesCapture(states[2].rib, Registering(A, p.(capture := true)))
  {
    var p := On(2, 1, false, false);
    var c := p.(capture := true);
    var first, second := [Registering(ROOT, TOP), Registering(A, p)],
        [Registering(ROOT, TOP), Registering(A, p), Registering(A, c)];
    var s0 := OneAtA(p);
    var s := CaptureCounted(s0, first, p);
    assert first + [Registering(A, c)] == second;
    var s' := PastCapture(s0 + [s], second, s, c);
    states := s0 + [s] + [s'];
    assert second + [Registering(AB, APART)] ==
           [Registering(ROOT, TOP), Registering(A, p), Registering(A, c), Registering(AB, APART)];
    hide Inv, Exact, Lookup, NextHop, TogglesCapture, Step, There;
  }

  lemma CaptureCounted(states: seq<State>, updates: seq<RibUpdate>, p: Route) returns (s': State)
    requires FromEmpty(states, updates) && Reached(Last(states), map[ROOT := [TOP], A := [p]])
    requires p.faceId != 1 && !p.childInherit && !p.capture
    ensures FromEmpty(states + [s'], updates + [Registering(A, p.(capture := true))]) && Exact(s')
    ensures TogglesCapture(Last(states).rib, Registering(A, p.(capture := true)))
    ensures ROOT in s'.rib && A in s'.rib && AB !in s'.rib && s'.rib[ROOT].routes == [TOP]
    ensures s'.rib[A].routes == [p.(capture := true)] && s'.rib[A].nCapture == 0
  {
    var s, u := Last(states), Registering(A, p.(capture := true));
    EntryOf(s, map[ROOT := [TOP], A := [p]], ROOT);
    EntryOf(s, map[ROOT := [TOP], A := [p]], A);
    assert AB !in RoutesOf(s.rib);
    OfOne(p, 1);
    assert FindRoute([p], u.route) == 0 && [p][0 := u.route] == [u.route];
    CaptureOnIsHarmless(s.rib, A, p);
    s' := Extended(states, updates, u);
    hide FromEmpty, Harmless, Exact, Inv;
    StepIsExactlyHarmless(s, u, s');
  }

  lemma PastCapture(states: seq<State>, updates: seq<RibUpdate>, s: State, c: Route) returns (s': State)
    requires FromEmpty(states, updates) && Last(states) == s && Exact(s)
    requires ROOT in s.rib && A in s.rib && AB !in s.rib && s.rib[ROOT].routes == [TOP]
    requires s.rib[A].routes == [c] && s.rib[A].nCapture == 0 && c.capture && !c.childInherit
    ensures FromEmpty(states + [s'], updates + [Registering(AB, APART)])
    ensures Lookup(s'.fib, AB, 1) != NextHop(RoutesOf(s'.rib), AB, 1)
  {
    s' := Extended(states, updates, Registering(AB, APART));
    hide FromEmpty;
    PastTheCapture(s.rib, c);
    BehindTheCapture(RoutesOf(s'.rib), c);
  }

  lemma PastTheCapture(rib: RibView, c: Route)
    requires ROOT in rib && A in rib && AB !in rib && rib[ROOT].routes == [TOP]
    requires rib[A].routes == [c] && rib[A].nCapture == 0 && !c.childInherit
    ensures Delta(rib, Registering(AB, APART), AB, 1).pending == Some(Add(10))
  {
    assert Up(AB) == A && Up(A) == ROOT;
    OfOne(TOP, 1);
    OfOne(c, 1);
    assert Offer(rib, ROOT, 1) == Some(TOP);
    assert Offer(rib, A, 1) == Some(TOP);
  }

  lemma BehindTheCapture(t: RouteTable, c: Route)
    requires A in t && AB in t && t[A] == [c] && t[AB] == [APART] && c.capture && !c.childInherit
    ensures NextHop(t, AB, 1) == None
  {
    assert Up(AB) == A;
    NextHopIs(t, AB, 1);
    InheritedIs(t, A, 1);
    OfOne(APART, 1);
    OfOne(c, 1);
  }

  // ---- Several origins ----

  /** The root finds nothing above it. */
  lemma NothingAbove(rib: RibView, f: FaceId)
    ensures Found(rib, ROOT, f) == None == Due(rib, ROOT, f)
  {
  }

  /** Two routes inherit on one face, the dearer one first: a name registered below gets the first one's cost. */
  lemma SecondOriginMisleads() returns (states: seq<State>)
    ensures var r, q := Of(0, 5, true), Of(1, 3, true);
            EndsWrong(states, [Registering(ROOT, r), Registering(ROOT, q), Registering(A, APART)], A, 1)
  {
    var r, q := Of(0, 5, true), Of(1, 3, true);
    states := TwoAtRoot(r, q);
    FirstIsNotCheapest(Last(states), r, q);
    hide FromEmpty, EndsWrong, Safe, Crashes, Inv;
    states := GoesWrong(states, [Registering(ROOT, r), Registering(ROOT, q)], Registering(A, APART), A, 1);
    assert [Registering(ROOT, r), Registering(ROOT, q)] + [Registering(A, APART)]
           == [Registering(ROOT, r), Registering(ROOT, q), Registering(A, APART)];
  }

  lemma FirstIsNotCheapest(s: State, r: Route, q: Route)
    requires Reached(s, map[ROOT := [r, q]]) && r == Of(0, 5, true) && q == Of(1, 3, true)
    ensures !Safe(s.rib, Registering(A, APART), A, 1) && !Crashes(s.rib, Registering(A, APART))
  {
    EntryOf(s, map[ROOT := [r, q]], ROOT);
    assert A !in RoutesOf(s.rib);
    FirstAndCheapest(s.rib, r, q);
    hide Reached, Found, Due;
  }

  /** The same below a new name that inherits on another face. */
  lemma SecondOriginIsPushedOn() returns (states: seq<State>)
    ensures var r, q, p := Of(0, 5, true), Of(1, 3, true), On(8, 1, true, false);
            EndsWrong(states, [Registering(ROOT, r), Registering(AB, APART), Registering(ROOT, q), Registering(A, p)],
                      AB, 1)
  {
    var r, q, p := Of(0, 5, true), Of(1, 3, true), On(8, 1, true, false);
    var updates := [Registering(ROOT, r), Registering(AB, APART), Registering(ROOT, q)];
    states := OriginAfterName(r, q);
    PushedOn(Last(states), r, q, p);
    hide FromEmpty, EndsWrong, Safe, Crashes, Inv;
    states := GoesWrong(states, updates, Registering(A, p), AB, 1);
    assert updates + [Registering(A, p)]
           == [Registering(ROOT, r), Registering(AB, APART), Registering(ROOT, q), Registering(A, p)];
  }

  lemma OriginAfterName(r: Route, q: Route) returns (states: seq<State>)
    requires r.origin != q.origin
    ensures FromEmpty(states, [Registering(ROOT, r), Registering(AB, APART), Registering(ROOT, q)])
    ensures Reached(Last(states), map[ROOT := [r, q], AB := [APART]])
  {
    hide FromEmpty, Reached, Harmless, Present, Inv;
    states := AtRoot(r);
    NameIsFree(Last(states), map[ROOT := [r]], AB, APART);
    states := Registered(states, [Registering(ROOT, r)], map[ROOT := [r]], AB, APART);
    assert [Registering(ROOT, r)] + [Registering(AB, APART)] == [Registering(ROOT, r), Registering(AB, APART)];
    var t := map[ROOT := [r], AB := [APART]];
    assert WithRoute(map[ROOT := [r]], AB, APART) == t by {
      assert [] + [APART] == [APART];
    }
    assert FindRoute([r], q) == 1;
    RootIsFree(Last(states), t, q);
    states := Registered(states, [Registering(ROOT, r), Registering(AB, APART)], t, ROOT, q);
    assert [Registering(ROOT, r), Registering(AB, APART)] + [Registering(ROOT, q)]
           == [Registering(ROOT, r), Registering(AB, APART), Registering(ROOT, q)];
    assert WithRoute(t, ROOT, q) == map[ROOT := [r, q], AB := [APART]] by {
      assert [r] + [q] == [r, q];
    }
  }

  lemma PushedOn(s: State, r: Route, q: Route, p: Route)
    requires Reached(s, map[ROOT := [r, q], AB := [APART]])
    requires r == Of(0, 5, true) && q == Of(1, 3, true) && p == On(8, 1, true, false)
    ensures !Safe(s.rib, Registering(A, p), AB, 1) && !Crashes(s.rib, Registering(A, p)) && Inv(s)
  {
    EntryOf(s, map[ROOT := [r, q], AB := [APART]], ROOT);
    EntryOf(s, map[ROOT := [r, q], AB := [APART]], AB);
    assert A !in RoutesOf(s.rib);
    OfOne(APART, 1);
    OpenBelow(s.rib);
    FirstAndCheapest(s.rib, r, q);
    hide Inv, Found, Due, Open, Lowest;
  }

  lemma FirstAndCheapest(rib: RibView, r: Route, q: Route)
    requires ROOT in rib && rib[ROOT].routes == [r, q] && r == Of(0, 5, true) && q == Of(1, 3, true)
    ensures Found(rib, A, 1) == Some(5) && Due(rib, A, 1) == Some(3)
  {
    assert Up(A) == ROOT;
    OfOne(r, 1);
    OfOne(q, 1);
    OfTwo(r, q, 1);
    InheritedIs(RoutesOf(rib), ROOT, 1);
    assert RoutesOf(rib)[ROOT] == [r, q];
    hide Lowest, FirstInherit;
  }

  /** The dearest of three routes on a face goes, and the next hop with it. */
  lemma ErasedOriginLosesHop() returns (states: seq<State>)
    ensures var r, q, p := Of(0, 1, false), Of(1, 5, false), Of(2, 9, false);
            && EndsWrong(states, [Registering(ROOT, r), Registering(ROOT, q), Registering(ROOT, p),
                                  Unregistering(ROOT, p)], ROOT, 1)
            && Lookup(states[4].fib, ROOT, 1) == None
  {
    var r, q, p := Of(0, 1, false), Of(1, 5, false), Of(2, 9, false);
    states := ThreeAtRoot(r, q, p);
    LosesHop(Last(states), r, q, p);
    var updates := [Registering(ROOT, r), Registering(ROOT, q), Registering(ROOT, p)];
    hide EndsWrong, Safe, Crashes, Inv, Delta, Reached, Run;
    var before := states;
    states := GoesWrong(states, updates, Unregistering(ROOT, p), ROOT, 1);
    RemovedHop(before, updates, Unregistering(ROOT, p), states, ROOT, 1);
    assert updates + [Unregistering(ROOT, p)]
           == [Registering(ROOT, r), Registering(ROOT, q), Registering(ROOT, p), Unregistering(ROOT, p)];
  }

  lemma RemovedHop(states: seq<State>, updates: seq<RibUpdate>, u: RibUpdate, states': seq<State>, d: Name, f: FaceId)
    requires FromEmpty(states, updates) && EndsWrong(states', updates + [u], d, f)
            && states' == states + [Last(states')]
    requires Delta(Last(states).rib, u, d, f).pending == Some(Remove)
    ensures |states'| == |updates| + 2 && Lookup(states'[|updates| + 1].fib, d, f) == None
  {
    assert Step(states'[|updates|], (updates + [u])[|updates|], states'[|updates| + 1]);
    hide Delta, TreeOk, Crashes, RibAfter, Exact, NextHop;
  }

  lemma LosesHop(s: State, r: Route, q: Route, p: Route)
    requires Reached(s, map[ROOT := [r, q, p]]) && r == Of(0, 1, false) && q == Of(1, 5, false) && p == Of(2, 9, false)
    ensures !Safe(s.rib, Unregistering(ROOT, p), ROOT, 1) && !Crashes(s.rib, Unregistering(ROOT, p))
    ensures Delta(s.rib, Unregistering(ROOT, p), ROOT, 1).pending == Some(Remove)
  {
    EntryOf(s, map[ROOT := [r, q, p]], ROOT);
    NothingAbove(s.rib, 1);
    assert [r, q, p][1..] == [q, p] && [q, p][1..] == [p] && FindRoute([p], p) == 0 && FindRoute([q, p], p) == 1;
    assert FindRoute([r, q, p], p) == 2 && Erased([r, q, p], 2) == [r, q];
    OfOne(r, 1);
    OfTwo(r, q, 1);
    SecondOfThree(r, q, p, 1);
    ErasedSelfDelta(s.rib, Unregistering(ROOT, p), 1);
    hide Reached, Lowest, SecondLowest, FindRoute, Erased, CountCapture, Delta;
  }

  /**
   The cheapest of three routes on a face is made the dearest, and the next hop becomes not the cheapest that is left.
   */
  lemma CostRaisePicksWrongRoute() returns (states: seq<State>)
    ensures var r, q, p := Of(0, 1, false), Of(1, 5, false), Of(2, 8, true);
            EndsWrong(states, [Registering(ROOT, r), Registering(ROOT, q), Registering(ROOT, p),
                               Registering(ROOT, Of(0, 10, false))], ROOT, 1)
  {
    var r, q, p, r' := Of(0, 1, false), Of(1, 5, false), Of(2, 8, true), Of(0, 10, false);
    states := ThreeAtRoot(r, q, p);
    PicksWrongRoute(Last(states), r, q, p, r');
    var updates := [Registering(ROOT, r), Registering(ROOT, q), Registering(ROOT, p)];
    hide FromEmpty, EndsWrong, Safe, Crashes, Inv;
    states := GoesWrong(states, updates, Registering(ROOT, r'), ROOT, 1);
    assert updates + [Registering(ROOT, r')]
           == [Registering(ROOT, r), Registering(ROOT, q), Registering(ROOT, p), Registering(ROOT, r')];
  }

  lemma PicksWrongRoute(s: State, r: Route, q: Route, p: Route, r': Route)
    requires Reached(s, map[ROOT := [r, q, p]]) && r == Of(0, 1, false) && q == Of(1, 5, false) && p == Of(2, 8, true)
    requires r' == Of(0, 10, false)
    ensures !Safe(s.rib, Registering(ROOT, r'), ROOT, 1) && !Crashes(s.rib, Registering(ROOT, r'))
  {
    EntryOf(s, map[ROOT := [r, q, p]], ROOT);
    NothingAbove(s.rib, 1);
    assert FindRoute([r, q, p], r') == 0 && [r, q, p][0 := r'] == [r', q, p];
    OfOne(r', 1);
    OfTwo(r', q, 1);
    OfThree(r', q, p, 1);
    hide Reached, Lowest, FindRoute, CountCapture;
  }

  /** Of three routes the middle one goes, the dearest inherits: the names below are given the route that just went. */
  lemma ErasedRouteIsPushed() returns (states: seq<State>)
    ensures var r, q, p := Of(0, 1, false), Of(1, 5, true), Of(2, 9, true);
            EndsWrong(states, [Registering(ROOT, r), Registering(ROOT, q), Registering(ROOT, p), Registering(A, APART),
                               Unregistering(ROOT, q)], A, 1)
  {
    var r, q, p := Of(0, 1, false), Of(1, 5, true), Of(2, 9, true);
    var updates := [Registering(ROOT, r), Registering(ROOT, q), Registering(ROOT, p), Registering(A, APART)];
    hide EndsWrong, Safe, Crashes, Inv, FromEmpty, Reached;
    states := NameBelowThree(r, q, p);
    PushesErased(Last(states), r, q, p);
    states := GoesWrong(states, updates, Unregistering(ROOT, q), A, 1);
    assert updates + [Unregistering(ROOT, q)]
           == [Registering(ROOT, r), Registering(ROOT, q), Registering(ROOT, p), Registering(A, APART),
               Unregistering(ROOT, q)];
  }

  lemma NameBelowThree(r: Route, q: Route, p: Route) returns (states: seq<State>)
    requires r == Of(0, 1, false) && q == Of(1, 5, true) && p == Of(2, 9, true)
    ensures FromEmpty(states, [Registering(ROOT, r), Registering(ROOT, q), Registering(ROOT, p), Registering(A, APART)])
    ensures Reached(Last(states), map[ROOT := [r, q, p], A := [APART]])
  {
    var updates, t := [Registering(ROOT, r), Registering(ROOT, q), Registering(ROOT, p)], map[ROOT := [r, q, p]];
    hide Inv, Harmless, Present, FromEmpty, Reached;
    states := ThreeAtRoot(r, q, p);
    BelowThree(Last(states), r, q, p);
    states := Registered(states, updates, t, A, APART);
    assert updates + [Registering(A, APART)]
           == [Registering(ROOT, r), Registering(ROOT, q), Registering(ROOT, p), Registering(A, APART)];
    assert WithRoute(t, A, APART) == map[ROOT := [r, q, p], A := [APART]] by {
      assert [] + [APART] == [APART];
    }
  }

  lemma BelowThree(s: State, r: Route, q: Route, p: Route)
    requires Reached(s, map[ROOT := [r, q, p]]) && r == Of(0, 1, false) && q == Of(1, 5, true) && p == Of(2, 9, true)
    ensures Harmless(s.rib, Registering(A, APART)) && !Present(s.rib, Registering(A, APART))
  {
    EntryOf(s, map[ROOT := [r, q, p]], ROOT);
    assert A !in RoutesOf(s.rib) && Up(A) == ROOT;
    forall f
      ensures Found(s.rib, A, f) == Due(s.rib, A, f)
    {
      OfOne(r, f);
      OfOne(q, f);
      OfOne(p, f);
      OfTwo(r, q, f);
      OfThree(r, q, p, f);
      InheritedIs(RoutesOf(s.rib), ROOT, f);
      assert RoutesOf(s.rib)[ROOT] == [r, q, p];
      hide Reached, Lowest, FirstInherit;
    }
    hide Found, Due, Harmless;
    NewNameHarmlessExactly(s.rib, Registering(A, APART));
  }

  lemma PushesErased(s: State, r: Route, q: Route, p: Route)
    requires Reached(s, map[ROOT := [r, q, p], A := [APART]]) && r == Of(0, 1, false) && q == Of(1, 5, true)
            && p == Of(2, 9, true)
    ensures !Safe(s.rib, Unregistering(ROOT, q), A, 1) && !Crashes(s.rib, Unregistering(ROOT, q)) && Inv(s)
  {
    var t := map[ROOT := [r, q, p], A := [APART]];
    EntryOf(s, t, ROOT);
    EntryOf(s, t, A);
    NothingAbove(s.rib, 1);
    OpenAtA(s.rib);
    assert [r, q, p][1..] == [q, p] && FindRoute([q, p], q) == 0;
    assert FindRoute([r, q, p], q) == 1 && Erased([r, q, p], 1) == [r, p];
    OfOne(APART, 1);
    OfOne(r, 1);
    OfTwo(r, p, 1);
    SecondOfThree(r, q, p, 1);
    hide Inv, Lowest, SecondLowest, FindRoute, Erased, CountCapture, Open;
  }

  lemma OpenAtA(rib: RibView)
    requires A in rib && rib[A].routes == [APART] && rib[A].nCapture == CountCapture([APART])
    ensures ROOT < A && Open(rib, ROOT, A, 1)
  {
    OfOne(APART, 1);
    forall q | q in rib && ROOT < q <= A
      ensures Clear(rib[q], 1)
    {
      assert q == A;
    }
  }

  /**
   Routes of cost 1 and 5 on one face, neither inheriting: raising the cheaper one to 10 dereferences a null pointer.
   */
  lemma CrashIsReached() returns (states: seq<State>)
    ensures FromEmpty(states, [Registering(ROOT, Of(0, 1, false)), Registering(ROOT, Of(1, 5, false))])
    ensures Inv(Last(states)) && Crashes(Last(states).rib, Registering(ROOT, Of(0, 10, false)))
  {
    var r, q, u := Of(0, 1, false), Of(1, 5, false), Registering(ROOT, Of(0, 10, false));
    states := TwoAtRoot(r, q);
    hide FromEmpty;
    EntryOf(Last(states), map[ROOT := [r, q]], ROOT);
    assert FindRoute([r, q], u.route) == 0;
    CrashesExactly(Last(states).rib, u);
    assert OtherOnFace([r, q], 0, u.route, 1);
    hide Inv, Crashes;
  }
}
