/**
 The incremental FIB updates refine the FIB computed from scratch. `Step` is one acknowledged batch;
 `Harmless` is the exact set of updates that keep FIB and inherited records right.
 */
module FibRefinement {
  import opened Wrappers
  import opened Routes
  import opened RibTree
  import opened FibDeltas
  import opened FibSpec
  import opened EntryUpdates

  // Next hop costs of the forwarder's FIB.
  type Fib = map<(Name, FaceId), nat>

  datatype State = State(rib: RibView, fib: Fib)

  function Lookup(fib: Fib, d: Name, f: FaceId): Option<nat> {
    if (d, f) in fib then Some(fib[(d, f)]) else None
  }

  function RoutesOf(rib: RibView): RouteTable {
    map n | n in rib :: rib[n].routes
  }

  // ---- The invariant ----

  ghost predicate SoundEntry(e: Entry) {
    e.routes != [] && e.nCapture == CountCapture(e.routes)
  }

  ghost predicate Sound(rib: RibView) {
    forall n :: n in rib ==> SoundEntry(rib[n])
  }

  /** f is recorded as inherited at d just when d has its next hop on f from an ancestor. */
  ghost predicate RecordOk(rib: RibView, d: Name, f: FaceId)
    requires d in rib
  {
    f in rib[d].inherited <==> !HasFaceId(rib[d].routes, f) && NextHop(RoutesOf(rib), d, f).Some?
  }

  ghost predicate RecordsOk(rib: RibView) {
    forall d, f :: d in rib ==> RecordOk(rib, d, f)
  }

  ghost predicate FibOk(s: State) {
    forall d, f :: Lookup(s.fib, d, f) == NextHop(RoutesOf(s.rib), d, f)
  }

  /** FIB and inherited records are those the routes call for. */
  ghost predicate Exact(s: State) {
    RecordsOk(s.rib) && FibOk(s)
  }

  ghost predicate Inv(s: State) {
    TreeOk(s.rib) && Sound(s.rib) && Exact(s)
  }

  // ---- One acknowledged batch ----

  /** rib' has the routes and capture counts of rib except at n. */
  ghost predicate Elsewhere(rib: RibView, rib': RibView, n: Name) {
    forall m :: m != n ==>
      && (m in rib <==> m in rib')
      && (m in rib ==> rib[m].routes == rib'[m].routes && rib[m].nCapture == rib'[m].nCapture)
  }

  /** What Rib::insert and Rib::erase do to routes and capture counts. */
  ghost predicate RibAfter(rib: RibView, u: RibUpdate, rib': RibView) {
    var n := u.name;
    && Elsewhere(rib, rib', n)
    && var i := if n in rib then FindRoute(rib[n].routes, u.route) else 0;
       if u.action == Register then
         && n in rib'
         && (if n !in rib then
               rib'[n].routes == [u.route] && rib'[n].nCapture == if u.route.capture then 1 else 0
             else if i < |rib[n].routes| then
               rib'[n].routes == rib[n].routes[i := u.route] && rib'[n].nCapture == rib[n].nCapture
             else
               rib'[n].routes == rib[n].routes + [u.route]
               && rib'[n].nCapture == rib[n].nCapture + if u.route.capture then 1 else 0)
       else if n !in rib || i == |rib[n].routes| then
         && (n in rib <==> n in rib')
         && (n in rib ==> rib'[n].routes == rib[n].routes && rib'[n].nCapture == rib[n].nCapture)
       else
         && (n in rib' <==> |rib[n].routes| > 1)
         && (n in rib' ==>
               rib'[n].routes == EraseAt(rib[n], i).routes && rib'[n].nCapture == EraseAt(rib[n], i).nCapture)
  }

  /** f is recorded as inherited at d once Rib::modifyInheritedRoutes has run. */
  ghost predicate RecordedAfter(rib: RibView, u: RibUpdate, d: Name, f: FaceId) {
    match Delta(rib, u, d, f).record
    case Some(b) => b
    case None => d in rib && f in rib[d].inherited
  }

  /** The updater's commands have been carried out and the RIB has been changed. */
  ghost predicate Acknowledged(s: State, u: RibUpdate, s': State) {
    && !Crashes(s.rib, u)
    && TreeOk(s'.rib)
    && RibAfter(s.rib, u, s'.rib)
    && (forall d, f :: d in s'.rib ==> (f in s'.rib[d].inherited <==> RecordedAfter(s.rib, u, d, f)))
    && (forall d, f :: Lookup(s'.fib, d, f) == Applied(Lookup(s.fib, d, f), Delta(s.rib, u, d, f).pending))
  }

  /** A batch that registers or unregisters a route; FaceRemoval is about the others. */
  ghost predicate Step(s: State, u: RibUpdate, s': State) {
    u.action != RemoveFace && Acknowledged(s, u, s')
  }

  // ---- When the code meets the specification ----

  /** The update concerns a route the entry already has. */
  predicate Present(rib: RibView, u: RibUpdate) {
    u.name in rib && FindRoute(rib[u.name].routes, u.route) < |rib[u.name].routes|
  }

  /** The route that u.name has, or had, where u re-registers or unregisters one. */
  function Existing(rib: RibView, u: RibUpdate): Route
    requires Present(rib, u)
  {
    rib[u.name].routes[FindRoute(rib[u.name].routes, u.route)]
  }

  // The cost getAncestorRoutes finds for f at n, and the one due there.
  ghost function Found(rib: RibView, n: Name, f: FaceId): Option<nat> {
    CostOf(Ancestor(rib, n, f))
  }

  ghost function Due(rib: RibView, n: Name, f: FaceId): Option<nat> {
    Above(RoutesOf(rib), n, f)
  }

  /** The routes pushed for face f are not the ones the names below should now inherit. */
  ghost predicate Stray(rib: RibView, u: RibUpdate, f: FaceId) {
    var above, due := Found(rib, u.name, f), Due(rib, u.name, f);
    if u.name !in rib then u.action == Register && StrayNewName(u.route, f, above, due)
    else if !Present(rib, u) then u.action == Register && StrayNewRoute(rib[u.name], u.route, f, above)
    else if u.action == Register then StrayOverwritten(rib[u.name], u.route, f, above, due)
    else StrayErased(rib[u.name], FindRoute(rib[u.name].routes, u.route), f, above, due)
  }

  /** The changed name itself is given a route, or left with a cost, that is not due. */
  ghost predicate Overgranted(rib: RibView, u: RibUpdate, f: FaceId) {
    var above, due := Found(rib, u.name, f), Due(rib, u.name, f);
    if u.name !in rib then u.action == Register && OverNewName(u.route, f, above, due)
    else
      && Present(rib, u)
      && if u.action == Register then OverOverwritten(rib[u.name], u.route, f, above, due)
         else OverErased(rib[u.name], FindRoute(rib[u.name].routes, u.route), f, above, due)
  }

  /** d does not pick up a wrong route: it lies elsewhere, behind a closed path, or has a route of its own on f. */
  ghost predicate Safe(rib: RibView, u: RibUpdate, d: Name, f: FaceId) {
    && (d == u.name ==> !Overgranted(rib, u, f))
    && (Stray(rib, u, f) && u.name < d && d in rib && Open(rib, u.name, d, f) ==> HasFaceId(rib[d].routes, f))
  }

  /**
   The record of f at the changed name is left behind: a route is added, without capture, on a face the entry
   inherits; or one of several routes on a face goes while an ancestor offers it.
   */
  ghost predicate Stale(rib: RibView, u: RibUpdate, f: FaceId) {
    && u.name in rib && f == u.route.faceId
    && if u.action == Register then f in rib[u.name].inherited && !u.route.capture
       else Present(rib, u) && StaleErased(rib[u.name], FindRoute(rib[u.name].routes, u.route), f,
                                           Found(rib, u.name, f))
  }

  /** The updates that keep FIB and inherited records right; each conjunct can be read off the RIB beforehand. */
  ghost predicate Harmless(rib: RibView, u: RibUpdate) {
    (forall f :: !Stale(rib, u, f)) && forall d, f :: Safe(rib, u, d, f)
  }

  /** The capture flag of a route the entry has is changed; the count of capturing routes is not. */
  predicate TogglesCapture(rib: RibView, u: RibUpdate) {
    u.action == Register && Present(rib, u) && u.route.capture != Existing(rib, u).capture
  }

  // ---- The code's view of a sound RIB is that of the specification ----

  lemma SoundCapture(rib: RibView, n: Name)
    requires Sound(rib) && n in rib
    ensures rib[n].HasCapture() <==> Captures(rib[n].routes)
  {
    CountPositive(rib[n].routes);
  }

  /** The code finds an ancestor's route exactly where the specification does, though not always the cheapest one. */
  lemma {:induction false} OfferFound(rib: RibView, p: Name, f: FaceId)
    requires Sound(rib)
    ensures Offer(rib, p, f).Some? <==> Inherited(RoutesOf(rib), p, f).Some?
    decreases |p|
  {
    InheritedIs(RoutesOf(rib), p, f);
    if p in rib {
      SoundCapture(rib, p);
      ScanFacts(rib[p].routes, f);
    }
    if p != [] {
      OfferFound(rib, Up(p), f);
    }
  }

  lemma AncestorFound(rib: RibView, n: Name, f: FaceId)
    requires Sound(rib)
    ensures Ancestor(rib, n, f).Some? <==> Due(rib, n, f).Some?
  {
    if n != [] {
      OfferFound(rib, Up(n), f);
    }
  }

  /** One route for each face at every name. */
  ghost predicate Single(rib: RibView) {
    forall n :: n in rib ==> OnePerFace(rib[n].routes)
  }

  lemma {:induction false} OfferIsInherited(rib: RibView, p: Name, f: FaceId)
    requires Sound(rib) && Single(rib)
    ensures CostOf(Offer(rib, p, f)) == Inherited(RoutesOf(rib), p, f)
    decreases |p|
  {
    InheritedIs(RoutesOf(rib), p, f);
    if p in rib {
      SoundCapture(rib, p);
      SoleRoute(rib[p].routes, f);
    }
    if p != [] {
      OfferIsInherited(rib, Up(p), f);
    }
  }

  /** With one route for each face the code finds what is due. */
  lemma FoundIsDue(rib: RibView, n: Name, f: FaceId)
    requires Sound(rib) && Single(rib)
    ensures Found(rib, n, f) == Due(rib, n, f)
  {
    if n != [] {
      OfferIsInherited(rib, Up(n), f);
    }
  }

  lemma OpenIs(rib: RibView, n: Name, d: Name, f: FaceId)
    requires Sound(rib)
    ensures Open(rib, n, d, f) <==> OpenPath(RoutesOf(rib), n, d, f)
  {
    var t := RoutesOf(rib);
    forall q | q in rib
      ensures Clear(rib[q], f) <==> !Captures(t[q]) && !HasChildInherit(t[q], f)
    {
      SoundCapture(rib, q);
    }
  }

  // ---- Names below the changed one ----

  /** The names below whose next hop on f comes through n. */
  ghost predicate Exposed(rib: RibView, n: Name, d: Name, f: FaceId) {
    n < d && d in rib && Open(rib, n, d, f) && !HasFaceId(rib[d].routes, f)
  }

  /** A slot that turns the next hop `before` into `moved`, record included. */
  ghost predicate Lands(s: Slot, before: Option<nat>, moved: Option<nat>) {
    && Applied(before, s.pending) == moved
    && (Recorded(s.record, before.Some?) <==> moved.Some?)
  }

  lemma ExposedHop(rib: RibView, n: Name, d: Name, f: FaceId)
    requires Sound(rib) && RecordsOk(rib) && n < d && d in rib
    ensures Exposed(rib, n, d, f) ==>
              var before := Inherited(RoutesOf(rib), n, f);
              NextHop(RoutesOf(rib), d, f) == before && (f in rib[d].inherited <==> before.Some?)
    ensures HasFaceId(rib[d].routes, f) ==> f !in rib[d].inherited
  {
    assert RecordOk(rib, d, f);
    OpenIs(rib, n, d, f);
    if Exposed(rib, n, d, f) {
      NextHopThroughOpen(RoutesOf(rib), n, d, f);
    }
  }

  lemma OnePush(rib: RibView, n: Name, d: Name, f: FaceId, add: Option<Route>, remove: bool)
    requires Sound(rib) && RecordsOk(rib) && n < d && d in rib
    ensures var s := Push(rib, n, d, f, add, remove, EMPTY_SLOT);
            var before := Inherited(RoutesOf(rib), n, f);
            if Exposed(rib, n, d, f) then Lands(s, before, Moved(add, remove, before)) else s == EMPTY_SLOT
  {
    ExposedHop(rib, n, d, f);
  }

  lemma TwoPushes(rib: RibView, n: Name, d: Name, f: FaceId, add: Option<Route>, remove: bool, add': Option<Route>,
                  remove': bool)
    requires Sound(rib) && RecordsOk(rib) && n < d && d in rib
    ensures var s := Push(rib, n, d, f, add', remove', Push(rib, n, d, f, add, remove, EMPTY_SLOT));
            var before := Inherited(RoutesOf(rib), n, f);
            if Exposed(rib, n, d, f)
                then Lands(s, before, MovedAgain(add', remove', before, Moved(add, remove, before)))
            else s == EMPTY_SLOT
  {
    ExposedHop(rib, n, d, f);
  }

  /** What every name below n is left with: `moved` where it is exposed, else what it had. */
  ghost predicate LandsBelow(rib: RibView, u: RibUpdate, f: FaceId, moved: Option<nat>) {
    forall d :: u.name < d && d in rib ==>
      if Exposed(rib, u.name, d, f) then Lands(Delta(rib, u, d, f), Inherited(RoutesOf(rib), u.name, f), moved)
      else Delta(rib, u, d, f) == EMPTY_SLOT
  }

  ghost predicate BelowRight(rib: RibView, u: RibUpdate, rib': RibView, f: FaceId, moved: Option<nat>) {
    && LandsBelow(rib, u, f, moved)
    && (moved == Inherited(RoutesOf(rib'), u.name, f) <==> !Stray(rib, u, f))
  }

  /** The changed name itself: its next hop unless it is given too much, its record unless it stays behind. */
  ghost predicate SelfRight(rib: RibView, u: RibUpdate, rib': RibView, f: FaceId) {
    var n := u.name;
    var hop := NextHop(RoutesOf(rib'), n, f);
    && (Applied(NextHop(RoutesOf(rib), n, f), Delta(rib, u, n, f).pending) == hop <==> !Overgranted(rib, u, f))
    && (n in rib' && !Overgranted(rib, u, f) ==>
          ((RecordedAfter(rib, u, n, f) <==> !HasFaceId(rib'[n].routes, f) && hop.Some?) <==> !Stale(rib, u, f)))
  }

  /** A single-route update of a sound RIB with right records. */
  ghost predicate Ready(rib: RibView, u: RibUpdate, rib': RibView) {
    Sound(rib) && RecordsOk(rib) && u.action != RemoveFace && RibAfter(rib, u, rib')
  }

  /** Inheritance around the changed name, in terms of the routes of that name alone. */
  lemma Around(rib: RibView, u: RibUpdate, rib': RibView, f: FaceId)
    requires Ready(rib, u, rib')
    ensures var n, t, t' := u.name, RoutesOf(rib), RoutesOf(rib');
            var due := Due(rib, n, f);
            && SameElsewhere(t, t', n)
            && (Ancestor(rib, n, f).Some? <==> due.Some?)
            && Inherited(t, n, f) == (if n in rib then HandedDown(rib[n].routes, f, due) else due)
            && Inherited(t', n, f) == (if n in rib' then HandedDown(rib'[n].routes, f, due) else due)
            && NextHop(t, n, f) == (if n in rib then OwnHop(rib[n].routes, f, due) else None)
            && NextHop(t', n, f) == (if n in rib' then OwnHop(rib'[n].routes, f, due) else None)
            && (n in rib ==> SoundEntry(rib[n]) && EntryRight(rib[n], f, due))
  {
    var n, t, t' := u.name, RoutesOf(rib), RoutesOf(rib');
    AncestorFound(rib, n, f);
    AboveSame(t, t', n, f);
    InheritedIs(t, n, f);
    InheritedIs(t', n, f);
    NextHopIs(t, n, f);
    NextHopIs(t', n, f);
    if n in rib {
      assert RecordOk(rib, n, f);
    }
  }

  lemma OnePushEverywhere(rib: RibView, u: RibUpdate, f: FaceId, add: Option<Route>, remove: bool)
    requires Sound(rib) && RecordsOk(rib)
    requires forall d :: u.name < d && d in rib ==>
            Delta(rib, u, d, f) == Push(rib, u.name, d, f, add, remove, EMPTY_SLOT)
    ensures LandsBelow(rib, u, f, Moved(add, remove, Inherited(RoutesOf(rib), u.name, f)))
  {
    hide Push, Delta, Exposed, Lands, Moved, Sound, RecordsOk;
    forall d | u.name < d && d in rib
      ensures if Exposed(rib, u.name, d, f)
              then Lands(Delta(rib, u, d, f), Inherited(RoutesOf(rib), u.name, f),
                         Moved(add, remove, Inherited(RoutesOf(rib), u.name, f)))
              else Delta(rib, u, d, f) == EMPTY_SLOT
    {
      OnePush(rib, u.name, d, f, add, remove);
    }
  }

  lemma TwoPushesEverywhere(rib: RibView, u: RibUpdate, f: FaceId, add: Option<Route>, remove: bool,
                            add': Option<Route>, remove': bool)
    requires Sound(rib) && RecordsOk(rib)
    requires forall d :: u.name < d && d in rib ==>
               Delta(rib, u, d, f) ==
                   Push(rib, u.name, d, f, add', remove', Push(rib, u.name, d, f, add, remove, EMPTY_SLOT))
    ensures var before := Inherited(RoutesOf(rib), u.name, f);
            LandsBelow(rib, u, f, MovedAgain(add', remove', before, Moved(add, remove, before)))
  {
    hide Push, Delta, Exposed, Lands, Moved, MovedAgain, Sound, RecordsOk;
    var before := Inherited(RoutesOf(rib), u.name, f);
    forall d | u.name < d && d in rib
      ensures if Exposed(rib, u.name, d, f)
              then Lands(Delta(rib, u, d, f), before, MovedAgain(add', remove', before, Moved(add, remove, before)))
              else Delta(rib, u, d, f) == EMPTY_SLOT
    {
      TwoPushes(rib, u.name, d, f, add, remove, add', remove');
    }
  }

  // ---- Each kind of update, in the tree ----

  lemma SlotMeansSelf(rib: RibView, u: RibUpdate, rib': RibView, f: FaceId)
    requires Ready(rib, u, rib') && u.name in rib && u.name in rib'
    requires SlotRight(Delta(rib, u, u.name, f), rib[u.name], rib'[u.name].routes, f, Due(rib, u.name, f),
                       Overgranted(rib, u, f), Stale(rib, u, f))
    ensures SelfRight(rib, u, rib', f)
  {
    Around(rib, u, rib', f);
    hide Delta, Overgranted, Stale, NextHop, Inherited, Ancestor, OwnHop, HandedDown, HasFaceId, Sound, RecordsOk,
        SoundEntry, EntryRight, Due;
  }

  lemma NewNameKind(rib: RibView, u: RibUpdate, rib': RibView, f: FaceId) returns (moved: Option<nat>)
    requires Ready(rib, u, rib') && u.action == Register && u.name !in rib
    ensures BelowRight(rib, u, rib', f, moved) && SelfRight(rib, u, rib', f)
  {
    var above := Ancestor(rib, u.name, f);
    Around(rib, u, rib', f);
    NewNameHandsDown(u.route, f, above, Due(rib, u.name, f));
    OneRoute(u.route, f);
    var add, remove := NewNameAdd(u.route, f, above), u.route.capture && above.Some?;
    OnePushEverywhere(rib, u, f, add, remove);
    moved := Moved(add, remove, Inherited(RoutesOf(rib), u.name, f));
    hide LandsBelow, Lowest, Captures, Push, NextHop, Inherited, Ancestor, HasFaceId, Moved, Due, StrayNewName;
  }

  lemma NewRouteBelow(rib: RibView, u: RibUpdate, rib': RibView, f: FaceId) returns (moved: Option<nat>)
    requires Ready(rib, u, rib') && u.action == Register && u.name in rib && !Present(rib, u)
    ensures BelowRight(rib, u, rib', f, moved)
  {
    var e, above := rib[u.name], Ancestor(rib, u.name, f);
    Around(rib, u, rib', f);
    NewRouteHandsDown(e, u.route, f, above, Due(rib, u.name, f));
    hide HandedDown, StrayNewRoute, Inherited, NextHop, Captures, Ancestor, SoundEntry, Sound, RecordsOk, Moved,
        EntryRight, Due;
    var add, remove := NewRouteAdd(e, u.route, f), !e.HasCapture() && u.route.capture && above.Some?;
    OnePushEverywhere(rib, u, f, add, remove);
    hide LandsBelow;
    moved := Moved(add, remove, Inherited(RoutesOf(rib), u.name, f));
  }

  lemma NewRouteSelf(rib: RibView, u: RibUpdate, rib': RibView, f: FaceId)
    requires Ready(rib, u, rib') && u.action == Register && u.name in rib && !Present(rib, u)
    ensures SelfRight(rib, u, rib', f)
  {
    var e, above := rib[u.name], Ancestor(rib, u.name, f);
    Around(rib, u, rib', f);
    hide NextHop, Inherited, Captures, Ancestor, Sound, RecordsOk, HandedDown, OwnHop, SoundEntry, HasFaceId, Lowest,
        EntryRight, Due;
    NewRouteSlotRight(e, u.route, f, above, Due(rib, u.name, f));
    assert Delta(rib, u, u.name, f) == NewRouteSlot(e, u.route, f, !e.HasCapture() && u.route.capture && above.Some?);
    hide NewRouteSlot, Delta, SlotRight;
    SlotMeansSelf(rib, u, rib', f);
  }

  lemma OverwrittenDelta(rib: RibView, u: RibUpdate, d: Name, f: FaceId)
    requires u.action == Register && Present(rib, u) && d != u.name
    ensures var e, was, above := rib[u.name], Existing(rib, u), Ancestor(rib, u.name, f);
            var first := Push(rib, u.name, d, f,
                              ChildAdd(was, u.route, f, Lowest(Overwritten(e, u.route), f, true), above),
                              f == u.route.faceId && was.childInherit && !u.route.childInherit, EMPTY_SLOT);
            Delta(rib, u, d, f) == Push(rib, u.name, d, f, if was.capture && !u.route.capture then above else None,
                                        !was.capture && u.route.capture && above.Some?, first)
  {
    hide Lowest, Captures, Ancestor, Open, HasFaceId, FindRoute;
  }

  lemma OverwrittenBelow(rib: RibView, u: RibUpdate, rib': RibView, f: FaceId) returns (moved: Option<nat>)
    requires Ready(rib, u, rib') && u.action == Register && Present(rib, u)
    ensures BelowRight(rib, u, rib', f, moved)
  {
    var e, was, above := rib[u.name], Existing(rib, u), Ancestor(rib, u.name, f);
    Around(rib, u, rib', f);
    OverwrittenHandsDown(e, u.route, f, above, Due(rib, u.name, f));
    forall d | u.name < d && d in rib {
      OverwrittenDelta(rib, u, d, f);
    }
    hide HandedDown, Inherited, NextHop, Captures, Ancestor, SoundEntry, Sound, RecordsOk, Moved, MovedAgain, ChildAdd,
         StrayOverwritten, Delta, Push, EntryRight, Due, Lowest;
    var add := ChildAdd(was, u.route, f, Lowest(Overwritten(e, u.route), f, true), above);
    var remove := f == u.route.faceId && was.childInherit && !u.route.childInherit;
    var add', remove' := if was.capture && !u.route.capture then above
        else None, !was.capture && u.route.capture && above.Some?;
    TwoPushesEverywhere(rib, u, f, add, remove, add', remove');
    hide LandsBelow;
    moved := OverwrittenMoved(e, u.route, f, above, Due(rib, u.name, f));
  }

  lemma OverwrittenSelf(rib: RibView, u: RibUpdate, rib': RibView, f: FaceId)
    requires Ready(rib, u, rib') && u.action == Register && Present(rib, u)
    ensures SelfRight(rib, u, rib', f)
  {
    var e, above := rib[u.name], Ancestor(rib, u.name, f);
    Around(rib, u, rib', f);
    hide NextHop, Inherited, Captures, Ancestor, Sound, RecordsOk, HandedDown, OwnHop, SoundEntry, HasFaceId,
        OverwrittenSlot, Delta,
         SlotRight, FindRoute, EntryRight, Due, Lowest;
    OverwrittenSelfDelta(rib, u, f);
    OverwrittenSlotRight(e, u.route, f, above, Due(rib, u.name, f));
    OwnFaceNotInherited(rib, u, rib');
    SlotMeansSelf(rib, u, rib', f);
  }

  lemma OverwrittenSelfDelta(rib: RibView, u: RibUpdate, f: FaceId)
    requires u.action == Register && Present(rib, u)
    ensures Delta(rib, u, u.name, f) == OverwrittenSlot(rib[u.name], u.route, f, Ancestor(rib, u.name, f))
  {
    hide Captures, Ancestor, Lowest, HasFaceId;
  }

  lemma OwnFaceNotInherited(rib: RibView, u: RibUpdate, rib': RibView)
    requires Ready(rib, u, rib') && Present(rib, u)
    ensures u.route.faceId !in rib[u.name].inherited
  {
    assert HasFaceId(rib[u.name].routes, u.route.faceId);
    assert RecordOk(rib, u.name, u.route.faceId);
  }

  lemma ErasedPush(rib: RibView, n: Name, e: Entry, i: nat, d: Name, f: FaceId)
    requires SoundEntry(e) && i < |e.routes| && d != n
    ensures var was, left := e.routes[i], EraseAt(e, i);
            AfterErasedRoute(rib, n, left, was, e.HasCapture() && !left.HasCapture(), d, f, EMPTY_SLOT)
            == Push(rib, n, d, f, ErasedAdd(was, left, Ancestor(rib, n, f)), was.childInherit && f == was.faceId,
                    EMPTY_SLOT)
  {
    RouteErased(e, i, f);
    hide Lowest, Captures, Ancestor, Push, HasFaceId, CountCapture, Decremented, Erased;
  }

  lemma NextPush(rib: RibView, n: Name, left: Entry, next: Route, d: Name, f: FaceId, s: Slot)
    requires d != n
    ensures AfterNewRoute(rib, n, left, next, false, d, f, s) ==
            Push(rib, n, d, f, NextAdd(left, Some(next), f), false, s)
  {
    hide Lowest, Ancestor, Push;
  }

  lemma NoPush(rib: RibView, n: Name, d: Name, f: FaceId, s: Slot)
    ensures Push(rib, n, d, f, None, false, s) == s
  {
  }

  lemma ErasedDelta(rib: RibView, u: RibUpdate, d: Name, f: FaceId)
    requires u.action == Unregister && Present(rib, u) && SoundEntry(rib[u.name]) && d != u.name
    ensures var e, i, above := rib[u.name], FindRoute(rib[u.name].routes, u.route), Ancestor(rib, u.name, f);
            var was, left := e.routes[i], EraseAt(e, i);
            Delta(rib, u, d, f) == Push(rib, u.name, d, f, NextAdd(left, SecondLowest(e.routes, was.faceId), f), false,
                                        Push(rib, u.name, d, f, ErasedAdd(was, left, above),
                                             was.childInherit && f == was.faceId, EMPTY_SLOT))
  {
    var e, i := rib[u.name], FindRoute(rib[u.name].routes, u.route);
    var left, next := EraseAt(e, i), SecondLowest(e.routes, u.route.faceId);
    ErasedPush(rib, u.name, e, i, d, f);
    var s := AfterErasedRoute(rib, u.name, left, e.routes[i], e.HasCapture() && !left.HasCapture(), d, f, EMPTY_SLOT);
    if next.Some? {
      NextPush(rib, u.name, left, next.value, d, f, s);
    } else {
      NoPush(rib, u.name, d, f, s);
    }
    hide Push, AfterErasedRoute, AfterNewRoute, ErasedAdd, NewRouteAdd, Ancestor, FindRoute, SecondLowest, EraseAt,
        SoundEntry;
  }

  lemma ErasedBelow(rib: RibView, u: RibUpdate, rib': RibView, f: FaceId) returns (moved: Option<nat>)
    requires Ready(rib, u, rib') && u.action == Unregister && Present(rib, u)
    ensures BelowRight(rib, u, rib', f, moved)
  {
    var e, i, above := rib[u.name], FindRoute(rib[u.name].routes, u.route), Ancestor(rib, u.name, f);
    var was, left := e.routes[i], EraseAt(e, i);
    Around(rib, u, rib', f);
    ErasedHandsDown(e, i, f, above, Due(rib, u.name, f));
    RouteErased(e, i, f);
    forall d | u.name < d && d in rib {
      ErasedDelta(rib, u, d, f);
    }
    hide HandedDown, Inherited, NextHop, Captures, Ancestor, SoundEntry, Sound, RecordsOk, Moved, MovedAgain, ErasedAdd,
        NextAdd,
         StrayErased, Delta, Push, Lowest, FindRoute, Erased, EntryRight, Due, SecondLowest;
    TwoPushesEverywhere(rib, u, f, ErasedAdd(was, left, above), was.childInherit && f == was.faceId,
                        NextAdd(left, SecondLowest(e.routes, was.faceId), f), false);
    hide LandsBelow;
    moved := ErasedMoved(e, i, f, above, Due(rib, u.name, f));
  }

  lemma ErasedSelfDelta(rib: RibView, u: RibUpdate, f: FaceId)
    requires u.action == Unregister && Present(rib, u)
    ensures Delta(rib, u, u.name, f) ==
            ErasedSlot(rib[u.name], FindRoute(rib[u.name].routes, u.route), f, Ancestor(rib, u.name, f))
  {
    hide Lowest, Captures, Ancestor, HasFaceId, FindRoute, SecondLowest, CountCapture, Decremented;
  }

  lemma ErasedSelf(rib: RibView, u: RibUpdate, rib': RibView, f: FaceId)
    requires Ready(rib, u, rib') && u.action == Unregister && Present(rib, u)
    ensures SelfRight(rib, u, rib', f)
  {
    var e, above := rib[u.name], Ancestor(rib, u.name, f);
    var i := FindRoute(e.routes, u.route);
    Around(rib, u, rib', f);
    RouteErased(e, i, f);
    hide NextHop, Inherited, Captures, Ancestor, Sound, RecordsOk, HandedDown, OwnHop, SoundEntry, HasFaceId,
        ErasedSlot, Delta,
         SlotRight, FindRoute, EntryRight, Due, Erased, Lowest;
    ErasedSelfDelta(rib, u, f);
    ErasedSlotRight(e, i, f, above, Due(rib, u.name, f));
    if |e.routes| > 1 {
      SlotMeansSelf(rib, u, rib', f);
    }
  }

  /** An unregistration of a route that is not there. */
  lemma IdleKind(rib: RibView, u: RibUpdate, rib': RibView, f: FaceId) returns (moved: Option<nat>)
    requires Ready(rib, u, rib') && u.action == Unregister && !Present(rib, u)
    ensures BelowRight(rib, u, rib', f, moved) && SelfRight(rib, u, rib', f)
  {
    Around(rib, u, rib', f);
    OnePushEverywhere(rib, u, f, None, false);
    moved := Inherited(RoutesOf(rib), u.name, f);
    hide LandsBelow, Inherited, NextHop, Lowest, Captures;
  }

  // ---- One step ----

  lemma AnyKind(rib: RibView, u: RibUpdate, rib': RibView, f: FaceId) returns (moved: Option<nat>)
    requires Ready(rib, u, rib')
    ensures BelowRight(rib, u, rib', f, moved) && SelfRight(rib, u, rib', f)
  {
    assert u.action == Register || u.action == Unregister;
    hide Ready, BelowRight, SelfRight;
    if u.action == Register {
      if u.name !in rib {
        moved := NewNameKind(rib, u, rib', f);
      } else if Present(rib, u) {
        moved := OverwrittenBelow(rib, u, rib', f);
        OverwrittenSelf(rib, u, rib', f);
      } else {
        moved := NewRouteBelow(rib, u, rib', f);
        NewRouteSelf(rib, u, rib', f);
      }
    } else if Present(rib, u) {
      moved := ErasedBelow(rib, u, rib', f);
      ErasedSelf(rib, u, rib', f);
    } else {
      moved := IdleKind(rib, u, rib', f);
    }
  }

  /** The capture counts stay right exactly when no capture flag of an existing route is changed. */
  lemma SoundUnlessToggled(rib: RibView, u: RibUpdate, rib': RibView)
    requires Sound(rib) && RibAfter(rib, u, rib')
    ensures Sound(rib') <==> !TogglesCapture(rib, u)
  {
    ChangedEntrySound(rib, u, rib');
    forall m | m in rib' && m != u.name
      ensures SoundEntry(rib'[m])
    {
      assert m in rib && SoundEntry(rib[m]);
    }
    hide SoundEntry, TogglesCapture;
  }

  lemma ChangedEntrySound(rib: RibView, u: RibUpdate, rib': RibView)
    requires Sound(rib) && RibAfter(rib, u, rib')
    ensures u.name in rib' ==> (SoundEntry(rib'[u.name]) <==> !TogglesCapture(rib, u))
    ensures u.name !in rib' ==> !TogglesCapture(rib, u)
  {
    var n := u.name;
    CountOfOne(u.route);
    if n in rib {
      var e := rib[n];
      var i := FindRoute(e.routes, u.route);
      if i < |e.routes| {
        CountsAfter(e, i, u.route);
      }
      CountAppended(e.routes, u.route);
    }
    hide CountCapture, FindRoute, Erased, EraseAt;
  }

  lemma CountOfOne(r: Route)
    ensures CountCapture([r]) == if r.capture then 1 else 0
  {
    assert [r][..0] == [];
  }

  lemma CountsAfter(e: Entry, i: nat, r: Route)
    requires SoundEntry(e) && i < |e.routes|
    ensures e.routes[i := r] != []
            && (CountCapture(e.routes[i := r]) == e.nCapture <==> r.capture == e.routes[i].capture)
    ensures CountCapture(EraseAt(e, i).routes) == EraseAt(e, i).nCapture
            && (EraseAt(e, i).routes == [] <==> |e.routes| == 1)
  {
    CountReplaced(e.routes, i, r);
    CountErased(e.routes, i);
    assert |Erased(e.routes, i)| == |e.routes| - 1;
    hide CountCapture, Erased;
  }

  /** A name below n: its next hop and record are right exactly when it is not exposed to a stray route. */
  lemma BelowExactAt(rib: RibView, u: RibUpdate, rib': RibView, d: Name, f: FaceId, moved: Option<nat>)
    requires Ready(rib, u, rib') && BelowRight(rib, u, rib', f, moved) && u.name < d && d in rib
    ensures var hop := NextHop(RoutesOf(rib'), d, f);
            && (Applied(NextHop(RoutesOf(rib), d, f), Delta(rib, u, d, f).pending) == hop <==> Safe(rib, u, d, f))
            && (Safe(rib, u, d, f) ==> (RecordedAfter(rib, u, d, f) <==> !HasFaceId(rib'[d].routes, f) && hop.Some?))
  {
    var n, t, t' := u.name, RoutesOf(rib), RoutesOf(rib');
    assert SameElsewhere(t, t', n);
    assert RecordOk(rib, d, f);
    OpenIs(rib, n, d, f);
    if Exposed(rib, n, d, f) {
      NextHopThroughOpen(t, n, d, f);
      NextHopThroughOpen(t', n, d, f);
    } else {
      NextHopPastShut(t, t', n, d, f);
    }
    hide Delta, Stray, NextHop, Inherited, Open, Sound, RecordsOk, Overgranted, HasFaceId;
  }

  lemma NothingOutside(rib: RibView, u: RibUpdate, d: Name, f: FaceId)
    requires d != u.name && !(u.name < d && d in rib)
    ensures Delta(rib, u, d, f) == EMPTY_SLOT
  {
    hide Lowest, Ancestor, HasFaceId, SecondLowest, NullDereference;
  }

  lemma OutsideExactAt(rib: RibView, u: RibUpdate, rib': RibView, d: Name, f: FaceId)
    requires Ready(rib, u, rib') && d != u.name && !(u.name < d && d in rib)
    ensures var hop := NextHop(RoutesOf(rib'), d, f);
            && Applied(NextHop(RoutesOf(rib), d, f), Delta(rib, u, d, f).pending) == hop && Safe(rib, u, d, f)
            && (d in rib' ==> (RecordedAfter(rib, u, d, f) <==> !HasFaceId(rib'[d].routes, f) && hop.Some?))
  {
    var t, t' := RoutesOf(rib), RoutesOf(rib');
    assert SameElsewhere(t, t', u.name);
    NothingOutside(rib, u, d, f);
    if d in rib {
      assert RecordOk(rib, d, f);
      NextHopOutside(t, t', u.name, d, f);
    } else {
      NextHopIs(t, d, f);
      NextHopIs(t', d, f);
    }
    hide Delta, NextHop, Stray, Overgranted, HasFaceId;
  }

  lemma RibStepExactAt(rib: RibView, u: RibUpdate, rib': RibView, d: Name, f: FaceId)
    requires Ready(rib, u, rib')
    ensures var hop := NextHop(RoutesOf(rib'), d, f);
            && (Applied(NextHop(RoutesOf(rib), d, f), Delta(rib, u, d, f).pending) == hop <==> Safe(rib, u, d, f))
            && (Safe(rib, u, d, f) && d in rib' ==>
                  ((RecordedAfter(rib, u, d, f) <==> !HasFaceId(rib'[d].routes, f) && hop.Some?)
                   <==> !(d == u.name && Stale(rib, u, f))))
  {
    var n := u.name;
    var moved := AnyKind(rib, u, rib', f);
    if n == d {
      hide Delta, Overgranted, NextHop, Stray, Stale, HasFaceId, BelowRight;
    } else if n < d && d in rib {
      BelowExactAt(rib, u, rib', d, f, moved);
      hide Delta, Safe, NextHop, Stray, Stale, HasFaceId, BelowRight, SelfRight;
    } else {
      OutsideExactAt(rib, u, rib', d, f);
    }
  }

  /** The next hop and the record of one name and face after one acknowledged batch. */
  lemma StepExactAt(s: State, u: RibUpdate, s': State, d: Name, f: FaceId)
    requires Inv(s) && Step(s, u, s')
    ensures Lookup(s'.fib, d, f) == NextHop(RoutesOf(s'.rib), d, f) <==> Safe(s.rib, u, d, f)
    ensures Safe(s.rib, u, d, f) && d in s'.rib ==>
              (RecordOk(s'.rib, d, f) <==> !(d == u.name && Stale(s.rib, u, f)))
  {
    assert Ready(s.rib, u, s'.rib);
    RibStepExactAt(s.rib, u, s'.rib, d, f);
    hide NextHop, Sound, RecordsOk, RibAfter, Delta, Safe, Stale, HasFaceId, Ready;
  }

  /**
   Main theorem: for every update, whatever the number of origins and whether or not it toggles capture, one
   acknowledged batch leaves FIB and inherited records right if and only if the update was harmless.
   */
  lemma StepIsExactlyHarmless(s: State, u: RibUpdate, s': State)
    requires Inv(s) && Step(s, u, s')
    ensures Exact(s') <==> Harmless(s.rib, u)
  {
    hide Inv, Step, Safe, NextHop, RecordOk, Stale;
    if Exact(s') {
      forall d, f
        ensures Safe(s.rib, u, d, f)
      {
        StepExactAt(s, u, s', d, f);
      }
      forall f
        ensures !Stale(s.rib, u, f)
      {
        StepExactAt(s, u, s', u.name, f);
        if Stale(s.rib, u, f) {
          StaleNameStays(s, u, s', f);
        }
      }
    }
    if Harmless(s.rib, u) {
      forall d, f
        ensures Lookup(s'.fib, d, f) == NextHop(RoutesOf(s'.rib), d, f)
        ensures d in s'.rib ==> RecordOk(s'.rib, d, f)
      {
        assert Safe(s.rib, u, d, f) && !Stale(s.rib, u, f);
        StepExactAt(s, u, s', d, f);
      }
    }
  }

  lemma StaleNameStays(s: State, u: RibUpdate, s': State, f: FaceId)
    requires Inv(s) && Step(s, u, s') && Stale(s.rib, u, f)
    ensures u.name in s'.rib
  {
    if u.action == Unregister {
      RouteErased(s.rib[u.name], FindRoute(s.rib[u.name].routes, u.route), f);
    }
  }

  /**
   All of the invariant, the capture counts included, is kept exactly when moreover no existing route's capture is
   toggled.
   */
  lemma StepKeepsInvExactly(s: State, u: RibUpdate, s': State)
    requires Inv(s) && Step(s, u, s')
    ensures Inv(s') <==> Harmless(s.rib, u) && !TogglesCapture(s.rib, u)
  {
    StepIsExactlyHarmless(s, u, s');
    SoundUnlessToggled(s.rib, u, s'.rib);
    hide Harmless, Exact, TogglesCapture, Sound;
  }
}
