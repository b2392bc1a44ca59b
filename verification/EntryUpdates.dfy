/**
 One update seen from the entry it changes, at one face: what the entry hands down before and after,
 what the code pushes to the names below and does to the entry itself, and exactly when the two differ.

 `above` is the route Rib::getAncestorRoutes finds for the face, `due` the cost the specification has there.
 */
module EntryUpdates {
  import opened Wrappers
  import opened Routes
  import opened FibDeltas
  import opened FibSpec

  // ---- The effect of a slot ----

  function Applied(hop: Option<nat>, pending: Option<Action>): Option<nat> {
    match pending
    case None => hop
    case Some(Add(c)) => Some(c)
    case Some(Remove) => None
  }

  predicate Recorded(record: Option<bool>, before: bool) {
    if record.Some? then record.value else before
  }

  /** What a name below inherits after a push, when it inherited `before` until then. */
  function Moved(add: Option<Route>, remove: bool, before: Option<nat>): Option<nat> {
    if add.Some? then CostOf(add) else if remove then None else before
  }

  /** The same after a second push, whose removal looks at the records from before the first. */
  function MovedAgain(add: Option<Route>, remove: bool, before: Option<nat>, first: Option<nat>): Option<nat> {
    if add.Some? then CostOf(add) else if remove && before.Some? then None else first
  }

  /** The entry's capture count and its record of f are right. */
  ghost predicate EntryRight(e: Entry, f: FaceId, due: Option<nat>) {
    && e.nCapture == CountCapture(e.routes)
    && (f in e.inherited <==> !HasFaceId(e.routes, f) && OwnHop(e.routes, f, due).Some?)
  }

  /** The slot turns the entry's next hop into that of its new routes unless `over`, and its record unless `stale`. */
  ghost predicate SlotRight(s: Slot, e: Entry, after: seq<Route>, f: FaceId, due: Option<nat>, over: bool,
                            stale: bool) {
    var hop := OwnHop(after, f, due);
    && (Applied(OwnHop(e.routes, f, due), s.pending) == hop <==> !over)
    && (!over ==> ((Recorded(s.record, f in e.inherited) <==> !HasFaceId(after, f) && hop.Some?) <==> !stale))
  }

  lemma CountMeansCapture(e: Entry)
    requires e.nCapture == CountCapture(e.routes)
    ensures e.HasCapture() <==> Captures(e.routes)
  {
    CountPositive(e.routes);
  }

  // ---- An absent name ----

  function NewNameAdd(route: Route, f: FaceId, above: Option<Route>): Option<Route> {
    if !route.childInherit then None else if f == route.faceId then Some(route) else if route.capture then None
        else above
  }

  /** The ancestor's route that is passed on is not its cheapest. */
  predicate StrayNewName(route: Route, f: FaceId, above: Option<nat>, due: Option<nat>) {
    route.childInherit && !route.capture && f != route.faceId && above != due
  }

  predicate OverNewName(route: Route, f: FaceId, above: Option<nat>, due: Option<nat>) {
    !route.capture && f != route.faceId && above != due
  }

  lemma OneRoute(r: Route, f: FaceId)
    ensures Lowest([r], f, false) == if f == r.faceId then Some(r) else None
    ensures Lowest([r], f, true) == if f == r.faceId && r.childInherit then Some(r) else None
    ensures HasFaceId([r], f) <==> f == r.faceId
    ensures Captures([r]) <==> r.capture
  {
    assert [r][..0] == [];
    ScanFacts([r], f);
    assert [r][0] == r;
  }

  lemma NewNameHandsDown(route: Route, f: FaceId, above: Option<Route>, due: Option<nat>)
    requires above.Some? <==> due.Some?
    ensures Moved(NewNameAdd(route, f, above), route.capture && above.Some?, due) == HandedDown([route], f, due)
            <==> !StrayNewName(route, f, CostOf(above), due)
  {
    OneRoute(route, f);
  }

  // ---- A further route ----

  function NewRouteAdd(e: Entry, route: Route, f: FaceId): Option<Route> {
    var prev := Lowest(e.routes, route.faceId, true);
    if f == route.faceId && route.childInherit && (prev.None? || route.cost <= prev.value.cost) then Some(route)
        else None
  }

  /** Capture is turned on: the push removes f although the entry goes on offering another route. */
  ghost predicate StrayNewRoute(e: Entry, route: Route, f: FaceId, above: Option<nat>) {
    && above.Some? && route.capture && !e.HasCapture() && Lowest(e.routes, f, true).Some?
    && !(f == route.faceId && route.childInherit && route.cost <= Lowest(e.routes, f, true).value.cost)
  }

  lemma OneMoreRoute(rs: seq<Route>, r: Route, f: FaceId)
    ensures CostOf(Lowest(rs + [r], f, false)) == Least(CostOf(Lowest(rs, f, false)), Part(r, f, false))
    ensures CostOf(Lowest(rs + [r], f, true)) == Least(CostOf(Lowest(rs, f, true)), Part(r, f, true))
    ensures HasFaceId(rs + [r], f) <==> HasFaceId(rs, f) || f == r.faceId
    ensures Captures(rs + [r]) <==> Captures(rs) || r.capture
  {
    assert (rs + [r])[..|rs|] == rs;
    ScanFacts(rs + [r], f);
    ScanFacts(rs, f);
    CountPositive(rs);
    CountPositive(rs + [r]);
    CountAppended(rs, r);
  }

  lemma NewRouteHandsDown(e: Entry, route: Route, f: FaceId, above: Option<Route>, due: Option<nat>)
    requires e.nCapture == CountCapture(e.routes) && (above.Some? <==> due.Some?)
    ensures Moved(NewRouteAdd(e, route, f), !e.HasCapture() && route.capture && above.Some?,
                  HandedDown(e.routes, f, due))
            == HandedDown(e.routes + [route], f, due)
            <==> !StrayNewRoute(e, route, f, CostOf(above))
  {
    CountMeansCapture(e);
    OneMoreRoute(e.routes, route, f);
    hide Lowest, Captures, CountCapture;
  }

  function NewRouteSlot(e: Entry, route: Route, f: FaceId, remove: bool): Slot {
    var s := if remove && f in e.inherited then EMPTY_SLOT.Disinherit() else EMPTY_SLOT;
    var other := Lowest(e.routes, route.faceId, false);
    if f == route.faceId && (other.None? || route.cost <= other.value.cost) then s.AddOwn(route.cost) else s
  }

  lemma NewRouteSlotRight(e: Entry, route: Route, f: FaceId, above: Option<Route>, due: Option<nat>)
    requires EntryRight(e, f, due) && (above.Some? <==> due.Some?)
    ensures SlotRight(NewRouteSlot(e, route, f, !e.HasCapture() && route.capture && above.Some?), e, e.routes + [route],
                      f, due,
                      false, f == route.faceId && f in e.inherited && !route.capture)
  {
    CountMeansCapture(e);
    ScanFacts(e.routes, f);
    OneMoreRoute(e.routes, route, f);
    hide Lowest, Captures, HasFaceId, CountCapture;
  }

  // ---- A route registered again ----

  /** The routes of the name once an update of a route it has is done. */
  function Overwritten(e: Entry, route: Route): seq<Route>
    requires FindRoute(e.routes, route) < |e.routes|
  {
    e.routes[FindRoute(e.routes, route) := route]
  }

  /** The scans before and after, in terms of the other routes. */
  lemma RouteOverwritten(rs: seq<Route>, i: nat, r: Route, f: FaceId)
    requires i < |rs| && r.faceId == rs[i].faceId
    ensures var others, othersDown := CostOf(Lowest(Erased(rs, i), f, false)), CostOf(Lowest(Erased(rs, i), f, true));
            && CostOf(Lowest(rs, f, false)) == Least(others, Part(rs[i], f, false))
            && CostOf(Lowest(rs, f, true)) == Least(othersDown, Part(rs[i], f, true))
            && CostOf(Lowest(rs[i := r], f, false)) == Least(others, Part(r, f, false))
            && CostOf(Lowest(rs[i := r], f, true)) == Least(othersDown, Part(r, f, true))
    ensures HasFaceId(rs[i := r], f) <==> Lowest(rs[i := r], f, false).Some?
    ensures HasFaceId(rs, f) <==> Lowest(rs, f, false).Some?
    ensures Captures(rs[i := r]) <==>
            CountCapture(rs) - (if rs[i].capture then 1 else 0) + (if r.capture then 1 else 0) > 0
    ensures CountCapture(rs) >= if rs[i].capture then 1 else 0
  {
    LowestSplits(rs, i, f, false);
    LowestSplits(rs, i, f, true);
    LowestSplits(rs[i := r], i, f, false);
    LowestSplits(rs[i := r], i, f, true);
    ErasedOverwritten(rs, i, r);
    ScanFacts(rs, f);
    ScanFacts(rs[i := r], f);
    CountReplaced(rs, i, r);
    CountErased(rs, i);
    CountPositive(rs[i := r]);
  }

  /** What the child-inherit branch, or a new cost of a child-inherit route, pushes. */
  function ChildAdd(was: Route, route: Route, f: FaceId, prev: Option<Route>, above: Option<Route>): Option<Route> {
    if f != route.faceId then None
    else if route.childInherit then
      if (!was.childInherit || (route.capture == was.capture && route.cost != was.cost))
          && (prev.None? || route.cost <= prev.value.cost)
      then Some(route) else None
    else if was.childInherit then (if prev.Some? then prev else above)
    else None
  }

  /**
   The cheapest child-inherit route is made dearer than another, or its child inherit is turned off over an ancestor's.
   */
  ghost predicate StrayChildInherit(e: Entry, was: Route, route: Route, f: FaceId, above: Option<nat>, due: Option<nat>,
                                    down': Option<nat>) {
    && f == route.faceId && was.childInherit
    && if route.childInherit then down'.Some? && was.cost < down'.value < route.cost
       else down'.None? && above.Some? && (e.HasCapture() || above != due)
  }

  /** Capture is turned on: the push removes what the entry itself offers, or leaves out a new cost. */
  ghost predicate StrayCaptureOn(e: Entry, was: Route, route: Route, f: FaceId, above: Option<nat>, down: Option<nat>,
                                 down': Option<nat>) {
    && down'.Some?
    && if f == route.faceId && was.childInherit && route.childInherit then above.Some? || down != down'
       else above.Some? && (down.Some? || !e.HasCapture())
  }

  /** Capture is turned off: the push gives out the ancestor's route over the entry's own, or past another capture. */
  ghost predicate StrayCaptureOff(e: Entry, was: Route, route: Route, f: FaceId, above: Option<nat>, due: Option<nat>,
                                  down: Option<nat>, down': Option<nat>) {
    if above.Some? then
      if down'.Some? then above != down' else e.nCapture > 1 || above != due
    else f == route.faceId && was.childInherit && route.childInherit && down != down'
  }

  ghost predicate StrayOverwritten(e: Entry, route: Route, f: FaceId, above: Option<nat>, due: Option<nat>)
    requires FindRoute(e.routes, route) < |e.routes|
  {
    var was := e.routes[FindRoute(e.routes, route)];
    var down, down' := CostOf(Lowest(e.routes, f, true)), CostOf(Lowest(Overwritten(e, route), f, true));
    if route.capture == was.capture then StrayChildInherit(e, was, route, f, above, due, down')
    else if route.capture then StrayCaptureOn(e, was, route, f, above, down, down')
    else StrayCaptureOff(e, was, route, f, above, due, down, down')
  }

  /** What the names below are left with: the pushes for child inherit, then those for capture. */
  function OverwrittenMoved(e: Entry, route: Route, f: FaceId, above: Option<Route>, due: Option<nat>): Option<nat>
    requires FindRoute(e.routes, route) < |e.routes|
  {
    var was := e.routes[FindRoute(e.routes, route)];
    var before := HandedDown(e.routes, f, due);
    var first := Moved(ChildAdd(was, route, f, Lowest(Overwritten(e, route), f, true), above),
                       f == route.faceId && was.childInherit && !route.childInherit, before);
    MovedAgain(if was.capture && !route.capture then above else None, !was.capture && route.capture && above.Some?,
               before, first)
  }

  lemma OtherFaceHandsDown(e: Entry, route: Route, f: FaceId, above: Option<Route>, due: Option<nat>)
    requires e.nCapture == CountCapture(e.routes) && (above.Some? <==> due.Some?)
            && FindRoute(e.routes, route) < |e.routes|
    requires route.capture == e.routes[FindRoute(e.routes, route)].capture && f != route.faceId
    ensures OverwrittenMoved(e, route, f, above, due) == HandedDown(Overwritten(e, route), f, due)
            <==> !StrayOverwritten(e, route, f, CostOf(above), due)
  {
    CountMeansCapture(e);
    RouteOverwritten(e.routes, FindRoute(e.routes, route), route, f);
    hide Lowest, Captures, FindRoute, CountCapture, HasChildInherit, HasFaceId, Erased, StrayCaptureOn, StrayCaptureOff;
  }

  /** Pushing the route if it is the cheapest, in terms of the cost `others` of the other child-inherit routes. */
  lemma CheaperIsPushed(was: Route, route: Route, prev: Option<Route>, above: Option<Route>, others: Option<nat>,
                        before: Option<nat>)
    requires was.faceId == route.faceId && route.childInherit && route.capture == was.capture
    requires CostOf(prev) == Least(others, Some(route.cost))
    requires var down := Least(others, Part(was, route.faceId, true)); down.Some? ==> before == down
    ensures Moved(ChildAdd(was, route, route.faceId, prev, above), false, before) == CostOf(prev)
            <==> !(was.childInherit && was.cost < CostOf(prev).value < route.cost)
  {
  }

  lemma ChildInheritKept(e: Entry, route: Route, above: Option<Route>, due: Option<nat>)
    requires FindRoute(e.routes, route) < |e.routes|
    requires route.capture == e.routes[FindRoute(e.routes, route)].capture && route.childInherit
    ensures OverwrittenMoved(e, route, route.faceId, above, due) == HandedDown(Overwritten(e, route), route.faceId, due)
            <==> !StrayOverwritten(e, route, route.faceId, CostOf(above), due)
  {
    var i := FindRoute(e.routes, route);
    RouteOverwritten(e.routes, i, route, route.faceId);
    hide Lowest, Captures, FindRoute, CountCapture, HasChildInherit, HasFaceId, Erased, StrayCaptureOn, StrayCaptureOff,
        ChildAdd, Least;
    CheaperIsPushed(e.routes[i], route, Lowest(Overwritten(e, route), route.faceId, true), above,
                    CostOf(Lowest(Erased(e.routes, i), route.faceId, true)), HandedDown(e.routes, route.faceId, due));
  }

  lemma ChildInheritDropped(e: Entry, route: Route, above: Option<Route>, due: Option<nat>)
    requires e.nCapture == CountCapture(e.routes) && (above.Some? <==> due.Some?)
            && FindRoute(e.routes, route) < |e.routes|
    requires route.capture == e.routes[FindRoute(e.routes, route)].capture && !route.childInherit
    ensures OverwrittenMoved(e, route, route.faceId, above, due) == HandedDown(Overwritten(e, route), route.faceId, due)
            <==> !StrayOverwritten(e, route, route.faceId, CostOf(above), due)
  {
    CountMeansCapture(e);
    RouteOverwritten(e.routes, FindRoute(e.routes, route), route, route.faceId);
    hide Lowest, Captures, FindRoute, CountCapture, HasChildInherit, HasFaceId, Erased, StrayCaptureOn, StrayCaptureOff;
  }

  lemma CaptureOnHandsDown(e: Entry, route: Route, f: FaceId, above: Option<Route>, due: Option<nat>)
    requires e.nCapture == CountCapture(e.routes) && (above.Some? <==> due.Some?)
            && FindRoute(e.routes, route) < |e.routes|
    requires route.capture && !e.routes[FindRoute(e.routes, route)].capture
    ensures OverwrittenMoved(e, route, f, above, due) == HandedDown(Overwritten(e, route), f, due)
            <==> !StrayOverwritten(e, route, f, CostOf(above), due)
  {
    CountMeansCapture(e);
    RouteOverwritten(e.routes, FindRoute(e.routes, route), route, f);
    hide Lowest, Captures, FindRoute, CountCapture, HasChildInherit, HasFaceId, Erased, StrayChildInherit,
        StrayCaptureOff;
  }

  lemma CaptureOffHandsDown(e: Entry, route: Route, f: FaceId, above: Option<Route>, due: Option<nat>)
    requires e.nCapture == CountCapture(e.routes) && (above.Some? <==> due.Some?)
            && FindRoute(e.routes, route) < |e.routes|
    requires !route.capture && e.routes[FindRoute(e.routes, route)].capture
    ensures OverwrittenMoved(e, route, f, above, due) == HandedDown(Overwritten(e, route), f, due)
            <==> !StrayOverwritten(e, route, f, CostOf(above), due)
  {
    CountMeansCapture(e);
    RouteOverwritten(e.routes, FindRoute(e.routes, route), route, f);
    hide Lowest, Captures, FindRoute, CountCapture, HasChildInherit, HasFaceId, Erased, StrayChildInherit,
        StrayCaptureOn;
  }

  lemma OverwrittenHandsDown(e: Entry, route: Route, f: FaceId, above: Option<Route>, due: Option<nat>)
    requires e.nCapture == CountCapture(e.routes) && (above.Some? <==> due.Some?)
            && FindRoute(e.routes, route) < |e.routes|
    ensures OverwrittenMoved(e, route, f, above, due) == HandedDown(Overwritten(e, route), f, due)
            <==> !StrayOverwritten(e, route, f, CostOf(above), due)
  {
    hide OverwrittenMoved, HandedDown, StrayOverwritten, Overwritten;
    if route.capture == e.routes[FindRoute(e.routes, route)].capture {
      if f != route.faceId {
        OtherFaceHandsDown(e, route, f, above, due);
      } else if route.childInherit {
        ChildInheritKept(e, route, above, due);
      } else {
        ChildInheritDropped(e, route, above, due);
      }
    } else if route.capture {
      CaptureOnHandsDown(e, route, f, above, due);
    } else {
      CaptureOffHandsDown(e, route, f, above, due);
    }
  }

  function OverwrittenSlot(e: Entry, route: Route, f: FaceId, above: Option<Route>): Slot
    requires FindRoute(e.routes, route) < |e.routes|
  {
    var i := FindRoute(e.routes, route);
    var was, copy := e.routes[i], UpdatedCopy(e, i, route);
    var s := if f == route.faceId && route.cost != was.cost then AfterOwnCost(copy, route, was, EMPTY_SLOT)
        else EMPTY_SLOT;
    if !was.capture && route.capture && above.Some? && f in e.inherited then s.Disinherit()
    else if was.capture && !route.capture && above.Some? && !HasFaceId(copy.routes, f) then s.Inherit(above.value.cost)
    else s
  }

  /** The cheapest route is made dearer than another that does not child-inherit, or capture is wrongly lifted. */
  ghost predicate OverOverwritten(e: Entry, route: Route, f: FaceId, above: Option<nat>, due: Option<nat>)
    requires FindRoute(e.routes, route) < |e.routes|
  {
    var was, after := e.routes[FindRoute(e.routes, route)], Overwritten(e, route);
    var own := CostOf(Lowest(after, f, false));
    if f == route.faceId then own.Some? && was.cost < own.value < route.cost && CostOf(Lowest(after, f, true)) != own
    else was.capture && !route.capture && above.Some? && !HasFaceId(e.routes, f) && (e.nCapture > 1 || above != due)
  }

  /** The cost branch, in terms of the cost `others` of the other routes on the face. */
  lemma OwnCostRight(copy: Entry, route: Route, was: Route, others: Option<nat>)
    requires CostOf(Lowest(copy.routes, route.faceId, false)) == Least(others, Some(route.cost))
    ensures var own, down := CostOf(Lowest(copy.routes, route.faceId, false)),
            CostOf(Lowest(copy.routes, route.faceId, true));
            var s := if route.cost != was.cost then AfterOwnCost(copy, route, was, EMPTY_SLOT) else EMPTY_SLOT;
            && s.record == None
            && (Applied(Least(others, Some(was.cost)), s.pending) == own <==>
                !(was.cost < own.value < route.cost && down != own))
  {
    hide Lowest;
  }

  lemma OwnSlotRight(e: Entry, route: Route, above: Option<Route>, due: Option<nat>)
    requires EntryRight(e, route.faceId, due) && FindRoute(e.routes, route) < |e.routes|
    ensures SlotRight(OverwrittenSlot(e, route, route.faceId, above), e, Overwritten(e, route), route.faceId, due,
                      OverOverwritten(e, route, route.faceId, CostOf(above), due), false)
  {
    var i := FindRoute(e.routes, route);
    RouteOverwritten(e.routes, i, route, route.faceId);
    OwnCostRight(UpdatedCopy(e, i, route), route, e.routes[i],
                 CostOf(Lowest(Erased(e.routes, i), route.faceId, false)));
    assert route.faceId !in e.inherited;
    hide Lowest, Captures, FindRoute, CountCapture, HasChildInherit, HasFaceId, Erased, EntryRight, AfterOwnCost, Least;
  }

  lemma OtherSlotRight(e: Entry, route: Route, f: FaceId, above: Option<Route>, due: Option<nat>)
    requires EntryRight(e, f, due) && (above.Some? <==> due.Some?) && FindRoute(e.routes, route) < |e.routes|
            && f != route.faceId
    ensures SlotRight(OverwrittenSlot(e, route, f, above), e, Overwritten(e, route), f, due,
                      OverOverwritten(e, route, f, CostOf(above), due), false)
  {
    CountMeansCapture(e);
    RouteOverwritten(e.routes, FindRoute(e.routes, route), route, f);
    hide Lowest, Captures, FindRoute, CountCapture, HasChildInherit, HasFaceId, Erased, AfterOwnCost;
  }

  lemma OverwrittenSlotRight(e: Entry, route: Route, f: FaceId, above: Option<Route>, due: Option<nat>)
    requires EntryRight(e, f, due) && (above.Some? <==> due.Some?) && FindRoute(e.routes, route) < |e.routes|
    ensures SlotRight(OverwrittenSlot(e, route, f, above), e, Overwritten(e, route), f, due,
                      OverOverwritten(e, route, f, CostOf(above), due), false)
  {
    hide SlotRight, OverwrittenSlot, OverOverwritten, EntryRight, Overwritten;
    if f == route.faceId {
      OwnSlotRight(e, route, above, due);
    } else {
      OtherSlotRight(e, route, f, above, due);
    }
  }

  // ---- A route unregistered ----

  /** The scans before and after, in terms of the routes that are left. */
  lemma RouteErased(e: Entry, i: nat, f: FaceId)
    requires i < |e.routes| && e.nCapture == CountCapture(e.routes)
    ensures var was, left := e.routes[i], EraseAt(e, i);
            && CostOf(Lowest(e.routes, f, false)) == Least(CostOf(Lowest(left.routes, f, false)), Part(was, f, false))
            && CostOf(Lowest(e.routes, f, true)) == Least(CostOf(Lowest(left.routes, f, true)), Part(was, f, true))
            && (HasFaceId(left.routes, f) <==> Lowest(left.routes, f, false).Some?)
            && (HasFaceId(e.routes, f) <==> Lowest(e.routes, f, false).Some?)
            && (e.HasCapture() <==> Captures(e.routes)) && (left.HasCapture() <==> Captures(left.routes))
            && (e.HasCapture() <==> was.capture || left.HasCapture())
            && (left.routes == [] <==> |e.routes| == 1)
            && (left.routes == [] ==>
                Lowest(left.routes, f, false).None? && Lowest(left.routes, f, true).None? && !left.HasCapture())
  {
    LowestSplits(e.routes, i, f, false);
    LowestSplits(e.routes, i, f, true);
    ScanFacts(e.routes, f);
    ScanFacts(Erased(e.routes, i), f);
    CountErased(e.routes, i);
    CountMeansCapture(e);
    CountMeansCapture(EraseAt(e, i));
  }

  function ErasedAdd(was: Route, left: Entry, above: Option<Route>): Option<Route> {
    if (was.childInherit || was.capture) && !left.HasCapture() && left.routes != [] then above
    else if was.childInherit && !was.capture && left.routes == [] then above
    else None
  }

  /** The route that is registered anew once one of several on its face is gone. */
  function NextAdd(left: Entry, next: Option<Route>, f: FaceId): Option<Route> {
    if next.Some? then NewRouteAdd(left, next.value, f) else None
  }

  /** What the names below are left with: the pushes for the erased route, then that for the next one. */
  function ErasedMoved(e: Entry, i: nat, f: FaceId, above: Option<Route>, due: Option<nat>): Option<nat>
    requires i < |e.routes|
  {
    var was, left := e.routes[i], EraseAt(e, i);
    var before := HandedDown(e.routes, f, due);
    MovedAgain(NextAdd(left, SecondLowest(e.routes, was.faceId), f), false, before,
               Moved(ErasedAdd(was, left, above), was.childInherit && f == was.faceId, before))
  }

  /** What the entry hands down once the route is gone, and the entry with its last one. */
  function LeftHandsDown(left: Entry, f: FaceId, due: Option<nat>): Option<nat> {
    if left.routes == [] then due else HandedDown(left.routes, f, due)
  }

  /**
   The sole route captured, and what it blocked is not given back; or the ancestor's route given is not its cheapest.
   */
  predicate StraySole(was: Route, above: Option<nat>, due: Option<nat>) {
    due.Some? && (was.capture || (was.childInherit && above != due))
  }

  /** The next route of the face is pushed: it is not the cheapest left, or none is left to hand down. */
  predicate StrayNext(next: Route, left: Entry, due: Option<nat>, down': Option<nat>) {
    if down'.Some? then next.cost != down'.value else left.HasCapture() || due != Some(next.cost)
  }

  /** The ancestor's route is pushed over one of the entry's own, or the last cheapest one is taken away. */
  predicate StrayRest(was: Route, left: Entry, f: FaceId, above: Option<nat>, due: Option<nat>, down': Option<nat>) {
    if (was.childInherit || was.capture) && !left.HasCapture() && above.Some?
        then above != (if down'.Some? then down' else due)
    else f == was.faceId && was.childInherit && down'.Some?
  }

  ghost predicate StrayErased(e: Entry, i: nat, f: FaceId, above: Option<nat>, due: Option<nat>)
    requires i < |e.routes|
  {
    var was, left := e.routes[i], EraseAt(e, i);
    var down', next := CostOf(Lowest(left.routes, f, true)), SecondLowest(e.routes, was.faceId);
    if left.routes == [] then StraySole(was, above, due)
    else if f == was.faceId && next.Some? && next.value.childInherit && (down'.None? || next.value.cost <= down'.value)
    then StrayNext(next.value, left, due, down')
    else StrayRest(was, left, f, above, due, down')
  }

  lemma ErasedHandsDown(e: Entry, i: nat, f: FaceId, above: Option<Route>, due: Option<nat>)
    requires e.nCapture == CountCapture(e.routes) && (above.Some? <==> due.Some?) && i < |e.routes|
    ensures ErasedMoved(e, i, f, above, due) == LeftHandsDown(EraseAt(e, i), f, due)
            <==> !StrayErased(e, i, f, CostOf(above), due)
  {
    RouteErased(e, i, f);
    SecondMeansAnother(e.routes, i);
    hide Lowest, Captures, CountCapture, HasChildInherit, HasFaceId, SecondLowest, Erased, Decremented;
  }

  function ErasedSlot(e: Entry, i: nat, f: FaceId, above: Option<Route>): Slot
    requires i < |e.routes|
  {
    var was, left, next := e.routes[i], EraseAt(e, i), SecondLowest(e.routes, e.routes[i].faceId);
    var back := was.capture && e.HasCapture() && !left.HasCapture() && left.routes != [];
    var s1 := if f == was.faceId then EMPTY_SLOT.RemoveOwn() else EMPTY_SLOT;
    var s2 := if back && above.Some? && !HasFaceId(left.routes, f) then s1.Inherit(above.value.cost) else s1;
    var s3 := if f == was.faceId && above.Some? && !left.HasCapture() && left.routes != []
        then s2.Inherit(above.value.cost) else s2;
    var s4 := if next.Some? && f == next.value.faceId && OwnIsCheapest(left.routes, next.value)
        then s3.AddOwn(next.value.cost) else s3;
    if left.routes == [] && f in e.inherited then s4.RemoveOwn() else s4
  }

  predicate OwnIsCheapest(rs: seq<Route>, r: Route) {
    var other := Lowest(rs, r.faceId, false);
    other.None? || r.cost <= other.value.cost
  }

  /**
   The next route on the face is given at a cost that is not the least one left, or an ancestor's wrong one is given.
   */
  ghost predicate OverErased(e: Entry, i: nat, f: FaceId, above: Option<nat>, due: Option<nat>)
    requires i < |e.routes|
  {
    var was, left, next := e.routes[i], EraseAt(e, i), SecondLowest(e.routes, e.routes[i].faceId);
    var own := CostOf(Lowest(left.routes, f, false));
    && left.routes != []
    && if f == was.faceId && own.Some? then
         if next.Some? && next.value.cost <= own.value then next.value.cost != own.value
         else left.HasCapture() || above != own
       else
         && !left.HasCapture() && above != due && own.None?
         && (f == was.faceId || was.capture)
  }

  /** A record of inheritance is set for a face on which the entry still has a route. */
  ghost predicate StaleErased(e: Entry, i: nat, f: FaceId, above: Option<nat>)
    requires i < |e.routes|
  {
    var left := EraseAt(e, i);
    f == e.routes[i].faceId && Lowest(left.routes, f, false).Some? && above.Some? && !left.HasCapture()
  }

  lemma ErasedSlotRight(e: Entry, i: nat, f: FaceId, above: Option<Route>, due: Option<nat>)
    requires EntryRight(e, f, due) && (above.Some? <==> due.Some?) && i < |e.routes|
    ensures var s, left := ErasedSlot(e, i, f, above), EraseAt(e, i);
            if left.routes == [] then Applied(OwnHop(e.routes, f, due), s.pending) == None
            else SlotRight(s, e, left.routes, f, due, OverErased(e, i, f, CostOf(above), due),
                           StaleErased(e, i, f, CostOf(above)))
  {
    RouteErased(e, i, f);
    SecondMeansAnother(e.routes, i);
    hide Lowest, Captures, CountCapture, HasChildInherit, HasFaceId, SecondLowest, Erased, Decremented;
  }
}
