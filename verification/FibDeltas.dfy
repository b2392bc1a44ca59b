/**
 The effect of FibUpdater's computation at one (name, face), in closed form. Traversals do not appear
 here: what a push from `root` does to a name below it depends only on the path between the two.
 */
module FibDeltas {
  import opened Wrappers
  import opened Routes
  import opened RibTree

  datatype UpdateAction = Register | Unregister | RemoveFace
  datatype RibUpdate = RibUpdate(action: UpdateAction, name: Name, route: Route)

  datatype Action = Add(cost: nat) | Remove

  /** The pending FIB action for a (name, face), and whether its inherited record is to be set or cleared. */
  datatype Slot = Slot(pending: Option<Action>, record: Option<bool>) {

    function Inherit(cost: nat): Slot {
      Slot(Some(Add(cost)), Some(true))
    }

    function Disinherit(): Slot {
      Slot(Some(Remove), Some(false))
    }

    function AddOwn(cost: nat): Slot {
      this.(pending := Some(Add(cost)))
    }

    function RemoveOwn(): Slot {
      this.(pending := Some(Remove))
    }
  }

  const EMPTY_SLOT := Slot(None, None)

  // ---- What travels down the tree ----

  /** The route on f that names directly below p inherit: p's own, else none past a capture, else p's inherited one. */
  function Offer(rib: RibView, p: Name, f: FaceId): (r: Option<Route>)
    decreases |p|
  {
    if p in rib && FirstInherit(rib[p].routes, f).Some? then FirstInherit(rib[p].routes, f)
    else if p in rib && rib[p].HasCapture() then None
    else if p == [] then None
    else Offer(rib, Up(p), f)
  }

  /** Rib::getAncestorRoutes at one face. */
  function Ancestor(rib: RibView, n: Name, f: FaceId): Option<Route> {
    if n == [] then None else Offer(rib, Up(n), f)
  }

  predicate Clear(e: Entry, f: FaceId) {
    !e.HasCapture() && !HasChildInherit(e.routes, f)
  }

  /** No entry on the path from just below root down to and including d captures or overrides f. */
  ghost predicate Open(rib: RibView, root: Name, d: Name, f: FaceId) {
    forall q :: q in rib && root < q <= d ==> Clear(rib[q], f)
  }

  // ---- FibUpdater::traverseSubTree ----

  /** One visited entry: `add` is the route on f being added, `remove` whether f is being removed. */
  function Visit(e: Entry, f: FaceId, add: Option<Route>, remove: bool, s: Slot): Slot {
    if add.Some? && !HasFaceId(e.routes, f) then s.Inherit(add.value.cost)
    else if remove && f in e.inherited then s.Disinherit()
    else s
  }

  /** The effect at d of pushing route changes to everything below root. */
  ghost function Push(rib: RibView, root: Name, d: Name, f: FaceId, add: Option<Route>, remove: bool, s: Slot): Slot {
    if root < d && d in rib && Open(rib, root, d, f) then Visit(rib[d], f, add, remove, s) else s
  }

  // ---- The create... functions ----

  ghost function AfterNewEntry(rib: RibView, n: Name, route: Route, d: Name, f: FaceId, s: Slot): Slot {
    var above := Ancestor(rib, n, f);
    if d == n then
      if f == route.faceId then s.AddOwn(route.cost)
      else if !route.capture && above.Some? then s.Inherit(above.value.cost)
      else s
    else
      var add := if !route.childInherit then None else if f == route.faceId then Some(route)
                 else if route.capture then None else above;
      Push(rib, n, d, f, add, route.capture && above.Some?, s)
  }

  ghost function AfterNewRoute(rib: RibView, n: Name, e: Entry, route: Route, captureOn: bool,
                               d: Name, f: FaceId, s: Slot): Slot {
    var above := Ancestor(rib, n, f);
    var remove := captureOn && above.Some?;
    if d == n then
      var s1 := if remove && f in e.inherited then s.Disinherit() else s;
      var other := Lowest(e.routes, route.faceId, false);
      if f == route.faceId && (other.None? || route.cost <= other.value.cost) then s1.AddOwn(route.cost) else s1
    else
      var prev := Lowest(e.routes, route.faceId, true);
      var add := if f == route.faceId && route.childInherit && (prev.None? || route.cost <= prev.value.cost)
                 then Some(route) else None;
      Push(rib, n, d, f, add, remove, s)
  }

  /** Line 486 of fib-updater.cpp dereferences prevRoute without testing it. */
  predicate NullDereference(e: Entry, route: Route, existing: Route) {
    var lowest := Lowest(e.routes, route.faceId, false);
    && route.cost != existing.cost
    && lowest.Some?
    && existing.cost < lowest.value.cost < route.cost
    && Lowest(e.routes, route.faceId, true).None?
  }

  ghost function AfterUpdatedRoute(rib: RibView, n: Name, e: Entry, route: Route, existing: Route,
                                   d: Name, f: FaceId, s: Slot): Slot {
    var costChanged := route.cost != existing.cost;
    var sameFlags := route.childInherit == existing.childInherit && route.capture == existing.capture;
    var prev := Lowest(e.routes, route.faceId, true);
    var s1 := if d == n && f == route.faceId && costChanged then AfterOwnCost(e, route, existing, s) else s;
    if !sameFlags then AfterToggledFlags(rib, n, e, route, existing, d, f, s1)
    else if f == route.faceId && costChanged && route.childInherit && (prev.None? || route.cost <= prev.value.cost)
    then Push(rib, n, d, f, Some(route), false, s1)
    else s1
  }

  // Lines 479-487 at the route's own name and face.
  function AfterOwnCost(e: Entry, route: Route, existing: Route, s: Slot): Slot {
    var lowest := Lowest(e.routes, route.faceId, false);
    var prev := Lowest(e.routes, route.faceId, true);
    if lowest.None? then s
    else if route.cost <= lowest.value.cost then s.AddOwn(route.cost)
    else if existing.cost < lowest.value.cost && prev.Some? then s.AddOwn(prev.value.cost)
    else s
  }

  // Lines 505-558.
  ghost function AfterToggledFlags(rib: RibView, n: Name, e: Entry, route: Route, existing: Route,
                                   d: Name, f: FaceId, s: Slot): Slot {
    var prev := Lowest(e.routes, route.faceId, true);
    var above := Ancestor(rib, n, f);
    var captureOn := !existing.capture && route.capture;
    var captureOff := existing.capture && !route.capture;
    if d == n then
      if captureOn && above.Some? && f in e.inherited then s.Disinherit()
      else if captureOff && above.Some? && !HasFaceId(e.routes, f) then s.Inherit(above.value.cost)
      else s
    else
      var on := !existing.childInherit && route.childInherit;
      var off := existing.childInherit && !route.childInherit;
      var add := if f != route.faceId then None
                 else if on && (prev.None? || route.cost <= prev.value.cost) then Some(route)
                 else if off then (if prev.Some? then prev else above)
                 else None;
      var s1 := Push(rib, n, d, f, add, f == route.faceId && off, s);
      Push(rib, n, d, f, if captureOff then above else None, captureOn && above.Some?, s1)
  }

  ghost function AfterErasedRoute(rib: RibView, n: Name, e: Entry, route: Route, captureOff: bool,
                                  d: Name, f: FaceId, s: Slot): Slot {
    var above := Ancestor(rib, n, f);
    var back := route.capture && captureOff && |e.routes| != 0;
    if d == n then
      var s1 := if f == route.faceId then s.RemoveOwn() else s;
      var s2 := if back && above.Some? && !HasFaceId(e.routes, f) then s1.Inherit(above.value.cost) else s1;
      if f == route.faceId && above.Some? && !e.HasCapture() && |e.routes| != 0 then s2.Inherit(above.value.cost)
          else s2
    else
      var add := if back || (route.childInherit && !route.capture && !e.HasCapture()) then above else None;
      Push(rib, n, d, f, add, route.childInherit && f == route.faceId, s)
  }

  ghost function AfterErasedEntry(n: Name, e: Entry, d: Name, f: FaceId, s: Slot): Slot {
    if d == n && f in e.inherited then s.RemoveOwn() else s
  }

  // ---- The compute... functions ----

  predicate Crashes(rib: RibView, u: RibUpdate) {
    && u.action == Register
    && u.name in rib
    && var e := rib[u.name];
       var i := FindRoute(e.routes, u.route);
       i < |e.routes| && NullDereference(UpdatedCopy(e, i, u.route), u.route, e.routes[i])
  }

  /** The copy made at lines 115-121: fields are written through the iterator, so the capture count stays. */
  function UpdatedCopy(e: Entry, i: nat, route: Route): Entry
    requires i < |e.routes|
  {
    e.(routes := e.routes[i := route])
  }

  ghost function AfterRegistration(rib: RibView, n: Name, route: Route, d: Name, f: FaceId, s: Slot): Slot {
    if n !in rib then AfterNewEntry(rib, n, route, d, f, s)
    else
      var e := rib[n];
      var i := FindRoute(e.routes, route);
      if i < |e.routes| then AfterUpdatedRoute(rib, n, UpdatedCopy(e, i, route), route, e.routes[i], d, f, s)
      else AfterNewRoute(rib, n, e, route, !e.HasCapture() && route.capture, d, f, s)
  }

  ghost function AfterUnregistration(rib: RibView, n: Name, route: Route, d: Name, f: FaceId, s: Slot): Slot {
    if n !in rib || FindRoute(rib[n].routes, route) == |rib[n].routes| then s
    else
      var e := rib[n];
      var i := FindRoute(e.routes, route);
      var temp := EraseAt(e, i);
      var s1 := AfterErasedRoute(rib, n, temp, e.routes[i], e.HasCapture() && !temp.HasCapture(), d, f, s);
      var next := SecondLowest(e.routes, route.faceId);
      var s2 := if next.Some? then AfterNewRoute(rib, n, temp, next.value, false, d, f, s1) else s1;
      if |e.routes| == 1 then AfterErasedEntry(n, e, d, f, s2) else s2
  }

  /** The slot of (d, f) once computeUpdates has handled the one update of a batch. */
  ghost function Delta(rib: RibView, u: RibUpdate, d: Name, f: FaceId): Slot {
    match u.action
    case Register => AfterRegistration(rib, u.name, u.route, d, f, EMPTY_SLOT)
    case Unregister => AfterUnregistration(rib, u.name, u.route, d, f, EMPTY_SLOT)
    case RemoveFace =>
      var s := AfterUnregistration(rib, u.name, u.route, d, f, EMPTY_SLOT);
      if f == u.route.faceId then s.(pending := None) else s
  }
}
