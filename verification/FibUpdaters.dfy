/** The computing half of class FibUpdater (rib/fib-updater.cpp:67-186, 313-714). */
module FibUpdaters {
  import opened Lists
  import opened Wrappers
  import opened Routes
  import opened RibTree
  import opened FibDeltas
  import opened FibUpdates

  class FibUpdater {
    var batchFaceId: FaceId
    var updatesForBatchFaceId: seq<FibUpdate>
    var updatesForNonBatchFaceId: seq<FibUpdate>
    var inheritedRoutes: seq<RibUpdate>

    ghost predicate Valid()
      reads this
    {
      && DistinctTargets(updatesForBatchFaceId)
      && DistinctTargets(updatesForNonBatchFaceId)
      && (forall i :: 0 <= i < |updatesForBatchFaceId| ==> updatesForBatchFaceId[i].faceId == batchFaceId)
      && (forall i :: 0 <= i < |updatesForNonBatchFaceId| ==> updatesForNonBatchFaceId[i].faceId != batchFaceId)
      && (forall i :: 0 <= i < |inheritedRoutes| ==> inheritedRoutes[i].action != RemoveFace)
    }

    ghost function SlotAt(d: Name, f: FaceId): Slot
      reads this
    {
      Slot(PendingIn(if f == batchFaceId then updatesForBatchFaceId else updatesForNonBatchFaceId, d, f),
           LastRecord(inheritedRoutes, d, f))
    }

    constructor ()
      ensures Valid() && updatesForBatchFaceId == [] && updatesForNonBatchFaceId == [] && inheritedRoutes == []
      ensures forall d, f :: SlotAt(d, f) == EMPTY_SLOT
    {
      batchFaceId := 0;
      updatesForBatchFaceId, updatesForNonBatchFaceId, inheritedRoutes := [], [], [];
    }

    // ---- Lines 313-334 ----

    method AddFibUpdate(update: FibUpdate)
      requires Valid()
      modifies this`updatesForBatchFaceId, this`updatesForNonBatchFaceId
      ensures Valid()
      ensures forall d, f :: SlotAt(d, f) ==
                if d == update.name && f == update.faceId then old(SlotAt(d, f)).(pending := Some(ActionOf(update)))
                else old(SlotAt(d, f))
    {
      var updates := if update.faceId == batchFaceId then updatesForBatchFaceId else updatesForNonBatchFaceId;
      ghost var before := updates;
      var it := 0;
      while it < |updates| && !SameTarget(update, updates[it])
        invariant 0 <= it <= |updates|
        invariant forall i :: 0 <= i < it ==> !SameTarget(update, updates[i])
      {
        it := it + 1;
      }
      PendingInAbsent(updates, update.name, update.faceId);
      if it < |updates| {
        updates := updates[it := updates[it].(action := update.action, cost := update.cost)];
        assert updates == before[it := update];
      } else {
        updates := updates + [update];
      }
      forall d, f
        ensures PendingIn(updates, d, f) ==
                if d == update.name && f == update.faceId then Some(ActionOf(update)) else PendingIn(before, d, f)
        ensures DistinctTargets(updates)
      {
        if it < |before| {
          PendingInReplaced(before, it, update, d, f);
        } else {
          PendingInAppended(before, update, d, f);
        }
      }
      if update.faceId == batchFaceId {
        updatesForBatchFaceId := updates;
      } else {
        updatesForNonBatchFaceId := updates;
      }
    }

    // ---- Lines 694-714 ----

    method AddInheritedRoute(name: Name, route: Route)
      requires Valid()
      modifies this`inheritedRoutes
      ensures Valid()
      ensures forall d, f :: SlotAt(d, f) ==
                if d == name && f == route.faceId then old(SlotAt(d, f)).(record := Some(true)) else old(SlotAt(d, f))
    {
      inheritedRoutes := inheritedRoutes + [RibUpdate(Register, name, route)];
      forall d, f {
        LastRecordAppended(old(inheritedRoutes), RibUpdate(Register, name, route), d, f);
      }
    }

    method RemoveInheritedRoute(name: Name, route: Route)
      requires Valid()
      modifies this`inheritedRoutes
      ensures Valid()
      ensures forall d, f :: SlotAt(d, f) ==
                if d == name && f == route.faceId then old(SlotAt(d, f)).(record := Some(false)) else old(SlotAt(d, f))
    {
      inheritedRoutes := inheritedRoutes + [RibUpdate(Unregister, name, route)];
      forall d, f {
        LastRecordAppended(old(inheritedRoutes), RibUpdate(Unregister, name, route), d, f);
      }
    }

    // ---- Lines 336-374 ----

    method AddInheritedRoutes(name: Name, entry: Entry, routesToAdd: RouteSet)
      requires Valid() && Keyed(routesToAdd)
      modifies this`updatesForBatchFaceId, this`updatesForNonBatchFaceId, this`inheritedRoutes
      ensures Valid()
      ensures forall d, f :: SlotAt(d, f) ==
                if d == name && f in routesToAdd && !HasFaceId(entry.routes, f)
                then old(SlotAt(d, f)).Inherit(routesToAdd[f].cost) else old(SlotAt(d, f))
    {
      var todo := routesToAdd.Keys;
      while todo != {}
        invariant Valid() && todo <= routesToAdd.Keys
        invariant forall d, f :: SlotAt(d, f) ==
                    if d == name && f in routesToAdd && f !in todo && !HasFaceId(entry.routes, f)
                    then old(SlotAt(d, f)).Inherit(routesToAdd[f].cost) else old(SlotAt(d, f))
        decreases todo
      {
        var face :| face in todo;
        todo := todo - {face};
        if !HasFaceId(entry.routes, face) {
          AddInheritedRoute(name, routesToAdd[face]);
          AddFibUpdate(CreateAddUpdate(name, face, routesToAdd[face].cost));
        }
      }
    }

    method AddInheritedRoutesExcept(name: Name, routesToAdd: RouteSet, ignore: Route)
      requires Valid() && Keyed(routesToAdd)
      modifies this`updatesForBatchFaceId, this`updatesForNonBatchFaceId, this`inheritedRoutes
      ensures Valid()
      ensures forall d, f :: SlotAt(d, f) ==
                if d == name && f in routesToAdd && f != ignore.faceId
                then old(SlotAt(d, f)).Inherit(routesToAdd[f].cost) else old(SlotAt(d, f))
    {
      var todo := routesToAdd.Keys;
      while todo != {}
        invariant Valid() && todo <= routesToAdd.Keys
        invariant forall d, f :: SlotAt(d, f) ==
                    if d == name && f in routesToAdd && f !in todo && f != ignore.faceId
                    then old(SlotAt(d, f)).Inherit(routesToAdd[f].cost) else old(SlotAt(d, f))
        decreases todo
      {
        var face :| face in todo;
        todo := todo - {face};
        if face != ignore.faceId {
          AddInheritedRoute(name, routesToAdd[face]);
          AddFibUpdate(CreateAddUpdate(name, face, routesToAdd[face].cost));
        }
      }
    }

    method RemoveInheritedRoutes(name: Name, entry: Entry, routesToRemove: RouteSet)
      requires Valid() && Keyed(routesToRemove)
      modifies this`updatesForBatchFaceId, this`updatesForNonBatchFaceId, this`inheritedRoutes
      ensures Valid()
      ensures forall d, f :: SlotAt(d, f) ==
                if d == name && f in routesToRemove && f in entry.inherited
                then old(SlotAt(d, f)).Disinherit() else old(SlotAt(d, f))
    {
      var todo := routesToRemove.Keys;
      while todo != {}
        invariant Valid() && todo <= routesToRemove.Keys
        invariant forall d, f :: SlotAt(d, f) ==
                    if d == name && f in routesToRemove && f !in todo && f in entry.inherited
                    then old(SlotAt(d, f)).Disinherit() else old(SlotAt(d, f))
        decreases todo
      {
        var face :| face in todo;
        todo := todo - {face};
        if face in entry.inherited {
          RemoveInheritedRoute(name, routesToRemove[face]);
          AddFibUpdate(CreateRemoveUpdate(name, face));
        }
      }
    }

    // ---- Lines 637-692 ----

    method ModifyChildrensInheritedRoutes(rib: RibView, children: seq<Name>, routesToAdd: RouteSet,
                                          routesToRemove: RouteSet,
                                          ghost root: Name, ghost bound: nat)
      requires Valid() && Keyed(routesToAdd) && Keyed(routesToRemove)
      requires TreeOk(rib) && Topmost(rib, root, children) && |root| <= bound
      requires forall m :: m in rib ==> |m| <= bound
      modifies this`updatesForBatchFaceId, this`updatesForNonBatchFaceId, this`inheritedRoutes
      ensures Valid()
      ensures forall d, f ::
                SlotAt(d, f) == Push(rib, root, d, f, Get(routesToAdd, f), f in routesToRemove, old(SlotAt(d, f)))
      decreases bound - |root|, 0
    {
      hide Visit, TreeOk, FibUpdater.SlotAt;
      var i := 0;
      while i < |children|
        invariant 0 <= i <= |children| && Valid()
        invariant forall d, f :: SlotAt(d, f) ==
                    if Reached(rib, root, children[..i], d) && Open(rib, root, d, f)
                    then Visit(rib[d], f, Get(routesToAdd, f), f in routesToRemove, old(SlotAt(d, f)))
                    else old(SlotAt(d, f))
      {
        assert children[i] in children;
        TraverseSubTree(rib, children[i], routesToAdd, routesToRemove, bound);
        forall d, f
          ensures Reached(rib, root, children[..i + 1], d) <==>
                  Reached(rib, root, children[..i], d) || (d in rib && children[i] <= d)
          ensures Reached(rib, root, children[..i], d) ==> !(children[i] <= d)
          ensures d in rib && children[i] <= d ==> (OpenFrom(rib, children[i], d, f) <==> Open(rib, root, d, f))
        {
          ReachedNext(rib, root, children, i, d, f);
        }
        i := i + 1;
      }
      assert children[..i] == children;
      forall d | d in rib && root < d
        ensures Reached(rib, root, children, d)
      {
        BranchIsChild(rib, root, children, d);
      }
    }

    method TraverseSubTree(rib: RibView, n: Name, routesToAdd: RouteSet, routesToRemove: RouteSet, ghost bound: nat)
      requires Valid() && Keyed(routesToAdd) && Keyed(routesToRemove)
      requires TreeOk(rib) && n in rib
      requires forall m :: m in rib ==> |m| <= bound
      modifies this`updatesForBatchFaceId, this`updatesForNonBatchFaceId, this`inheritedRoutes
      ensures Valid()
      ensures forall d, f :: SlotAt(d, f) ==
                if n <= d && d in rib && OpenFrom(rib, n, d, f)
                then Visit(rib[d], f, Get(routesToAdd, f), f in routesToRemove, old(SlotAt(d, f)))
                else old(SlotAt(d, f))
      decreases bound - |n|, 1
    {
      hide Visit, Push, TreeOk, Topmost, FibUpdater.SlotAt;
      var entry := rib[n];
      if entry.HasCapture() {
        return;
      }
      var toRemove := RemoveFromEntry(n, entry, routesToRemove);
      label Removed:
      var toAdd := AddToEntry(n, entry, routesToAdd);
      label Added:
      ChildrenAreTopmost(rib, n);
      ModifyChildrensInheritedRoutes(rib, entry.children, toAdd, toRemove, n, bound);
      forall d, f
        ensures SlotAt(d, f) ==
                if n <= d && d in rib && OpenFrom(rib, n, d, f)
                then Visit(rib[d], f, Get(routesToAdd, f), f in routesToRemove, old(SlotAt(d, f)))
                else old(SlotAt(d, f))
      {
        VisitThenPush(rib, n, d, f, Get(routesToAdd, f), f in routesToRemove, old(SlotAt(d, f)));
        assert f in toRemove <==> Get(toRemove, f).Some?;
        assert f in toAdd <==> Get(toAdd, f).Some?;
        assert SlotAt(d, f) == Push(rib, n, d, f, Get(toAdd, f), f in toRemove, old@Added(SlotAt(d, f)));
      }
    }

    // Lines 656-672: the first loop of traverseSubTree.
    method RemoveFromEntry(n: Name, entry: Entry, routesToRemove: RouteSet) returns (kept: RouteSet)
      requires Valid() && Keyed(routesToRemove)
      modifies this`updatesForBatchFaceId, this`updatesForNonBatchFaceId, this`inheritedRoutes
      ensures Valid() && Keyed(kept)
      ensures forall f :: Get(kept, f) == if HasChildInherit(entry.routes, f) then None else Get(routesToRemove, f)
      ensures forall d, f :: SlotAt(d, f) ==
                if d == n && f in kept && f in entry.inherited then old(SlotAt(d, f)).Disinherit()
                    else old(SlotAt(d, f))
    {
      kept := routesToRemove;
      var todo := routesToRemove.Keys;
      while todo != {}
        invariant Valid() && Keyed(kept) && todo <= kept.Keys
        invariant forall f :: Get(kept, f) == if f !in todo && HasChildInherit(entry.routes, f) then None
                else Get(routesToRemove, f)
        invariant forall d, f :: SlotAt(d, f) ==
                    if d == n && f in kept && f !in todo && f in entry.inherited
                    then old(SlotAt(d, f)).Disinherit() else old(SlotAt(d, f))
        decreases todo
      {
        var face :| face in todo;
        todo := todo - {face};
        if HasChildInherit(entry.routes, face) {
          kept := kept - {face};
        } else if face in entry.inherited {
          RemoveInheritedRoute(n, kept[face]);
          AddFibUpdate(CreateRemoveUpdate(n, face));
        }
      }
    }

    // Lines 674-689: the second loop of traverseSubTree.
    method AddToEntry(n: Name, entry: Entry, routesToAdd: RouteSet) returns (kept: RouteSet)
      requires Valid() && Keyed(routesToAdd)
      modifies this`updatesForBatchFaceId, this`updatesForNonBatchFaceId, this`inheritedRoutes
      ensures Valid() && Keyed(kept)
      ensures forall f :: Get(kept, f) == if HasChildInherit(entry.routes, f) then None else Get(routesToAdd, f)
      ensures forall d, f :: SlotAt(d, f) ==
                if d == n && f in kept && !HasFaceId(entry.routes, f)
                then old(SlotAt(d, f)).Inherit(kept[f].cost) else old(SlotAt(d, f))
    {
      kept := routesToAdd;
      var todo := routesToAdd.Keys;
      while todo != {}
        invariant Valid() && Keyed(kept) && todo <= kept.Keys
        invariant forall f :: Get(kept, f) == if f !in todo && HasChildInherit(entry.routes, f) then None
                else Get(routesToAdd, f)
        invariant forall d, f :: SlotAt(d, f) ==
                    if d == n && f in kept && f !in todo && !HasFaceId(entry.routes, f)
                    then old(SlotAt(d, f)).Inherit(kept[f].cost) else old(SlotAt(d, f))
        decreases todo
      {
        var face :| face in todo;
        todo := todo - {face};
        if HasChildInherit(entry.routes, face) {
          kept := kept - {face};
        } else if !HasFaceId(entry.routes, face) {
          AddInheritedRoute(n, kept[face]);
          AddFibUpdate(CreateAddUpdate(n, face, kept[face].cost));
        }
      }
    }

    // ---- Lines 376-460 ----

    method CreateFibUpdatesForNewRibEntry(rib: RibView, name: Name, route: Route, children: seq<Name>, ghost bound: nat)
      requires Valid() && TreeOk(rib) && name !in rib && Topmost(rib, name, children)
      requires |name| <= bound && forall m :: m in rib ==> |m| <= bound
      modifies this`updatesForBatchFaceId, this`updatesForNonBatchFaceId, this`inheritedRoutes
      ensures Valid()
      ensures forall d, f :: SlotAt(d, f) == AfterNewEntry(rib, name, route, d, f, old(SlotAt(d, f)))
    {
      hide TreeOk, Topmost, FibUpdater.SlotAt, FibUpdater.Valid, Visit, Open, HasFaceId, Ancestor;
      forall d, f, s {
        PushNothing(rib, name, d, f, s);
      }
      AddFibUpdate(CreateAddUpdate(name, route.faceId, route.cost));
      var parent := FindParent(rib.Keys, name);
      var ancestorRoutes := GetAncestorRoutes(rib, parent, name);
      if !route.childInherit && !route.capture {
        AddInheritedRoutesExcept(name, ancestorRoutes, route);
      } else if route.childInherit && route.capture {
        ModifyChildrensInheritedRoutes(rib, children, map[route.faceId := route], ancestorRoutes, name, bound);
      } else if route.childInherit {
        AddInheritedRoutesExcept(name, ancestorRoutes, route);
        ancestorRoutes := ancestorRoutes[route.faceId := route];
        ModifyChildrensInheritedRoutes(rib, children, ancestorRoutes, map[], name, bound);
      } else {
        ModifyChildrensInheritedRoutes(rib, children, map[], ancestorRoutes, name, bound);
      }
    }

    method CreateFibUpdatesForNewRoute(rib: RibView, n: Name, entry: Entry, route: Route, captureWasTurnedOn: bool,
                                       ghost bound: nat)
      requires Valid() && Copied(rib, n, entry) && forall m :: m in rib ==> |m| <= bound
      modifies this`updatesForBatchFaceId, this`updatesForNonBatchFaceId, this`inheritedRoutes
      ensures Valid()
      ensures forall d, f ::
                SlotAt(d, f) == AfterNewRoute(rib, n, entry, route, captureWasTurnedOn, d, f, old(SlotAt(d, f)))
    {
      hide FibUpdater.SlotAt, FibUpdater.Valid, Visit, TreeOk, Topmost, Open, Lowest, Ancestor;
      var prevRoute := Lowest(entry.routes, route.faceId, true);
      var routesToAdd: RouteSet := map[];
      if route.childInherit {
        if prevRoute.None? || route.cost <= prevRoute.value.cost {
          routesToAdd := map[route.faceId := route];
        }
      }
      var routesToRemove: RouteSet := map[];
      if captureWasTurnedOn {
        routesToRemove := GetAncestorRoutes(rib, entry.parent, n);
        RemoveInheritedRoutes(n, entry, routesToRemove);
      }
      label Self:
      ChildrenAreTopmost(rib, n);
      ModifyChildrensInheritedRoutes(rib, entry.children, routesToAdd, routesToRemove, n, bound);
      label Below:
      var other := Lowest(entry.routes, route.faceId, false);
      if other.None? || route.cost <= other.value.cost {
        AddFibUpdate(CreateAddUpdate(n, route.faceId, route.cost));
      }
      forall d, f
        ensures SlotAt(d, f) == AfterNewRoute(rib, n, entry, route, captureWasTurnedOn, d, f, old(SlotAt(d, f)))
      {
        assert f in routesToRemove <==> Get(routesToRemove, f).Some?;
        assert d != n ==> old@Self(SlotAt(d, f)) == old(SlotAt(d, f));
        assert old@Below(SlotAt(d, f)) ==
            Push(rib, n, d, f, Get(routesToAdd, f), f in routesToRemove, old@Self(SlotAt(d, f)));
      }
    }

    // ---- Lines 462-559 ----

    /** Returns false where the source would dereference a null prevRoute. */
    method CreateFibUpdatesForUpdatedRoute(rib: RibView, n: Name, entry: Entry, route: Route, existingRoute: Route,
                                           ghost bound: nat)
      returns (ok: bool)
      requires Valid() && Copied(rib, n, entry) && HasFaceId(entry.routes, route.faceId) && forall m :: m in rib ==>
              |m| <= bound
      modifies this`updatesForBatchFaceId, this`updatesForNonBatchFaceId, this`inheritedRoutes
      ensures Valid()
      ensures ok <==> !NullDereference(entry, route, existingRoute)
      ensures ok ==> forall d, f ::
                SlotAt(d, f) == AfterUpdatedRoute(rib, n, entry, route, existingRoute, d, f, old(SlotAt(d, f)))
    {
      hide FibUpdater.SlotAt, TreeOk, Topmost, Open, Visit, AfterOwnCost, AfterToggledFlags;
      ok := true;
      var costDidChange := route.cost != existingRoute.cost;
      var prevRoute := Lowest(entry.routes, route.faceId, true);
      var sameFlags := route.childInherit == existingRoute.childInherit && route.capture == existingRoute.capture;
      if sameFlags && !costDidChange {
        return;
      }
      if costDidChange {
        ok := UpdateOwnCost(n, entry, route, existingRoute, prevRoute);
        if !ok {
          return;
        }
        if (prevRoute.None? || route.cost <= prevRoute.value.cost) && sameFlags && route.childInherit {
          AddSelfToChildren(rib, n, entry, route, bound);
          return;
        }
      }
      label Own:
      ToggleFlags(rib, n, entry, route, existingRoute, prevRoute, bound);
      if sameFlags {
        forall d, f {
          SameFlagsToggleNothing(rib, n, entry, route, existingRoute, d, f, old@Own(SlotAt(d, f)));
        }
      }
    }

    // Lines 495-498 and 510-513.
    method AddSelfToChildren(rib: RibView, n: Name, entry: Entry, route: Route, ghost bound: nat)
      requires Valid() && Copied(rib, n, entry) && forall m :: m in rib ==> |m| <= bound
      modifies this`updatesForBatchFaceId, this`updatesForNonBatchFaceId, this`inheritedRoutes
      ensures Valid()
      ensures forall d, f :: SlotAt(d, f) ==
                if f == route.faceId then Push(rib, n, d, f, Some(route), false, old(SlotAt(d, f)))
                    else old(SlotAt(d, f))
    {
      hide FibUpdater.SlotAt, TreeOk, Topmost, Open;
      ChildrenAreTopmost(rib, n);
      ModifyChildrensInheritedRoutes(rib, entry.children, map[route.faceId := route], map[], n, bound);
    }

    // Lines 505-558.
    method ToggleFlags(rib: RibView, n: Name, entry: Entry, route: Route, existingRoute: Route,
                       prevRoute: Option<Route>,
                       ghost bound: nat)
      requires Valid() && Copied(rib, n, entry) && forall m :: m in rib ==> |m| <= bound
      requires prevRoute == Lowest(entry.routes, route.faceId, true)
      modifies this`updatesForBatchFaceId, this`updatesForNonBatchFaceId, this`inheritedRoutes
      ensures Valid()
      ensures forall d, f ::
                SlotAt(d, f) == AfterToggledFlags(rib, n, entry, route, existingRoute, d, f, old(SlotAt(d, f)))
    {
      hide FibUpdater.SlotAt, TreeOk, Topmost, Open, Visit;
      ToggleChildInherit(rib, n, entry, route, existingRoute, prevRoute, bound);
      label Toggled:
      ToggleCapture(rib, n, entry, route, existingRoute, bound);
      forall d, f
        ensures SlotAt(d, f) == AfterToggledFlags(rib, n, entry, route, existingRoute, d, f, old(SlotAt(d, f)))
      {
        assert d == n ==> old@Toggled(SlotAt(d, f)) == old(SlotAt(d, f));
        PushNothing(rib, n, d, f, old@Toggled(SlotAt(d, f)));
        PushNothing(rib, n, d, f, old(SlotAt(d, f)));
      }
    }

    // Lines 476-487.
    method UpdateOwnCost(n: Name, entry: Entry, route: Route, existingRoute: Route, prevRoute: Option<Route>)
      returns (ok: bool)
      requires Valid() && HasFaceId(entry.routes, route.faceId)
      requires route.cost != existingRoute.cost && prevRoute == Lowest(entry.routes, route.faceId, true)
      modifies this`updatesForBatchFaceId, this`updatesForNonBatchFaceId
      ensures Valid()
      ensures ok <==> !NullDereference(entry, route, existingRoute)
      ensures ok ==> forall d, f :: SlotAt(d, f) ==
                                    if d != n || f != route.faceId then old(SlotAt(d, f))
                                    else AfterOwnCost(entry, route, existingRoute, old(SlotAt(d, f)))
    {
      hide FibUpdater.SlotAt;
      ScanFacts(entry.routes, route.faceId);
      ok := true;
      var lowest := Lowest(entry.routes, route.faceId, false).value;
      if route.cost <= lowest.cost {
        AddFibUpdate(CreateAddUpdate(n, route.faceId, route.cost));
      } else if existingRoute.cost < lowest.cost {
        if prevRoute.None? {
          return false;
        }
        AddFibUpdate(CreateAddUpdate(n, prevRoute.value.faceId, prevRoute.value.cost));
      }
    }

    // Lines 505-538.
    method ToggleChildInherit(rib: RibView, n: Name, entry: Entry, route: Route, existingRoute: Route,
                              prevRoute: Option<Route>,
                              ghost bound: nat)
      requires Valid() && Copied(rib, n, entry) && forall m :: m in rib ==> |m| <= bound
      requires prevRoute == Lowest(entry.routes, route.faceId, true)
      modifies this`updatesForBatchFaceId, this`updatesForNonBatchFaceId, this`inheritedRoutes
      ensures Valid()
      ensures forall d, f :: SlotAt(d, f) ==
                var on := !existingRoute.childInherit && route.childInherit;
                var off := existingRoute.childInherit && !route.childInherit;
                var add := if f != route.faceId then None
                           else if on && (prevRoute.None? || route.cost <= prevRoute.value.cost) then Some(route)
                           else if off then (if prevRoute.Some? then prevRoute else Ancestor(rib, n, f)) else None;
                Push(rib, n, d, f, add, f == route.faceId && off, old(SlotAt(d, f)))
    {
      hide FibUpdater.SlotAt, TreeOk, Topmost, Open;
      ChildrenAreTopmost(rib, n);
      if !existingRoute.childInherit && route.childInherit {
        if prevRoute.None? || route.cost <= prevRoute.value.cost {
          AddSelfToChildren(rib, n, entry, route, bound);
        }
      } else if existingRoute.childInherit && !route.childInherit {
        var routesToAdd: RouteSet := map[];
        if prevRoute.Some? {
          routesToAdd := map[route.faceId := prevRoute.value];
        } else {
          var ancestorRoutes := GetAncestorRoutes(rib, entry.parent, n);
          assert Get(ancestorRoutes, route.faceId) == Ancestor(rib, n, route.faceId);
          if route.faceId in ancestorRoutes {
            routesToAdd := map[route.faceId := ancestorRoutes[route.faceId]];
          }
        }
        ModifyChildrensInheritedRoutes(rib, entry.children, routesToAdd, map[route.faceId := route], n, bound);
      }
    }

    // Lines 540-558.
    method ToggleCapture(rib: RibView, n: Name, entry: Entry, route: Route, existingRoute: Route, ghost bound: nat)
      requires Valid() && Copied(rib, n, entry) && forall m :: m in rib ==> |m| <= bound
      modifies this`updatesForBatchFaceId, this`updatesForNonBatchFaceId, this`inheritedRoutes
      ensures Valid()
      ensures forall d, f :: SlotAt(d, f) ==
                var on := !existingRoute.capture && route.capture;
                var off := existingRoute.capture && !route.capture;
                var above := Ancestor(rib, n, f);
                if d == n then
                  if on && above.Some? && f in entry.inherited then old(SlotAt(d, f)).Disinherit()
                  else if off && above.Some? && !HasFaceId(entry.routes, f)
                      then old(SlotAt(d, f)).Inherit(above.value.cost)
                  else old(SlotAt(d, f))
                else Push(rib, n, d, f, if off then above else None, on && above.Some?, old(SlotAt(d, f)))
    {
      hide FibUpdater.SlotAt, TreeOk, Topmost, Open;
      ChildrenAreTopmost(rib, n);
      if !existingRoute.capture && route.capture {
        var ancestorRoutes := GetAncestorRoutes(rib, entry.parent, n);
        assert forall f :: f in ancestorRoutes <==> Get(ancestorRoutes, f).Some?;
        RemoveInheritedRoutes(n, entry, ancestorRoutes);
        ModifyChildrensInheritedRoutes(rib, entry.children, map[], ancestorRoutes, n, bound);
      } else if existingRoute.capture && !route.capture {
        var ancestorRoutes := GetAncestorRoutes(rib, entry.parent, n);
        assert forall f :: f in ancestorRoutes <==> Get(ancestorRoutes, f).Some?;
        AddInheritedRoutes(n, entry, ancestorRoutes);
        ModifyChildrensInheritedRoutes(rib, entry.children, ancestorRoutes, map[], n, bound);
      }
    }

    // ---- Lines 561-635 ----

    method CreateFibUpdatesForErasedRoute(rib: RibView, n: Name, entry: Entry, route: Route, captureWasTurnedOff: bool,
                                          ghost bound: nat)
      requires Valid() && Copied(rib, n, entry) && forall m :: m in rib ==> |m| <= bound
      modifies this`updatesForBatchFaceId, this`updatesForNonBatchFaceId, this`inheritedRoutes
      ensures Valid()
      ensures forall d, f ::
                SlotAt(d, f) == AfterErasedRoute(rib, n, entry, route, captureWasTurnedOff, d, f, old(SlotAt(d, f)))
    {
      hide FibUpdater.SlotAt, TreeOk, Topmost, Open, Visit;
      AddFibUpdate(CreateRemoveUpdate(n, route.faceId));
      label Own:
      PushForErasedRoute(rib, n, entry, route, captureWasTurnedOff, bound);
      label Pushed:
      var ancestorRoutes := GetAncestorRoutes(rib, entry.parent, n);
      assert Get(ancestorRoutes, route.faceId) == Ancestor(rib, n, route.faceId);
      if !entry.HasCapture() && |entry.routes| != 0 {
        if route.faceId in ancestorRoutes {
          AddInheritedRoute(n, ancestorRoutes[route.faceId]);
          AddFibUpdate(CreateAddUpdate(n, route.faceId, ancestorRoutes[route.faceId].cost));
        }
      }
      forall d, f
        ensures SlotAt(d, f) == AfterErasedRoute(rib, n, entry, route, captureWasTurnedOff, d, f, old(SlotAt(d, f)))
      {
        assert d != n ==> old@Own(SlotAt(d, f)) == old(SlotAt(d, f)) && SlotAt(d, f) == old@Pushed(SlotAt(d, f));
      }
    }

    // Lines 567-611.
    method PushForErasedRoute(rib: RibView, n: Name, entry: Entry, route: Route, captureWasTurnedOff: bool,
                              ghost bound: nat)
      requires Valid() && Copied(rib, n, entry) && forall m :: m in rib ==> |m| <= bound
      modifies this`updatesForBatchFaceId, this`updatesForNonBatchFaceId, this`inheritedRoutes
      ensures Valid()
      ensures forall d, f :: SlotAt(d, f) ==
                var above := Ancestor(rib, n, f);
                var back := route.capture && captureWasTurnedOff && |entry.routes| != 0;
                var add := if back || (route.childInherit && !route.capture && !entry.HasCapture()) then above
                    else None;
                if d == n then
                  if back && above.Some? && !HasFaceId(entry.routes, f) then old(SlotAt(d, f)).Inherit(above.value.cost)
                  else old(SlotAt(d, f))
                else Push(rib, n, d, f, add, route.childInherit && f == route.faceId, old(SlotAt(d, f)))
    {
      hide FibUpdater.SlotAt, TreeOk, Topmost, Open;
      ChildrenAreTopmost(rib, n);
      if route.childInherit && route.capture {
        var routesToAdd: RouteSet := map[];
        if captureWasTurnedOff && |entry.routes| != 0 {
          routesToAdd := AncestorsToSelf(rib, n, entry);
        }
        ModifyChildrensInheritedRoutes(rib, entry.children, routesToAdd, map[route.faceId := route], n, bound);
      } else if route.childInherit {
        var routesToAdd: RouteSet := map[];
        if !entry.HasCapture() {
          routesToAdd := GetAncestorRoutes(rib, entry.parent, n);
        }
        ModifyChildrensInheritedRoutes(rib, entry.children, routesToAdd, map[route.faceId := route], n, bound);
      } else if route.capture {
        var routesToAdd: RouteSet := map[];
        if captureWasTurnedOff && |entry.routes| != 0 {
          routesToAdd := AncestorsToSelf(rib, n, entry);
        }
        ModifyChildrensInheritedRoutes(rib, entry.children, routesToAdd, map[], n, bound);
      }
    }

    // Lines 577-580 and 604-607.
    method AncestorsToSelf(rib: RibView, n: Name, entry: Entry) returns (routesToAdd: RouteSet)
      requires Valid() && Copied(rib, n, entry)
      modifies this`updatesForBatchFaceId, this`updatesForNonBatchFaceId, this`inheritedRoutes
      ensures Valid() && Keyed(routesToAdd)
      ensures forall f :: Get(routesToAdd, f) == Ancestor(rib, n, f)
      ensures forall d, f :: SlotAt(d, f) ==
                if d == n && Ancestor(rib, n, f).Some? && !HasFaceId(entry.routes, f)
                then old(SlotAt(d, f)).Inherit(Ancestor(rib, n, f).value.cost) else old(SlotAt(d, f))
    {
      hide FibUpdater.SlotAt, TreeOk;
      routesToAdd := GetAncestorRoutes(rib, entry.parent, n);
      assert forall f :: f in routesToAdd <==> Get(routesToAdd, f).Some?;
      AddInheritedRoutes(n, entry, routesToAdd);
    }

    method CreateFibUpdatesForErasedRibEntry(n: Name, entry: Entry)
      requires Valid()
      modifies this`updatesForBatchFaceId, this`updatesForNonBatchFaceId
      ensures Valid()
      ensures forall d, f :: SlotAt(d, f) == AfterErasedEntry(n, entry, d, f, old(SlotAt(d, f)))
    {
      var todo := entry.inherited;
      while todo != {}
        invariant Valid() && todo <= entry.inherited
        invariant forall d, f :: SlotAt(d, f) ==
                    if d == n && f in entry.inherited && f !in todo then old(SlotAt(d, f)).RemoveOwn()
                        else old(SlotAt(d, f))
        decreases todo
      {
        var face :| face in todo;
        todo := todo - {face};
        AddFibUpdate(CreateRemoveUpdate(n, face));
      }
    }

    // ---- Lines 67-186 ----

    method ComputeUpdatesForRegistration(rib: RibView, prefix: Name, route: Route, ghost bound: nat) returns (ok: bool)
      requires Valid() && TreeOk(rib)
      requires |prefix| <= bound && forall m :: m in rib ==> |m| <= bound
      modifies this`updatesForBatchFaceId, this`updatesForNonBatchFaceId, this`inheritedRoutes
      ensures Valid()
      ensures ok <==> !Crashes(rib, RibUpdate(Register, prefix, route))
      ensures ok ==> forall d, f :: SlotAt(d, f) == AfterRegistration(rib, prefix, route, d, f, old(SlotAt(d, f)))
    {
      ok := true;
      if prefix in rib {
        var entry := rib[prefix];
        var i := FindRoute(entry.routes, route);
        if i == |entry.routes| {
          var willCaptureBeTurnedOn := !entry.HasCapture() && route.capture;
          CreateFibUpdatesForNewRoute(rib, prefix, entry, route, willCaptureBeTurnedOn, bound);
        } else {
          var entryCopy := UpdatedCopy(entry, i, route);
          assert entryCopy.routes[i] == route;
          ok := CreateFibUpdatesForUpdatedRoute(rib, prefix, entryCopy, route, entry.routes[i], bound);
        }
      } else {
        var parent := FindParent(rib.Keys, prefix);
        var children := ChildrenForNonInsertedName(rib, prefix, parent);
        CreateFibUpdatesForNewRibEntry(rib, prefix, route, children, bound);
      }
    }

    method ComputeUpdatesForUnregistration(rib: RibView, prefix: Name, route: Route, ghost bound: nat)
      requires Valid() && TreeOk(rib)
      requires forall m :: m in rib ==> |m| <= bound
      modifies this`updatesForBatchFaceId, this`updatesForNonBatchFaceId, this`inheritedRoutes
      ensures Valid()
      ensures forall d, f :: SlotAt(d, f) == AfterUnregistration(rib, prefix, route, d, f, old(SlotAt(d, f)))
    {
      hide FibUpdater.SlotAt, TreeOk, AfterErasedRoute, AfterNewRoute, AfterErasedEntry;
      if prefix in rib {
        var entry := rib[prefix];
        var hadCapture := entry.HasCapture();
        var i := FindRoute(entry.routes, route);
        if i < |entry.routes| {
          var temp := EraseAt(entry, i);
          assert Copied(rib, prefix, temp) by {
            ParentKnown(rib, prefix);
          }
          var captureWasTurnedOff := hadCapture && !temp.HasCapture();
          CreateFibUpdatesForErasedRoute(rib, prefix, temp, entry.routes[i], captureWasTurnedOff, bound);
          var next := SecondLowest(entry.routes, route.faceId);
          if next.Some? {
            CreateFibUpdatesForNewRoute(rib, prefix, temp, next.value, false, bound);
          }
          if |entry.routes| == 1 {
            CreateFibUpdatesForErasedRibEntry(prefix, entry);
          }
        }
      }
    }

    // Line 86.
    method ClearUpdatesForBatchFaceId()
      requires Valid()
      modifies this`updatesForBatchFaceId
      ensures Valid()
      ensures forall d, f :: SlotAt(d, f) == if f == batchFaceId then old(SlotAt(d, f)).(pending := None)
              else old(SlotAt(d, f))
    {
      updatesForBatchFaceId := [];
    }

    /** The one update of a batch, from cleared lists. */
    method ComputeUpdates(rib: RibView, update: RibUpdate) returns (ok: bool)
      requires TreeOk(rib)
      modifies this
      ensures Valid() && batchFaceId == update.route.faceId
      ensures ok <==> !Crashes(rib, update)
      ensures ok ==> forall d, f :: SlotAt(d, f) == Delta(rib, update, d, f)
    {
      hide AfterRegistration, AfterUnregistration;
      batchFaceId := update.route.faceId;
      inheritedRoutes := [];
      updatesForBatchFaceId := [];
      updatesForNonBatchFaceId := [];
      assert forall d, f :: SlotAt(d, f) == EMPTY_SLOT;
      ghost var bound := LongestName(rib.Keys + {update.name});
      ok := true;
      match update.action {
        case Register =>
          ok := ComputeUpdatesForRegistration(rib, update.name, update.route, bound);
        case Unregister =>
          ComputeUpdatesForUnregistration(rib, update.name, update.route, bound);
        case RemoveFace =>
          ComputeUpdatesForUnregistration(rib, update.name, update.route, bound);
          ClearUpdatesForBatchFaceId();
      }
    }
  }

  ghost function LongestName(names: set<Name>): (bound: nat)
    ensures forall m :: m in names ==> |m| <= bound
  {
    if names == {} then 0
    else
      var m :| m in names;
      var rest := LongestName(names - {m});
      if |m| > rest then |m| else rest
  }

  lemma ParentKnown(rib: RibView, n: Name)
    requires TreeOk(rib) && n in rib
    ensures rib[n].parent == ParentOf(rib.Keys, n)
  {
  }

  /** Lines 129-140: the entries under an absent name whose parent pointer is the one the name will get. */
  method ChildrenForNonInsertedName(rib: RibView, prefix: Name, parent: Option<Name>) returns (children: seq<Name>)
    requires TreeOk(rib) && prefix !in rib && parent == ParentOf(rib.Keys, prefix)
    ensures Topmost(rib, prefix, children)
  {
    hide TreeOk;
    children := [];
    var todo := rib.Keys;
    while todo != {}
      invariant todo <= rib.Keys && NoDuplicates(children)
      invariant forall c :: c in children <==> c in rib && c !in todo && prefix <= c && rib[c].parent == parent
      decreases todo
    {
      var d :| d in todo;
      todo := todo - {d};
      if prefix <= d && rib[d].parent == parent {
        children := children + [d];
      }
    }
    forall c | c in rib
      ensures prefix <= c <==> prefix < c
      ensures prefix < c ==> (rib[c].parent == parent <==> forall q :: q in rib && prefix < q <= c ==> q == c)
    {
      ParentKnown(rib, c);
      assert prefix <= c && |prefix| == |c| ==> prefix == c;
      if prefix < c {
        SameParentIsTopmost(rib.Keys, prefix, c);
      }
    }
  }

  lemma SameParentIsTopmost(names: set<Name>, prefix: Name, c: Name)
    requires prefix !in names && c in names && prefix < c
    ensures ParentOf(names, c) == ParentOf(names, prefix) <==> forall q :: q in names && prefix < q <= c ==> q == c
  {
    ParentAfterInsert(names, prefix, c);
    NothingBetween(names + {prefix}, prefix, c);
  }

  // ---- Rib::getAncestorRoutes (rib/rib.cpp:301-347) ----

  lemma {:induction false} AncestorViaParent(rib: RibView, n: Name, f: FaceId)
    ensures Ancestor(rib, n, f) == match ParentOf(rib.Keys, n) case None => None case Some(p) => Offer(rib, p, f)
    decreases |n|
  {
    if n != [] && Up(n) !in rib {
      AncestorViaParent(rib, Up(n), f);
    }
  }

  // The inner loop: std::set::insert keeps what is already there.
  method InsertInheritable(routes: seq<Route>, present: RouteSet) returns (all: RouteSet)
    requires Keyed(present)
    ensures Keyed(all)
    ensures forall f :: Get(all, f) == if f in present then Some(present[f]) else FirstInherit(routes, f)
  {
    all := present;
    var i := 0;
    while i < |routes|
      invariant 0 <= i <= |routes| && Keyed(all)
      invariant forall f :: Get(all, f) == if f in present then Some(present[f]) else FirstInherit(routes[..i], f)
    {
      var route := routes[i];
      assert routes[..i + 1][..i] == routes[..i];
      if route.childInherit && route.faceId !in all {
        all := all[route.faceId := route];
      }
      i := i + 1;
    }
    assert routes[..i] == routes;
  }

  /** The routes names under `parent` inherit; n is a name whose parent that is. */
  method GetAncestorRoutes(rib: RibView, parent: Option<Name>, ghost n: Name) returns (ancestorRoutes: RouteSet)
    requires TreeOk(rib) && parent == ParentOf(rib.Keys, n)
    ensures Keyed(ancestorRoutes)
    ensures forall f :: Get(ancestorRoutes, f) == Ancestor(rib, n, f)
  {
    ancestorRoutes := map[];
    var cursor := parent;
    forall f {
      AncestorViaParent(rib, n, f);
    }
    while cursor.Some?
      invariant Keyed(ancestorRoutes)
      invariant cursor.Some? ==> cursor.value in rib
      invariant forall f :: Ancestor(rib, n, f) ==
                  if f in ancestorRoutes then Some(ancestorRoutes[f])
                  else if cursor.Some? then Offer(rib, cursor.value, f) else None
      decreases cursor.Some?, if cursor.Some? then |cursor.value| else 0
    {
      var p := cursor.value;
      ghost var below := ancestorRoutes;
      ancestorRoutes := InsertInheritable(rib[p].routes, ancestorRoutes);
      cursor := if rib[p].HasCapture() then None else rib[p].parent;
      forall f
        ensures Ancestor(rib, n, f) ==
                if f in ancestorRoutes then Some(ancestorRoutes[f])
                else if cursor.Some? then Offer(rib, cursor.value, f) else None
      {
        AncestorViaParent(rib, p, f);
        assert f in ancestorRoutes <==> Get(ancestorRoutes, f).Some?;
        assert f !in below ==> Ancestor(rib, n, f) == Offer(rib, p, f);
      }
    }
  }

  /** entry is rib's entry at n, or a copy with other routes. */
  ghost predicate Copied(rib: RibView, n: Name, entry: Entry) {
    && TreeOk(rib) && n in rib
    && entry.parent == rib[n].parent == ParentOf(rib.Keys, n) && entry.children == rib[n].children
         && entry.inherited == rib[n].inherited
  }

  /** No entry on the path from n down to d, both included, captures or overrides f. */
  ghost predicate OpenFrom(rib: RibView, n: Name, d: Name, f: FaceId) {
    forall q :: q in rib && n <= q <= d ==> Clear(rib[q], f)
  }

  lemma SameFlagsToggleNothing(rib: RibView, n: Name, e: Entry, route: Route, existing: Route, d: Name, f: FaceId,
                               s: Slot)
    requires route.childInherit == existing.childInherit && route.capture == existing.capture
    ensures AfterToggledFlags(rib, n, e, route, existing, d, f, s) == s
  {
  }

  lemma PushNothing(rib: RibView, root: Name, d: Name, f: FaceId, s: Slot)
    ensures Push(rib, root, d, f, None, false, s) == s
  {
  }

  /** Visiting n itself and pushing what is left below n amounts to a visit of every entry the path reaches. */
  lemma VisitThenPush(rib: RibView, n: Name, d: Name, f: FaceId, add: Option<Route>, remove: bool, s: Slot)
    requires n in rib && !rib[n].HasCapture()
    ensures var e := rib[n];
            var stop := HasChildInherit(e.routes, f);
            var add' := if stop then None else add;
            var remove' := !stop && remove;
            var s1 := if d == n && remove' && f in e.inherited then s.Disinherit() else s;
            var s2 := if d == n && add'.Some? && !HasFaceId(e.routes, f) then s1.Inherit(add'.value.cost) else s1;
            Push(rib, n, d, f, add', remove', s2) ==
            if n <= d && d in rib && OpenFrom(rib, n, d, f) then Visit(rib[d], f, add, remove, s) else s
  {
    if n < d && d in rib {
      assert forall q :: q in rib && n <= q <= d ==> q == n || n < q;
    } else if d == n {
      assert forall q :: q in rib && n <= q <= d ==> q == n;
    }
  }

  /** d lies under one of these children of root. */
  ghost predicate Reached(rib: RibView, root: Name, children: seq<Name>, d: Name) {
    root < d && d in rib && Branch(rib.Keys, root, d) in children
  }

  lemma ReachedNext(rib: RibView, root: Name, children: seq<Name>, i: nat, d: Name, f: FaceId)
    requires Topmost(rib, root, children) && i < |children|
    ensures Reached(rib, root, children[..i + 1], d) <==>
            Reached(rib, root, children[..i], d) || (d in rib && children[i] <= d)
    ensures Reached(rib, root, children[..i], d) ==> !(children[i] <= d)
    ensures d in rib && children[i] <= d ==> (OpenFrom(rib, children[i], d, f) <==> Open(rib, root, d, f))
  {
    var c := children[i];
    assert c in children;
    assert children[..i + 1] == children[..i] + [c];
    if d in rib && c <= d {
      TopmostApart(rib, root, children, c, d);
      forall q | q in rib && root < q <= d
        ensures c <= q
      {
      }
    }
  }

  /** A RouteSet keeps each route under its own face. */
  ghost predicate Keyed(s: RouteSet) {
    forall f :: f in s ==> s[f].faceId == f
  }
}
