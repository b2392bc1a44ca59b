/** Class RibEntry: the routes of one name and the queries on them (rib/rib-entry.cpp, rib/rib-entry.hpp). */
module RibEntries {
  import opened Lists
  import opened Wrappers
  import opened Routes
  import opened FibSpec

  function FacesOf(rs: seq<Route>): set<FaceId> {
    set i | 0 <= i < |rs| :: rs[i].faceId
  }

  class RibEntry {
    const name: Name
    // The pointers of the source, as the names of the entries pointed to.
    var parent: Option<Name>
    var children: seq<Name>
    var routes: seq<Route>
    var inheritedRoutes: seq<Route>
    var nRoutesWithCaptureSet: nat

    constructor (prefix: Name)
      ensures name == prefix && View() == Entry(None, [], [], {}, 0)
    {
      name := prefix;
      parent, children, routes, inheritedRoutes, nRoutesWithCaptureSet := None, [], [], [], 0;
    }

    function View(): Entry
      reads this
    {
      Entry(parent, children, routes, FacesOf(inheritedRoutes), nRoutesWithCaptureSet)
    }

    // ---- Lines 36-78, 110-126 ----

    method FindRouteIndex(route: Route) returns (i: nat)
      ensures i == FindRoute(routes, route)
    {
      i := 0;
      while i < |routes| && !SameKey(routes[i], route)
        invariant i <= |routes|
        invariant forall j :: 0 <= j < i ==> !SameKey(routes[j], route)
      {
        i := i + 1;
      }
    }

    method InsertRoute(route: Route) returns (it: nat, didInsert: bool)
      modifies this`routes, this`nRoutesWithCaptureSet
      ensures it == FindRoute(old(routes), route) && (didInsert <==> it == |old(routes)|)
      ensures !didInsert ==> View() == old(View())
      ensures didInsert ==> View() == old(View()).(routes := old(routes) + [route],
                nCapture := old(nRoutesWithCaptureSet) + if route.capture then 1 else 0)
    {
      it := FindRouteIndex(route);
      if it == |routes| {
        if route.capture {
          nRoutesWithCaptureSet := nRoutesWithCaptureSet + 1;
        }
        routes := routes + [route];
        return it, true;
      }
      return it, false;
    }

    method EraseRoute(route: Route)
      modifies this`routes, this`nRoutesWithCaptureSet
      ensures var i := FindRoute(old(routes), route);
              View() == if i < |old(routes)| then EraseAt(old(View()), i) else old(View())
    {
      var it := FindRouteIndex(route);
      if it < |routes| {
        if routes[it].capture {
          nRoutesWithCaptureSet := Decremented(nRoutesWithCaptureSet);
        }
        routes := Erased(routes, it);
      }
    }

    // ---- Lines 94-108 ----

    method AddChild(child: RibEntry)
      requires child.parent.None? && child != this
      modifies this`children, child`parent
      ensures View() == old(View()).(children := old(View()).children + [child.name])
      ensures child.View() == old(child.View()).(parent := Some(name))
    {
      child.parent := Some(name);
      children := children + [child.name];
    }

    method RemoveChild(child: RibEntry)
      requires child.parent == Some(name) && child != this
      modifies this`children, child`parent
      ensures View() == old(View()).(children := Without(old(View()).children, child.name))
      ensures child.parent.None? && child.View() == old(child.View()).(parent := None)
    {
      child.parent := None;
      children := Without(children, child.name);
    }

    // ---- Lines 128-151 ----

    method AddInheritedRoute(route: Route)
      modifies this`inheritedRoutes
      ensures View() == old(View()).(inherited := old(View()).inherited + {route.faceId})
    {
      inheritedRoutes := inheritedRoutes + [route];
      ghost var was := old(inheritedRoutes);
      assert forall i :: 0 <= i < |was| ==> inheritedRoutes[i] == was[i];
      assert inheritedRoutes[|was|] == route;
    }

    method RemoveInheritedRoute(route: Route)
      modifies this`inheritedRoutes
      ensures View() == old(View()).(inherited := old(View()).inherited - {route.faceId})
    {
      var kept: seq<Route> := [];
      var i := 0;
      while i < |inheritedRoutes|
        invariant 0 <= i <= |inheritedRoutes|
        invariant forall f :: f in FacesOf(kept) <==>
                f != route.faceId && exists j :: 0 <= j < i && inheritedRoutes[j].faceId == f
      {
        if inheritedRoutes[i].faceId != route.faceId {
          ghost var before := kept;
          kept := kept + [inheritedRoutes[i]];
          assert forall j :: 0 <= j < |before| ==> kept[j] == before[j];
          assert FacesOf(kept) == FacesOf(before) + {inheritedRoutes[i].faceId} by {
            assert kept[|before|] == inheritedRoutes[i];
          }
        }
        i := i + 1;
      }
      inheritedRoutes := kept;
    }

    method HasInheritedRoute(route: Route) returns (found: bool)
      ensures found <==> route.faceId in View().inherited
    {
      var i := 0;
      while i < |inheritedRoutes|
        invariant 0 <= i <= |inheritedRoutes|
        invariant forall j :: 0 <= j < i ==> inheritedRoutes[j].faceId != route.faceId
      {
        if inheritedRoutes[i].faceId == route.faceId {
          return true;
        }
        i := i + 1;
      }
      return false;
    }

    // ---- Lines 159-239 ----

    method HasChildInheritOnFaceId(faceId: FaceId) returns (found: bool)
      ensures found <==> HasChildInherit(routes, faceId)
    {
      for i := 0 to |routes|
        invariant forall j :: 0 <= j < i ==> !(routes[j].faceId == faceId && routes[j].childInherit)
      {
        if routes[i].faceId == faceId && routes[i].childInherit {
          return true;
        }
      }
      return false;
    }

    method GetRouteWithLowestCostByFaceId(faceId: FaceId) returns (candidate: Option<Route>)
      ensures candidate == Lowest(routes, faceId, false)
      ensures candidate.Some? <==> HasFaceId(routes, faceId)
      ensures candidate.Some? ==> candidate.value in routes && IsCheapest(routes, faceId, false, candidate.value.cost)
    {
      candidate := None;
      for i := 0 to |routes|
        invariant candidate == Lowest(routes[..i], faceId, false)
      {
        var route := routes[i];
        assert routes[..i + 1][..i] == routes[..i];
        if route.faceId == faceId {
          if candidate.None? {
            candidate := Some(route);
          } else if route.cost < candidate.value.cost {
            candidate := Some(route);
          }
        }
      }
      assert routes[..|routes|] == routes;
      ScanFacts(routes, faceId);
      if candidate.Some? {
        CheapestExists(routes, faceId, false);
      }
    }

    method GetRouteWithLowestCostAndChildInheritByFaceId(faceId: FaceId) returns (candidate: Option<Route>)
      ensures candidate == Lowest(routes, faceId, true)
      ensures candidate.Some? <==> HasChildInherit(routes, faceId)
      ensures candidate.Some? ==> candidate.value in routes && IsCheapest(routes, faceId, true, candidate.value.cost)
    {
      candidate := None;
      for i := 0 to |routes|
        invariant candidate == Lowest(routes[..i], faceId, true)
      {
        var route := routes[i];
        assert routes[..i + 1][..i] == routes[..i];
        if route.faceId == faceId && route.childInherit {
          if candidate.None? {
            candidate := Some(route);
          } else if route.cost < candidate.value.cost {
            candidate := Some(route);
          }
        }
      }
      assert routes[..|routes|] == routes;
      ScanFacts(routes, faceId);
      if candidate.Some? {
        CheapestExists(routes, faceId, true);
      }
    }

    method GetRouteWithSecondLowestCostByFaceId(faceId: FaceId) returns (second: Option<Route>)
      ensures second == SecondLowest(routes, faceId)
    {
      var lowest: Option<Route> := None;
      second := None;
      for i := 0 to |routes|
        invariant lowest == Lowest(routes[..i], faceId, false) && second == SecondLowest(routes[..i], faceId)
      {
        var route := routes[i];
        assert routes[..i + 1][..i] == routes[..i];
        if route.faceId == faceId {
          if lowest.None? {
            lowest := Some(route);
          } else if route.cost < lowest.value.cost {
            second, lowest := lowest, Some(route);
          } else if second.None? || route.cost < second.value.cost {
            second := Some(route);
          }
        }
      }
      assert routes[..|routes|] == routes;
    }
  }
}
