/** Class Rib: the table of entries and the name tree it keeps (rib/rib.cpp). */
module Ribs {
  import opened Lists
  import opened Wrappers
  import opened Routes
  import opened RibTree
  import opened NameOrder
  import opened RibEntries
  import opened FibDeltas
  import opened FibUpdates

  lemma SamePointersSameTree(V: RibView, V': RibView)
    requires TreeOk(V) && V'.Keys == V.Keys
    requires forall m :: m in V ==> V'[m].parent == V[m].parent && V'[m].children == V[m].children
    ensures TreeOk(V')
  {
    forall m, c | m in V
      ensures LinkedAt(V', m, c)
    {
      assert LinkedAt(V, m, c);
    }
  }

  /** The same entries with the same routes and records, whatever their pointers. */
  ghost predicate SameData(V0: RibView, V: RibView) {
    && V.Keys == V0.Keys
    && forall m :: m in V0 ==>
         V[m].routes == V0[m].routes && V[m].inherited == V0[m].inherited && V[m].nCapture == V0[m].nCapture
  }

  /** c leaves the children of `from` and joins those of `to`. */
  function MoveChild(V: RibView, c: Name, from: Option<Name>, to: Option<Name>): RibView {
    map m | m in V :: MovedEntry(V[m], m, c, from, to)
  }

  function MovedEntry(e: Entry, m: Name, c: Name, from: Option<Name>, to: Option<Name>): Entry {
    e.(parent := if m == c then to else e.parent,
       children := if from == Some(m) then Without(e.children, c)
                   else if to == Some(m) then e.children + [c]
                   else e.children)
  }

  lemma MoveChildKeepsLinked(V: RibView, c: Name, from: Option<Name>, to: Option<Name>)
    requires Linked(V) && c in V && V[c].parent == from && from != to
    requires (from.Some? ==> from.value in V) && (to.Some? ==> to.value in V)
    ensures Linked(MoveChild(V, c, from, to)) && SameData(V, MoveChild(V, c, from, to))
  {
    var V' := MoveChild(V, c, from, to);
    forall m, x | m in V
      ensures LinkedAt(V', m, x)
    {
      assert LinkedAt(V, m, x) && LinkedAt(V, m, c);
    }
    forall m | m in V
      ensures NoDuplicates(V'[m].children)
    {
      assert LinkedAt(V, m, c);
    }
  }

  class Rib {
    var table: map<Name, RibEntry>
    ghost var Repr: set<RibEntry>

    ghost predicate Named()
      reads this, Repr
    {
      forall n {:trigger table[n]} :: n in table ==> table[n] in Repr && table[n].name == n
    }

    function View(): (V: RibView)
      requires Named()
      reads this, Repr
      ensures V.Keys == table.Keys
      ensures forall m {:trigger V[m]} :: m in table ==> V[m] == table[m].View()
    {
      map n | n in table :: table[n].View()
    }

    ghost predicate Valid()
      reads this, Repr
    {
      Named() && TreeOk(View())
    }

    constructor ()
      ensures Valid() && table == map[] && View() == map[] && Repr == {}
    {
      table := map[];
      Repr := {};
    }

    // ---- Lines 226-245 ----

    /** The scan stops at the first name that is not below the prefix; no name below it comes later. */
    method FindDescendants(prefix: Name) returns (descendants: seq<Name>)
      ensures Ordered(descendants)
      ensures forall d :: d in descendants <==> prefix in table && d in table && prefix < d
    {
      descendants := [];
      if prefix in table {
        ghost var at := prefix;
        NothingFoundYet(table.Keys, prefix);
        var it := Next(table.Keys, prefix);
        while it.Some? && prefix <= it.value
          invariant FoundUpTo(table.Keys, prefix, at, descendants) && IsNext(table.Keys, at, it)
          decreases Behind(table.Keys, at)
        {
          NextFound(table.Keys, prefix, at, descendants, it.value);
          LessIsBehind(table.Keys, at, it.value);
          descendants := descendants + [it.value];
          at := it.value;
          it := Next(table.Keys, it.value);
        }
        NothingBelowBehind(table.Keys, prefix, at, descendants, it);
      }
    }

    // RibEntry::removeChild on the old parent, RibEntry::addChild on the new one.
    method Reparent(c: Name, from: Option<Name>, to: Option<Name>)
      requires Named() && c in table && table[c].parent == from && from != to
      requires from.Some? ==> from.value in table && from.value != c
      requires to.Some? ==> to.value in table && to.value != c
      modifies Repr
      ensures Named() && View() == MoveChild(old(View()), c, from, to)
    {
      hide FacesOf, Without, NoDuplicates, Rib.View, RibEntry.View;
      if from.Some? {
        table[from.value].RemoveChild(table[c]);
      }
      if to.Some? {
        table[to.value].AddChild(table[c]);
      }
      forall m | m in table
        ensures View()[m] == MovedEntry(old(View())[m], m, c, from, to)
      {
        assert m != c ==> table[m] != table[c];
      }
    }

    // ---- Lines 97-168 ----

    method Insert(prefix: Name, route: Route)
      requires Valid()
      modifies this, Repr
      ensures Valid() && fresh(Repr - old(Repr))
      ensures InsertedData(old(View()), prefix, route, View())
    {
      if prefix in table {
        InsertIntoEntry(prefix, route);
      } else {
        InsertNewName(prefix, route);
      }
    }

    method InsertIntoEntry(prefix: Name, route: Route)
      requires Valid() && prefix in table
      modifies Repr
      ensures Valid()
      ensures InsertedData(old(View()), prefix, route, View())
    {
      hide TreeOk, FacesOf, Rib.View, InsertedData, FindRoute;
      var entry := table[prefix];
      var it, didInsert := entry.InsertRoute(route);
      if !didInsert {
        entry.routes := entry.routes[it := route];
      }
      forall m | m in table && m != prefix
        ensures View()[m] == old(View())[m]
      {
        assert table[m] != entry;
      }
      RouteInserted(old(View()), prefix, route, View());
      SamePointersSameTree(old(View()), View());
    }

    method InsertNewName(prefix: Name, route: Route)
      requires Valid() && prefix !in table
      modifies this, Repr
      ensures Valid() && fresh(Repr - old(Repr))
      ensures InsertedData(old(View()), prefix, route, View())
    {
      assert Linked(View());
      hide TreeOk, Linked, Hung, InsertedData;
      var parent := AddEntry(prefix, route);
      HungIsLinked(old(View()), prefix, route, parent);
      HungAt(old(View()), prefix, route, parent, prefix);
      if parent.Some? {
        HungAt(old(View()), prefix, route, parent, parent.value);
      }
      AdoptDescendants(prefix, parent);
      AdoptedTree(old(View()), prefix, route, parent, View());
    }

    // Lines 132-146.
    method AddEntry(prefix: Name, route: Route) returns (parent: Option<Name>)
      requires Named() && Linked(View()) && prefix !in table
      modifies this, Repr
      ensures Named() && fresh(Repr - old(Repr))
      ensures parent == ParentOf(old(View()).Keys, prefix)
      ensures View() == Hung(old(View()), prefix, route, parent)
    {
      hide Linked, FacesOf, Rib.View, MoveChild, WithEntry;
      CreateEntry(prefix, route);
      parent := FindParent(table.Keys, prefix);
      ParentAfterInsert(old(table.Keys), prefix, prefix);
      if parent.Some? {
        Reparent(prefix, None, parent);
      }
    }

    method CreateEntry(prefix: Name, route: Route)
      requires Named() && prefix !in table
      modifies this
      ensures Named() && fresh(Repr - old(Repr)) && table.Keys == old(table.Keys) + {prefix}
      ensures table[prefix].parent.None?
      ensures View() == WithEntry(old(View()), prefix, route)
    {
      hide FacesOf, Rib.View, RibEntry.View;
      var entry := NewEntry(prefix, route);
      AddToTable(prefix, entry);
    }

    // Lines 134-135.
    method AddToTable(prefix: Name, entry: RibEntry)
      requires Named() && prefix !in table && entry.name == prefix
      modifies this
      ensures Named() && Repr == old(Repr) + {entry} && table == old(table)[prefix := entry]
      ensures View() == old(View())[prefix := entry.View()]
    {
      hide FacesOf, Rib.View, RibEntry.View;
      table := table[prefix := entry];
      Repr := Repr + {entry};
      forall m | m in table
        ensures View()[m] == if m == prefix then entry.View() else old(View())[m]
      {
        assert m != prefix ==> View()[m] == table[m].View() == old(table[m].View());
      }
    }

    method NewEntry(prefix: Name, route: Route) returns (entry: RibEntry)
      ensures fresh(entry) && entry.name == prefix && entry.parent.None?
      ensures entry.View() == Entry(None, [], [route], {}, if route.capture then 1 else 0)
    {
      entry := new RibEntry(prefix);
      var _, _ := entry.InsertRoute(route);
      assert [] + [route] == [route];
    }

    // Lines 148-159.
    method AdoptDescendants(prefix: Name, parent: Option<Name>)
      requires Named() && Linked(View()) && prefix in table
      requires parent.Some? ==> parent.value in table && parent.value < prefix
      modifies Repr
      ensures Named() && Adopted(old(View()), prefix, parent, FindDescendantsOf(table.Keys, prefix), View())
    {
      hide Linked, MoveChild, Adopted;
      ghost var V0 := View();
      var descendants := FindDescendants(prefix);
      OrderedHasNoDuplicates(descendants);
      var i := 0;
      NothingAdopted(V0, prefix, parent);
      while i < |descendants|
        invariant 0 <= i <= |descendants| && Named()
        invariant Adopted(V0, prefix, parent, SetOf(descendants[..i]), View())
      {
        var child := descendants[i];
        assert child in descendants;
        assert SetOf(descendants[..i + 1]) == SetOf(descendants[..i]) + {child};
        NextAdopted(V0, prefix, parent, SetOf(descendants[..i]), child, View());
        if table[child].parent == parent {
          Reparent(child, parent, Some(prefix));
        }
        i := i + 1;
      }
      assert descendants[..i] == descendants;
      assert SetOf(descendants) == FindDescendantsOf(table.Keys, prefix);
    }

    // ---- Lines 171-198, 262-299 ----

    method Erase(prefix: Name, route: Route)
      requires Valid()
      modifies this, Repr
      ensures Valid() && fresh(Repr - old(Repr))
      ensures ErasedData(old(View()), prefix, route, View())
    {
      if prefix in table {
        var entry := table[prefix];
        var routeIt := entry.FindRouteIndex(route);
        if routeIt < |entry.routes| {
          EraseFromEntry(prefix, route);
          if |entry.routes| == 0 {
            EraseEntry(prefix);
          }
        }
      }
    }

    method EraseFromEntry(prefix: Name, route: Route)
      requires Valid() && prefix in table && FindRoute(table[prefix].routes, route) < |table[prefix].routes|
      modifies Repr
      ensures Valid() && table == old(table)
      ensures SameDataExcept(old(View()), View(), prefix) && View().Keys == old(View()).Keys
      ensures var e := old(View())[prefix];
              var e' := EraseAt(e, FindRoute(e.routes, route));
              && View()[prefix].routes == e'.routes && View()[prefix].nCapture == e'.nCapture
              && View()[prefix].inherited == e.inherited
    {
      hide TreeOk, FacesOf, Rib.View;
      table[prefix].EraseRoute(route);
      forall m | m in table && m != prefix
        ensures View()[m] == old(View())[m]
      {
        assert table[m] != table[prefix];
      }
      SamePointersSameTree(old(View()), View());
    }

    method EraseEntry(n: Name)
      requires Valid() && n in table
      modifies this, Repr
      ensures Valid() && Repr == old(Repr)
      ensures View().Keys == old(View()).Keys - {n} && SameDataExcept(old(View()), View(), n)
    {
      hide Rib.View, Linked, MoveChild, SameDataExcept, SameData, TreeOk, Released;
      ghost var V := View();
      var parent := table[n].parent;
      assert V[n] == table[n].View();
      hide RibEntry.View;
      if parent.Some? {
        DetachEntry(n, parent);
      } else {
        Detached(V, n, parent);
      }
      ReleaseChildren(n, parent, V);
      ReleasedTree(V, n, parent, View());
      RemoveFromTable(n);
    }

    // Lines 273-276.
    method DetachEntry(n: Name, parent: Option<Name>)
      requires Valid() && n in table && parent.Some? && parent == table[n].parent
      modifies Repr
      ensures Named() && table == old(table) && Repr == old(Repr)
      ensures Released(old(View()), n, parent, View())
    {
      hide Rib.View, Linked, MoveChild, SameData;
      assert View()[n] == table[n].View();
      assert View()[n].parent == ParentOf(View().Keys, n);
      Detached(View(), n, parent);
      Reparent(n, parent, None);
    }

    // Lines 278-291.
    method ReleaseChildren(n: Name, parent: Option<Name>, ghost V: RibView)
      requires Named() && n in table && TreeOk(V) && n in V && parent == V[n].parent && Released(V, n, parent, View())
      modifies Repr
      ensures Named() && table == old(table) && Repr == old(Repr)
      ensures Released(V, n, parent, View()) && View()[n].children == []
    {
      hide Rib.View, TreeOk, MoveChild, Released;
      assert View()[n] == table[n].View();
      while |table[n].children| > 0
        invariant n in table && Named() && table == old(table) && Repr == old(Repr)
        invariant View()[n] == table[n].View()
        invariant Released(V, n, parent, View())
        decreases |table[n].children|
      {
        var child := table[n].children[0];
        NextReleased(V, n, parent, child, View());
        assert View()[child] == table[child].View();
        Reparent(child, Some(n), parent);
        assert View()[n] == table[n].View();
      }
    }

    // Line 293.
    method RemoveFromTable(n: Name)
      requires Named() && n in table
      modifies this`table
      ensures Named() && View() == old(View()) - {n}
    {
      hide Rib.View;
      table := table - {n};
      forall m | m in table
        ensures View()[m] == old(View())[m]
      {
        assert old(View())[m] == old(table[m].View());
      }
    }

    // ---- Lines 472-491 ----

    /** The assertion at line 477 is the precondition on the names. */
    method ModifyInheritedRoutes(inheritedRoutes: seq<RibUpdate>)
      requires Valid() && forall i :: 0 <= i < |inheritedRoutes| ==> inheritedRoutes[i].name in table
      modifies Repr
      ensures Valid() && table == old(table)
      ensures forall m :: m in View() ==>
                View()[m].routes == old(View())[m].routes && View()[m].nCapture == old(View())[m].nCapture
      ensures forall m, f :: m in View() ==>
                (f in View()[m].inherited <==>
                   match LastRecord(inheritedRoutes, m, f) case Some(b) => b case None => f in old(View())[m].inherited)
    {
      hide TreeOk, FacesOf, Rib.View, Modified;
      NothingModified(View());
      assert inheritedRoutes[..0] == [];
      var i := 0;
      while i < |inheritedRoutes|
        invariant 0 <= i <= |inheritedRoutes| && Named() && table == old(table)
        invariant Modified(old(View()), inheritedRoutes[..i], View())
      {
        var update := inheritedRoutes[i];
        ghost var before := View();
        ModifyInherited(update);
        assert inheritedRoutes[..i + 1] == inheritedRoutes[..i] + [update];
        NextModified(old(View()), inheritedRoutes[..i], update, before, View());
        i := i + 1;
      }
      assert inheritedRoutes[..i] == inheritedRoutes;
      ModifiedFacts(old(View()), inheritedRoutes, View());
      SamePointersSameTree(old(View()), View());
    }

    /** The body of the loop. */
    method ModifyInherited(update: RibUpdate)
      requires Named() && update.name in table
      modifies Repr
      ensures Named() && table == old(table)
      ensures forall m :: m in table && m != update.name ==> View()[m] == old(View())[m]
      ensures View()[update.name] == ModifiedEntry(old(View())[update.name], update)
    {
      hide Rib.View;
      var entry := table[update.name];
      match update.action {
        case Register => entry.AddInheritedRoute(update.route);
        case Unregister => entry.RemoveInheritedRoute(update.route);
        case RemoveFace =>
      }
      forall m | m in table && m != update.name
        ensures View()[m] == old(View())[m]
      {
        assert table[m] != entry;
      }
    }
  }

  lemma RouteInserted(V: RibView, n: Name, route: Route, V': RibView)
    requires n in V && V'.Keys == V.Keys && forall m :: m in V && m != n ==> V'[m] == V[m]
    requires var e, i := V[n], FindRoute(V[n].routes, route);
             V'[n] == if i < |e.routes| then e.(routes := e.routes[i := route])
                      else e.(routes := e.routes + [route], nCapture := e.nCapture + if route.capture then 1 else 0)
    ensures InsertedData(V, n, route, V')
  {
  }

  ghost function ModifiedEntry(e: Entry, u: RibUpdate): Entry {
    match u.action
    case Register => e.(inherited := e.inherited + {u.route.faceId})
    case Unregister => e.(inherited := e.inherited - {u.route.faceId})
    case RemoveFace => e
  }

  /** V' is V with these records applied to the inherited lists. */
  ghost predicate Modified(V: RibView, records: seq<RibUpdate>, V': RibView) {
    && V'.Keys == V.Keys
    && (forall m :: m in V ==> V'[m].(inherited := {}) == V[m].(inherited := {}))
    && (forall m, f :: m in V ==>
          (f in V'[m].inherited <==>
             match LastRecord(records, m, f) case Some(b) => b case None => f in V[m].inherited))
  }

  lemma NothingModified(V: RibView)
    ensures Modified(V, [], V)
  {
  }

  lemma ModifiedFacts(V: RibView, records: seq<RibUpdate>, V': RibView)
    requires Modified(V, records, V')
    ensures V'.Keys == V.Keys
    ensures forall m :: m in V ==> V'[m].(inherited := {}) == V[m].(inherited := {})
    ensures forall m, f :: m in V ==>
              (f in V'[m].inherited <==>
                 match LastRecord(records, m, f) case Some(b) => b case None => f in V[m].inherited)
  {
  }

  lemma NextModified(V: RibView, records: seq<RibUpdate>, u: RibUpdate, V1: RibView, V2: RibView)
    requires Modified(V, records, V1) && u.name in V && V2.Keys == V1.Keys
    requires forall m :: m in V1 && m != u.name ==> V2[m] == V1[m]
    requires V2[u.name] == ModifiedEntry(V1[u.name], u)
    ensures Modified(V, records + [u], V2)
  {
    forall m, f | m in V
      ensures f in V2[m].inherited <==>
                match LastRecord(records + [u], m, f) case Some(b) => b case None => f in V[m].inherited
    {
      LastRecordAppended(records, u, m, f);
      if m != u.name {
        assert V2[m] == V1[m];
      }
    }
    hide LastRecord;
  }

  ghost predicate SameDataExcept(V: RibView, V': RibView, n: Name) {
    forall m :: m != n ==>
      && (m in V <==> m in V')
      && (m in V ==>
            V'[m].routes == V[m].routes && V'[m].inherited == V[m].inherited && V'[m].nCapture == V[m].nCapture)
  }

  /** The routes, capture counts and inherited records after Rib::erase. */
  ghost predicate ErasedData(V: RibView, n: Name, route: Route, V': RibView) {
    && SameDataExcept(V, V', n)
    && if n !in V || FindRoute(V[n].routes, route) == |V[n].routes| then
         (n in V' <==> n in V)
         && (n in V ==>
               V'[n].routes == V[n].routes && V'[n].inherited == V[n].inherited && V'[n].nCapture == V[n].nCapture)
       else
         var e := EraseAt(V[n], FindRoute(V[n].routes, route));
         && (n in V' <==> |V[n].routes| > 1)
         && (n in V' ==> V'[n].routes == e.routes && V'[n].inherited == e.inherited && V'[n].nCapture == e.nCapture)
  }

  /** n is detached from its parent, and those of its children that have left it hang under that parent. */
  ghost predicate Released(V: RibView, n: Name, parent: Option<Name>, V': RibView) {
    && Linked(V') && SameData(V, V') && n in V'
    && V'[n].parent == None
    && (forall c :: c in V'[n].children ==> c in V && V[c].parent == Some(n))
    && (forall m {:trigger V'[m].parent} :: m in V && m != n ==>
          V'[m].parent == if V[m].parent == Some(n) && m !in V'[n].children then parent else V[m].parent)
  }

  lemma Detached(V: RibView, n: Name, parent: Option<Name>)
    requires TreeOk(V) && n in V && parent == V[n].parent
    ensures Released(V, n, parent, if parent.Some? then MoveChild(V, n, parent, None) else V)
  {
    var V' := if parent.Some? then MoveChild(V, n, parent, None) else V;
    if parent.Some? {
      MoveChildKeepsLinked(V, n, parent, None);
    }
    assert parent != Some(n);
    assert V'[n].children == V[n].children;
    forall c | c in V && c != n
      ensures V'[c].parent == V[c].parent
      ensures V[c].parent == Some(n) <==> c in V[n].children
    {
      assert LinkedAt(V, n, c);
    }
    forall c | c in V[n].children
      ensures c in V && V[c].parent == Some(n)
    {
      assert LinkedAt(V, n, c);
    }
  }

  lemma NextReleased(V: RibView, n: Name, parent: Option<Name>, c: Name, V': RibView)
    requires TreeOk(V) && n in V && parent == V[n].parent
    requires Released(V, n, parent, V') && c in V'[n].children
    ensures c in V' && c != n && parent != Some(c) && parent != Some(n) && V'[c].parent == Some(n)
    ensures parent.Some? ==> parent.value in V'
    ensures Released(V, n, parent, MoveChild(V', c, Some(n), parent))
    ensures |MoveChild(V', c, Some(n), parent)[n].children| < |V'[n].children|
  {
    assert V[c].parent == ParentOf(V.Keys, c);
    assert LinkedAt(V', n, c);
    MoveChildKeepsLinked(V', c, Some(n), parent);
  }

  lemma ReleasedTree(V: RibView, n: Name, parent: Option<Name>, V': RibView)
    requires TreeOk(V) && n in V && parent == V[n].parent
    requires Released(V, n, parent, V') && V'[n].children == []
    ensures TreeOk(V' - {n}) && (V' - {n}).Keys == V.Keys - {n} && SameDataExcept(V, V' - {n}, n)
  {
    var W := V' - {n};
    assert W.Keys == V.Keys - {n};
    forall m, c | m in W
      ensures LinkedAt(W, m, c)
    {
      assert LinkedAt(V', m, c);
    }
    forall m | m in W
      ensures W[m].parent == ParentOf(W.Keys, m)
    {
      ParentAfterErase(V.Keys, n, m);
      assert V[m].parent == ParentOf(V.Keys, m) && V[n].parent == ParentOf(V.Keys, n);
      assert V'[m].parent == W[m].parent;
    }
  }

  function SetOf(s: seq<Name>): set<Name> {
    set x | x in s
  }

  function FindDescendantsOf(names: set<Name>, prefix: Name): set<Name> {
    set d | d in names && prefix < d
  }

  /** V is V0 after the loop has looked at `seen`: those with n's parent hang under n. */
  ghost predicate Adopted(V0: RibView, n: Name, parent: Option<Name>, seen: set<Name>, V: RibView) {
    && Linked(V) && SameData(V0, V)
    && forall m {:trigger V[m].parent} :: m in V0 ==>
         V[m].parent == if m in seen && V0[m].parent == parent then Some(n) else V0[m].parent
  }

  lemma NothingAdopted(V0: RibView, n: Name, parent: Option<Name>)
    requires Linked(V0)
    ensures Adopted(V0, n, parent, SetOf([]), V0)
  {
  }

  lemma NextAdopted(V0: RibView, n: Name, parent: Option<Name>, seen: set<Name>, child: Name, V: RibView)
    requires Adopted(V0, n, parent, seen, V)
    requires child in V0 && child !in seen && n in V0 && parent != Some(n) && (parent.Some? ==> parent.value in V0)
    ensures child in V
    ensures V[child].parent == parent ==> Adopted(V0, n, parent, seen + {child}, MoveChild(V, child, parent, Some(n)))
    ensures V[child].parent != parent ==> Adopted(V0, n, parent, seen + {child}, V)
  {
    if V[child].parent == parent {
      MoveChildKeepsLinked(V, child, parent, Some(n));
    }
  }

  function WithEntry(V: RibView, n: Name, route: Route): RibView {
    V[n := Entry(None, [], [route], {}, if route.capture then 1 else 0)]
  }

  /** V with a childless entry for n hung under its parent. */
  function Hung(V: RibView, n: Name, route: Route, parent: Option<Name>): RibView {
    if parent.None? then WithEntry(V, n, route) else MoveChild(WithEntry(V, n, route), n, None, parent)
  }

  lemma HungIsLinked(V: RibView, n: Name, route: Route, parent: Option<Name>)
    requires TreeOk(V) && n !in V && parent == ParentOf(V.Keys, n)
    ensures Linked(Hung(V, n, route, parent))
  {
    var H := WithEntry(V, n, route);
    forall m, c | m in H
      ensures LinkedAt(H, m, c)
    {
      assert m in V ==> LinkedAt(V, m, c);
      assert c in V ==> V[c].parent != Some(n);
    }
    assert forall m :: m in H ==> NoDuplicates(H[m].children);
    if parent.Some? {
      MoveChildKeepsLinked(H, n, None, parent);
    }
  }

  lemma HungAt(V: RibView, n: Name, route: Route, parent: Option<Name>, m: Name)
    requires n !in V
    ensures var H := Hung(V, n, route, parent);
            && (m in H <==> m in V || m == n)
            && (m in H ==> H[m].parent == if m == n then parent else V[m].parent)
            && (m in V ==>
                  H[m].routes == V[m].routes && H[m].inherited == V[m].inherited && H[m].nCapture == V[m].nCapture)
            && H[n].routes == [route] && H[n].inherited == {} && H[n].nCapture == if route.capture then 1 else 0
  {
  }

  /** Once the entries below n that shared its parent hang under n, the pointers follow the prefix order again. */
  lemma AdoptedTree(V: RibView, n: Name, route: Route, parent: Option<Name>, V': RibView)
    requires TreeOk(V) && n !in V && parent == ParentOf(V.Keys, n)
    requires Adopted(Hung(V, n, route, parent), n, parent, FindDescendantsOf(V'.Keys, n), V')
    ensures TreeOk(V') && InsertedData(V, n, route, V')
  {
    AdoptedParents(V, n, route, parent, V');
    AdoptedData(V, n, route, parent, V');
    hide Linked, Hung, FindRoute, InsertedData, SameData, FindDescendantsOf;
  }

  lemma AdoptedKeys(V: RibView, n: Name, route: Route, parent: Option<Name>, V': RibView)
    requires n !in V && SameData(Hung(V, n, route, parent), V')
    ensures V'.Keys == V.Keys + {n}
  {
    hide Hung;
    forall m {
      HungAt(V, n, route, parent, m);
    }
  }

  lemma AdoptedParents(V: RibView, n: Name, route: Route, parent: Option<Name>, V': RibView)
    requires TreeOk(V) && n !in V && parent == ParentOf(V.Keys, n)
    requires Adopted(Hung(V, n, route, parent), n, parent, FindDescendantsOf(V'.Keys, n), V')
    ensures forall m {:trigger V'[m].parent} :: m in V' ==> V'[m].parent == ParentOf(V'.Keys, m)
  {
    AdoptedKeys(V, n, route, parent, V');
    hide Linked, Hung, SameData;
    forall m | m in V'
      ensures V'[m].parent == ParentOf(V'.Keys, m)
    {
      HungAt(V, n, route, parent, m);
      ParentAfterInsert(V.Keys, n, m);
    }
  }

  lemma AdoptedData(V: RibView, n: Name, route: Route, parent: Option<Name>, V': RibView)
    requires n !in V && SameData(Hung(V, n, route, parent), V')
    ensures InsertedData(V, n, route, V')
  {
    AdoptedKeys(V, n, route, parent, V');
    hide Hung, FindRoute;
    forall m | m in V
      ensures V'[m].routes == V[m].routes && V'[m].inherited == V[m].inherited && V'[m].nCapture == V[m].nCapture
    {
      HungAt(V, n, route, parent, m);
    }
    HungAt(V, n, route, parent, n);
  }

  /** The routes, capture counts and inherited records after Rib::insert. */
  ghost predicate InsertedData(V: RibView, n: Name, route: Route, V': RibView) {
    && V'.Keys == V.Keys + {n}
    && (forall m :: m in V && m != n ==>
        V'[m].routes == V[m].routes && V'[m].inherited == V[m].inherited && V'[m].nCapture == V[m].nCapture)
    && (if n !in V then
          V'[n].routes == [route] && V'[n].inherited == {} && V'[n].nCapture == if route.capture then 1 else 0
        else
          var i := FindRoute(V[n].routes, route);
          && V'[n].inherited == V[n].inherited
          && (if i < |V[n].routes| then V'[n].routes == V[n].routes[i := route] && V'[n].nCapture == V[n].nCapture
              else V'[n].routes == V[n].routes + [route] && V'[n].nCapture == V[n].nCapture + if route.capture then 1
                  else 0))
  }
}
