/** Names, routes and the value of one RIB entry (rib/route.hpp, rib/rib-entry.hpp). */
module Routes {
  import opened Wrappers

  type Component = string
  type Name = seq<Component>
  type FaceId = nat

  datatype Route = Route(faceId: FaceId, origin: nat, cost: nat, childInherit: bool, capture: bool)

  // Rib::RouteSet: a std::set ordered by face, so at most one route for each face.
  type RouteSet = map<FaceId, Route>

  function Get(s: RouteSet, f: FaceId): Option<Route> {
    if f in s then Some(s[f]) else None
  }

  /** What one RibEntry holds. Only the faces of m_inheritedRoutes are ever read. */
  datatype Entry = Entry(parent: Option<Name>, children: seq<Name>,
                         routes: seq<Route>, inherited: set<FaceId>, nCapture: nat) {

    predicate HasCapture() {
      nCapture > 0
    }
  }

  // A snapshot of Rib::m_rib.
  type RibView = map<Name, Entry>

  predicate SameKey(r: Route, s: Route) {
    r.faceId == s.faceId && r.origin == s.origin
  }

  predicate HasFaceId(rs: seq<Route>, f: FaceId) {
    exists i :: 0 <= i < |rs| && rs[i].faceId == f
  }

  predicate HasChildInherit(rs: seq<Route>, f: FaceId) {
    exists i :: 0 <= i < |rs| && rs[i].faceId == f && rs[i].childInherit
  }

  /** The index of the first route with this face and origin, |rs| when there is none. */
  function FindRoute(rs: seq<Route>, r: Route): (i: nat)
    ensures i <= |rs|
    ensures i < |rs| ==> SameKey(rs[i], r)
    ensures forall j :: 0 <= j < i ==> !SameKey(rs[j], r)
  {
    if |rs| == 0 then 0
    else if SameKey(rs[0], r) then 0
    else 1 + FindRoute(rs[1..], r)
  }

  /** The first child-inherit route on face f: the one std::set::insert keeps. */
  function FirstInherit(rs: seq<Route>, f: FaceId): (r: Option<Route>)
    ensures r.Some? ==> r.value.faceId == f && r.value.childInherit
  {
    if |rs| == 0 then None
    else
      var before := FirstInherit(rs[..|rs| - 1], f);
      var last := rs[|rs| - 1];
      if before.Some? then before
      else if last.faceId == f && last.childInherit then Some(last)
      else None
  }

  /** The candidate left by a scan for the cheapest route on f, of all or of child-inherit routes only. */
  function Lowest(rs: seq<Route>, f: FaceId, inheritOnly: bool): (c: Option<Route>)
    ensures c.Some? ==> c.value.faceId == f && (inheritOnly ==> c.value.childInherit)
  {
    if |rs| == 0 then None
    else
      var c := Lowest(rs[..|rs| - 1], f, inheritOnly);
      var last := rs[|rs| - 1];
      if last.faceId == f && (inheritOnly ==> last.childInherit) && (c.None? || last.cost < c.value.cost)
      then Some(last)
      else c
  }

  /** The route std::nth_element leaves at position 1 of the routes on f, earlier routes first among equals. */
  function SecondLowest(rs: seq<Route>, f: FaceId): Option<Route> {
    if |rs| == 0 then None
    else
      var low := Lowest(rs[..|rs| - 1], f, false);
      var second := SecondLowest(rs[..|rs| - 1], f);
      var last := rs[|rs| - 1];
      if last.faceId != f || low.None? then second
      else if last.cost < low.value.cost then low
      else if second.None? || last.cost < second.value.cost then Some(last)
      else second
  }

  function CountCapture(rs: seq<Route>): nat {
    if |rs| == 0 then 0
    else CountCapture(rs[..|rs| - 1]) + if rs[|rs| - 1].capture then 1 else 0
  }

  function Erased(rs: seq<Route>, i: nat): seq<Route>
    requires i < |rs|
  {
    rs[..i] + rs[i + 1..]
  }

  const UINT64_MAX: nat := 0xFFFF_FFFF_FFFF_FFFF

  // m_nRoutesWithCaptureSet is a uint64_t: decrementing zero wraps around.
  function Decremented(n: nat): nat {
    if n == 0 then UINT64_MAX else n - 1
  }

  /** RibEntry::eraseRoute on a value. */
  function EraseAt(e: Entry, i: nat): Entry
    requires i < |e.routes|
  {
    e.(routes := Erased(e.routes, i),
       nCapture := if e.routes[i].capture then Decremented(e.nCapture) else e.nCapture)
  }

  ghost predicate OnePerFace(rs: seq<Route>) {
    forall i, j :: 0 <= i < j < |rs| ==> rs[i].faceId != rs[j].faceId
  }

  // ---- Facts about the scans ----

  lemma {:induction false} ScanFacts(rs: seq<Route>, f: FaceId)
    ensures FirstInherit(rs, f).Some? <==> HasChildInherit(rs, f)
    ensures Lowest(rs, f, false).Some? <==> HasFaceId(rs, f)
    ensures Lowest(rs, f, true).Some? <==> HasChildInherit(rs, f)
    ensures FirstInherit(rs, f).Some? ==>
            FirstInherit(rs, f).value in rs && FirstInherit(rs, f).value.faceId == f
                && FirstInherit(rs, f).value.childInherit
    ensures forall b :: Lowest(rs, f, b).Some? ==> Lowest(rs, f, b).value in rs
  {
    if |rs| > 0 {
      var k := |rs| - 1;
      ScanFacts(rs[..k], f);
      if HasFaceId(rs, f) && rs[k].faceId != f {
        var i :| 0 <= i < |rs| && rs[i].faceId == f;
        assert rs[..k][i].faceId == f;
      }
      if HasChildInherit(rs, f) && !(rs[k].faceId == f && rs[k].childInherit) {
        var i :| 0 <= i < |rs| && rs[i].faceId == f && rs[i].childInherit;
        assert rs[..k][i].faceId == f && rs[..k][i].childInherit;
      }
    }
  }

  /** The scan returns a cheapest candidate. */
  lemma {:induction false} LowestIsMinimum(rs: seq<Route>, f: FaceId, inheritOnly: bool, i: nat)
    requires i < |rs| && rs[i].faceId == f && (inheritOnly ==> rs[i].childInherit)
    ensures Lowest(rs, f, inheritOnly).Some? && Lowest(rs, f, inheritOnly).value.cost <= rs[i].cost
  {
    if i < |rs| - 1 {
      LowestIsMinimum(rs[..|rs| - 1], f, inheritOnly, i);
    }
  }

  /** Among routes of least cost the scan returns the first. */
  lemma {:induction false} LowestIsFirst(rs: seq<Route>, f: FaceId, inheritOnly: bool) returns (i: nat)
    requires Lowest(rs, f, inheritOnly).Some?
    ensures i < |rs| && Lowest(rs, f, inheritOnly) == Some(rs[i])
    ensures forall k :: 0 <= k < i && rs[k].faceId == f && (inheritOnly ==> rs[k].childInherit) ==>
              rs[k].cost > rs[i].cost
  {
    var n := |rs| - 1;
    if Lowest(rs, f, inheritOnly) == Lowest(rs[..n], f, inheritOnly) {
      i := LowestIsFirst(rs[..n], f, inheritOnly);
      assert forall k :: 0 <= k < n ==> rs[..n][k] == rs[k];
    } else {
      i := n;
      forall k | 0 <= k < n && rs[k].faceId == f && (inheritOnly ==> rs[k].childInherit)
        ensures rs[k].cost > rs[n].cost
      {
        LowestIsMinimum(rs[..n], f, inheritOnly, k);
      }
    }
  }

  /** What std::set::insert keeps of the child-inherit routes on one face is the first. */
  lemma {:induction false} FirstInheritIsFirst(rs: seq<Route>, f: FaceId) returns (i: nat)
    requires FirstInherit(rs, f).Some?
    ensures i < |rs| && FirstInherit(rs, f) == Some(rs[i])
    ensures forall k :: 0 <= k < i ==> !(rs[k].faceId == f && rs[k].childInherit)
  {
    var n := |rs| - 1;
    if FirstInherit(rs[..n], f).Some? {
      i := FirstInheritIsFirst(rs[..n], f);
      assert forall k :: 0 <= k < n ==> rs[..n][k] == rs[k];
    } else {
      i := n;
      NoFirstInherit(rs[..n], f);
      assert forall k :: 0 <= k < n ==> rs[..n][k] == rs[k];
    }
  }

  lemma {:induction false} NoFirstInherit(rs: seq<Route>, f: FaceId)
    requires FirstInherit(rs, f).None?
    ensures forall k :: 0 <= k < |rs| ==> !(rs[k].faceId == f && rs[k].childInherit)
  {
    if rs != [] {
      var n := |rs| - 1;
      NoFirstInherit(rs[..n], f);
      assert forall k :: 0 <= k < n ==> rs[..n][k] == rs[k];
    }
  }

  /** With one route for each face every scan finds that route. */
  lemma SoleRoute(rs: seq<Route>, f: FaceId)
    requires OnePerFace(rs)
    ensures var own := Lowest(rs, f, false);
            && Lowest(rs, f, true) == (if own.Some? && own.value.childInherit then own else None)
            && FirstInherit(rs, f) == Lowest(rs, f, true)
            && (HasFaceId(rs, f) <==> own.Some?)
            && (HasChildInherit(rs, f) <==> own.Some? && own.value.childInherit)
  {
    ScanFacts(rs, f);
  }

  lemma SoleRouteAt(rs: seq<Route>, i: nat)
    requires OnePerFace(rs) && i < |rs|
    ensures Lowest(rs, rs[i].faceId, false) == Some(rs[i])
  {
    ScanFacts(rs, rs[i].faceId);
    assert HasFaceId(rs, rs[i].faceId);
  }

  lemma ErasedAt(rs: seq<Route>, i: nat, j: nat)
    requires i < |rs| && j < |rs| - 1
    ensures Erased(rs, i)[j] == rs[if j < i then j else j + 1]
  {
  }

  lemma SoleRouteReplaced(rs: seq<Route>, i: nat, r: Route, f: FaceId)
    requires OnePerFace(rs) && i < |rs| && r.faceId == rs[i].faceId
    ensures OnePerFace(rs[i := r])
    ensures Lowest(rs[i := r], f, false) == if f == r.faceId then Some(r) else Lowest(rs, f, false)
  {
    var us := rs[i := r];
    ScanFacts(rs, f);
    ScanFacts(us, f);
    SoleRouteAt(us, i);
    if HasFaceId(rs, f) {
      var k :| 0 <= k < |rs| && rs[k].faceId == f;
      assert us[k].faceId == f;
    }
  }

  // ---- Scans after one route changed ----

  function CostOf(r: Option<Route>): Option<nat> {
    if r.Some? then Some(r.value.cost) else None
  }

  function Least(a: Option<nat>, b: Option<nat>): Option<nat> {
    if a.None? || (b.Some? && b.value < a.value) then b else a
  }

  /** What one route contributes to a scan. */
  function Part(r: Route, f: FaceId, inheritOnly: bool): Option<nat> {
    if r.faceId == f && (inheritOnly ==> r.childInherit) then Some(r.cost) else None
  }

  lemma LowestAttained(rs: seq<Route>, f: FaceId, inheritOnly: bool) returns (k: nat)
    requires Lowest(rs, f, inheritOnly).Some?
    ensures k < |rs| && Lowest(rs, f, inheritOnly) == Some(rs[k]) && Part(rs[k], f, inheritOnly) == Some(rs[k].cost)
  {
    ScanFacts(rs, f);
    k :| 0 <= k < |rs| && rs[k] == Lowest(rs, f, inheritOnly).value;
  }

  lemma LowestAtMost(rs: seq<Route>, f: FaceId, inheritOnly: bool, k: nat)
    requires k < |rs| && Part(rs[k], f, inheritOnly).Some?
    ensures Lowest(rs, f, inheritOnly).Some? && Lowest(rs, f, inheritOnly).value.cost <= rs[k].cost
  {
    LowestIsMinimum(rs, f, inheritOnly, k);
  }

  /** The cheapest of all routes is the cheaper of one of them and the cheapest of the others. */
  lemma LowestSplits(rs: seq<Route>, i: nat, f: FaceId, inheritOnly: bool)
    requires i < |rs|
    ensures CostOf(Lowest(rs, f, inheritOnly)) ==
            Least(CostOf(Lowest(Erased(rs, i), f, inheritOnly)), Part(rs[i], f, inheritOnly))
  {
    hide Lowest;
    var es := Erased(rs, i);
    if Lowest(es, f, inheritOnly).Some? {
      var k := LowestAttained(es, f, inheritOnly);
      ErasedAt(rs, i, k);
      LowestAtMost(rs, f, inheritOnly, if k < i then k else k + 1);
    }
    if Part(rs[i], f, inheritOnly).Some? {
      LowestAtMost(rs, f, inheritOnly, i);
    }
    if Lowest(rs, f, inheritOnly).Some? {
      var k := LowestAttained(rs, f, inheritOnly);
      if k != i {
        ErasedAt(rs, i, if k < i then k else k - 1);
        LowestAtMost(es, f, inheritOnly, if k < i then k else k - 1);
      }
    }
  }

  lemma ErasedOverwritten(rs: seq<Route>, i: nat, r: Route)
    requires i < |rs|
    ensures Erased(rs[i := r], i) == Erased(rs, i)
  {
    assert rs[i := r][..i] == rs[..i] && rs[i := r][i + 1..] == rs[i + 1..];
  }

  // ---- The second lowest cost ----

  ghost predicate TwoCheapest(rs: seq<Route>, f: FaceId, i: nat, j: nat) {
    && i < |rs| && j < |rs| && i != j && rs[i].faceId == f && rs[j].faceId == f
    && (forall k :: 0 <= k < |rs| && rs[k].faceId == f ==> rs[i].cost <= rs[k].cost)
    && (forall k :: 0 <= k < |rs| && k != i && rs[k].faceId == f ==> rs[j].cost <= rs[k].cost)
  }

  lemma {:induction false} LowestAt(rs: seq<Route>, f: FaceId) returns (i: nat)
    requires HasFaceId(rs, f)
    ensures i < |rs| && Lowest(rs, f, false) == Some(rs[i]) && rs[i].faceId == f
    ensures forall k :: 0 <= k < |rs| && rs[k].faceId == f ==> rs[i].cost <= rs[k].cost
  {
    ScanFacts(rs, f);
    var low := Lowest(rs, f, false).value;
    i :| 0 <= i < |rs| && rs[i] == low;
    forall k | 0 <= k < |rs| && rs[k].faceId == f
      ensures rs[i].cost <= rs[k].cost
    {
      LowestIsMinimum(rs, f, false, k);
    }
  }

  /** SecondLowest is the second order statistic of the costs on f. */
  lemma {:induction false} SecondLowestIsSecond(rs: seq<Route>, f: FaceId) returns (i: nat, j: nat)
    requires SecondLowest(rs, f).Some?
    ensures TwoCheapest(rs, f, i, j)
    ensures Lowest(rs, f, false) == Some(rs[i]) && SecondLowest(rs, f) == Some(rs[j])
  {
    var k := |rs| - 1;
    var before := rs[..k];
    ScanFacts(before, f);
    if rs[k].faceId != f || Lowest(before, f, false).None? {
      i, j := SecondLowestIsSecond(before, f);
    } else if SecondLowest(before, f).None? {
      i := LowestAt(before, f);
      OnlyOne(before, f, i);
      j := k;
      if rs[k].cost < rs[i].cost {
        i, j := k, i;
      }
    } else {
      i, j := SecondLowestIsSecond(before, f);
      if rs[k].cost < rs[i].cost {
        i, j := k, i;
      } else if rs[k].cost < rs[j].cost {
        j := k;
      }
    }
    assert forall m :: 0 <= m < k ==> before[m] == rs[m];
  }

  lemma {:induction false} OnlyOne(rs: seq<Route>, f: FaceId, i: nat)
    requires SecondLowest(rs, f).None? && i < |rs| && rs[i].faceId == f
    ensures forall k :: 0 <= k < |rs| && k != i ==> rs[k].faceId != f
  {
    var k := |rs| - 1;
    ScanFacts(rs[..k], f);
    assert forall m :: 0 <= m < k ==> rs[..k][m] == rs[m];
    if i < k {
      assert HasFaceId(rs[..k], f);
      OnlyOne(rs[..k], f, i);
    }
  }

  /** There is a second lowest route on a face just when erasing one of its routes leaves another. */
  lemma SecondMeansAnother(rs: seq<Route>, i: nat)
    requires i < |rs|
    ensures SecondLowest(rs, rs[i].faceId).Some? <==> Lowest(Erased(rs, i), rs[i].faceId, false).Some?
    ensures SecondLowest(rs, rs[i].faceId).Some? ==> SecondLowest(rs, rs[i].faceId).value.faceId == rs[i].faceId
  {
    hide Lowest, SecondLowest, Erased;
    if SecondLowest(rs, rs[i].faceId).Some? {
      AnotherIsLeft(rs, i);
    } else {
      NoneIsLeft(rs, i);
    }
  }

  lemma AnotherIsLeft(rs: seq<Route>, i: nat)
    requires i < |rs| && SecondLowest(rs, rs[i].faceId).Some?
    ensures Lowest(Erased(rs, i), rs[i].faceId, false).Some?
            && SecondLowest(rs, rs[i].faceId).value.faceId == rs[i].faceId
  {
    var es, f := Erased(rs, i), rs[i].faceId;
    assert |es| == |rs| - 1;
    hide Lowest, SecondLowest, Erased;
    var a, b := SecondLowestIsSecond(rs, f);
    var k := if a == i then b else a;
    var j := if k < i then k else k - 1;
    ErasedAt(rs, i, j);
    LowestAtMost(es, f, false, j);
  }

  lemma NoneIsLeft(rs: seq<Route>, i: nat)
    requires i < |rs| && SecondLowest(rs, rs[i].faceId).None?
    ensures Lowest(Erased(rs, i), rs[i].faceId, false).None?
  {
    var es, f := Erased(rs, i), rs[i].faceId;
    assert |es| == |rs| - 1;
    hide Lowest, SecondLowest, Erased;
    OnlyOne(rs, f, i);
    if Lowest(es, f, false).Some? {
      var k := LowestAttained(es, f, false);
      ErasedAt(rs, i, k);
    }
  }

  // ---- Facts about the capture count ----

  lemma {:induction false} CountConcat(a: seq<Route>, b: seq<Route>)
    ensures CountCapture(a + b) == CountCapture(a) + CountCapture(b)
  {
    if b == [] {
      assert a + b == a;
    } else {
      assert (a + b)[..|a + b| - 1] == a + b[..|b| - 1];
      CountConcat(a, b[..|b| - 1]);
    }
  }

  lemma CountAt(rs: seq<Route>, i: nat)
    requires i < |rs|
    ensures CountCapture(rs) == CountCapture(rs[..i]) + (if rs[i].capture then 1 else 0) + CountCapture(rs[i + 1..])
  {
    hide CountCapture;
    CountAppended(rs[..i], rs[i]);
    CountConcat(rs[..i] + [rs[i]], rs[i + 1..]);
    assert rs == rs[..i] + [rs[i]] + rs[i + 1..];
  }

  lemma CountErased(rs: seq<Route>, i: nat)
    requires i < |rs|
    ensures CountCapture(rs) == CountCapture(Erased(rs, i)) + if rs[i].capture then 1 else 0
  {
    CountAt(rs, i);
    CountConcat(rs[..i], rs[i + 1..]);
  }

  lemma CountReplaced(rs: seq<Route>, i: nat, r: Route)
    requires i < |rs|
    ensures CountCapture(rs[i := r]) ==
            CountCapture(rs) - (if rs[i].capture then 1 else 0) + (if r.capture then 1 else 0)
  {
    CountAt(rs, i);
    CountAt(rs[i := r], i);
    assert rs[i := r][..i] == rs[..i] && rs[i := r][i + 1..] == rs[i + 1..];
  }

  lemma CountAppended(rs: seq<Route>, r: Route)
    ensures CountCapture(rs + [r]) == CountCapture(rs) + if r.capture then 1 else 0
  {
    assert (rs + [r])[..|rs|] == rs;
  }

  lemma {:induction false} CountPositive(rs: seq<Route>)
    ensures CountCapture(rs) > 0 <==> exists i :: 0 <= i < |rs| && rs[i].capture
  {
    if |rs| > 0 {
      CountPositive(rs[..|rs| - 1]);
      assert forall i :: 0 <= i < |rs| - 1 ==> rs[..|rs| - 1][i] == rs[i];
    }
  }
}
