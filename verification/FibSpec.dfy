/** The FIB a RIB calls for, computed from the routes alone. */
module FibSpec {
  import opened Wrappers
  import opened Routes
  import opened RibTree

  type RouteTable = map<Name, seq<Route>>

  predicate Captures(rs: seq<Route>) {
    exists i :: 0 <= i < |rs| && rs[i].capture
  }

  /** c is the cheapest cost of a route on f, of all or of child-inherit routes only. */
  ghost predicate IsCheapest(rs: seq<Route>, f: FaceId, inheritOnly: bool, c: nat) {
    && (exists i :: 0 <= i < |rs| && rs[i].faceId == f && (inheritOnly ==> rs[i].childInherit) && rs[i].cost == c)
    && (forall i :: 0 <= i < |rs| && rs[i].faceId == f && (inheritOnly ==> rs[i].childInherit) ==> c <= rs[i].cost)
  }

  /** The cost with which names directly below p reach face f through a child-inherit ancestor, p included. */
  ghost function Inherited(t: RouteTable, p: Name, f: FaceId): Option<nat>
    decreases |p|
  {
    if p in t && HasChildInherit(t[p], f) then
      CheapestExists(t[p], f, true);
      var c :| IsCheapest(t[p], f, true, c);
      Some(c)
    else if p in t && Captures(t[p]) then None
    else if p == [] then None
    else Inherited(t, Up(p), f)
  }

  /** The next hop cost of (d, f): d's own cheapest route, else what d inherits unless one of its routes captures. */
  ghost function NextHop(t: RouteTable, d: Name, f: FaceId): Option<nat> {
    if d !in t then None
    else if HasFaceId(t[d], f) then
      CheapestExists(t[d], f, false);
      var c :| IsCheapest(t[d], f, false, c);
      Some(c)
    else if Captures(t[d]) || d == [] then None
    else Inherited(t, Up(d), f)
  }

  /** What names directly below n would inherit if n were absent. */
  ghost function Above(t: RouteTable, n: Name, f: FaceId): Option<nat> {
    if n == [] then None else Inherited(t, Up(n), f)
  }

  // ---- One entry's part ----

  /** What an entry with routes rs hands down, when `above` comes from its ancestors. */
  function HandedDown(rs: seq<Route>, f: FaceId, above: Option<nat>): Option<nat> {
    if Lowest(rs, f, true).Some? then CostOf(Lowest(rs, f, true)) else if Captures(rs) then None else above
  }

  function OwnHop(rs: seq<Route>, f: FaceId, above: Option<nat>): Option<nat> {
    if Lowest(rs, f, false).Some? then CostOf(Lowest(rs, f, false)) else if Captures(rs) then None else above
  }

  lemma CheapestExists(rs: seq<Route>, f: FaceId, inheritOnly: bool)
    requires if inheritOnly then HasChildInherit(rs, f) else HasFaceId(rs, f)
    ensures Lowest(rs, f, inheritOnly).Some? && IsCheapest(rs, f, inheritOnly, Lowest(rs, f, inheritOnly).value.cost)
  {
    ScanFacts(rs, f);
    var low := Lowest(rs, f, inheritOnly).value;
    assert low in rs;
    forall i | 0 <= i < |rs| && rs[i].faceId == f && (inheritOnly ==> rs[i].childInherit)
      ensures low.cost <= rs[i].cost
    {
      LowestIsMinimum(rs, f, inheritOnly, i);
    }
  }

  lemma CheapestIs(rs: seq<Route>, f: FaceId, inheritOnly: bool)
    requires if inheritOnly then HasChildInherit(rs, f) else HasFaceId(rs, f)
    ensures forall c :: IsCheapest(rs, f, inheritOnly, c) ==>
              Lowest(rs, f, inheritOnly).Some? && c == Lowest(rs, f, inheritOnly).value.cost
  {
    CheapestExists(rs, f, inheritOnly);
  }

  lemma InheritedIs(t: RouteTable, p: Name, f: FaceId)
    ensures Inherited(t, p, f) == if p in t then HandedDown(t[p], f, Above(t, p, f)) else Above(t, p, f)
  {
    if p in t {
      ScanFacts(t[p], f);
      if HasChildInherit(t[p], f) {
        CheapestIs(t[p], f, true);
      }
    }
  }

  lemma NextHopIs(t: RouteTable, d: Name, f: FaceId)
    ensures NextHop(t, d, f) == if d in t then OwnHop(t[d], f, Above(t, d, f)) else None
  {
    if d in t {
      ScanFacts(t[d], f);
      if HasFaceId(t[d], f) {
        CheapestIs(t[d], f, false);
      }
    }
  }

  // ---- How inheritance changes when only n changes ----

  ghost predicate SameElsewhere(t: RouteTable, t': RouteTable, n: Name) {
    forall m :: m != n ==> (m in t <==> m in t') && (m in t ==> t[m] == t'[m])
  }

  /** No entry on the path from just below root down to and including d captures or overrides f. */
  ghost predicate OpenPath(t: RouteTable, root: Name, d: Name, f: FaceId) {
    forall q :: q in t && root < q <= d ==> !Captures(t[q]) && !HasChildInherit(t[q], f)
  }

  lemma {:induction false} InheritedOutside(t: RouteTable, t': RouteTable, n: Name, p: Name, f: FaceId)
    requires SameElsewhere(t, t', n) && !(n <= p)
    ensures Inherited(t, p, f) == Inherited(t', p, f)
    decreases |p|
  {
    InheritedIs(t, p, f);
    InheritedIs(t', p, f);
    if p != [] {
      InheritedOutside(t, t', n, Up(p), f);
    }
  }

  lemma AboveSame(t: RouteTable, t': RouteTable, n: Name, f: FaceId)
    requires SameElsewhere(t, t', n)
    ensures Above(t, n, f) == Above(t', n, f)
  {
    if n != [] {
      InheritedOutside(t, t', n, Up(n), f);
    }
  }

  /** An open path hands on what its top hands down. */
  lemma {:induction false} InheritedThroughOpen(t: RouteTable, n: Name, d: Name, f: FaceId)
    requires n < d && OpenPath(t, n, d, f)
    ensures Inherited(t, d, f) == Inherited(t, n, f) && Above(t, d, f) == Inherited(t, n, f)
    decreases |d|
  {
    InheritedIs(t, d, f);
    if d in t {
      ScanFacts(t[d], f);
      assert !Captures(t[d]) && !HasChildInherit(t[d], f);
    }
    if |d| == |n| + 1 {
      assert Up(d) == n;
    } else {
      InheritedThroughOpen(t, n, Up(d), f);
    }
  }

  /** Nothing a change at n does gets past an entry that captures or overrides f. */
  lemma {:induction false} InheritedPastShut(t: RouteTable, t': RouteTable, n: Name, d: Name, f: FaceId)
    requires SameElsewhere(t, t', n) && n < d && !OpenPath(t, n, d, f)
    ensures Inherited(t, d, f) == Inherited(t', d, f)
    decreases |d|
  {
    InheritedIs(t, d, f);
    InheritedIs(t', d, f);
    if d in t {
      ScanFacts(t[d], f);
    }
    if !(d in t && (Captures(t[d]) || HasChildInherit(t[d], f))) {
      var q :| q in t && n < q <= d && (Captures(t[q]) || HasChildInherit(t[q], f));
      assert q != d && q <= Up(d);
      InheritedPastShut(t, t', n, Up(d), f);
    }
  }

  lemma NextHopPastShut(t: RouteTable, t': RouteTable, n: Name, d: Name, f: FaceId)
    requires SameElsewhere(t, t', n) && n < d && d in t && (!OpenPath(t, n, d, f) || HasFaceId(t[d], f))
    ensures NextHop(t, d, f) == NextHop(t', d, f)
  {
    NextHopIs(t, d, f);
    NextHopIs(t', d, f);
    ScanFacts(t[d], f);
    if !HasFaceId(t[d], f) && !Captures(t[d]) {
      assert !HasChildInherit(t[d], f);
      var q :| q in t && n < q <= d && (Captures(t[q]) || HasChildInherit(t[q], f));
      assert q != d && q <= Up(d);
      InheritedPastShut(t, t', n, Up(d), f);
    }
  }

  lemma NextHopThroughOpen(t: RouteTable, n: Name, d: Name, f: FaceId)
    requires n < d && d in t && OpenPath(t, n, d, f) && !HasFaceId(t[d], f)
    ensures NextHop(t, d, f) == Inherited(t, n, f)
  {
    NextHopIs(t, d, f);
    ScanFacts(t[d], f);
    InheritedThroughOpen(t, n, d, f);
  }

  /** Names that are not below n, nor n itself, keep their next hops. */
  lemma NextHopOutside(t: RouteTable, t': RouteTable, n: Name, d: Name, f: FaceId)
    requires SameElsewhere(t, t', n) && !(n <= d)
    ensures NextHop(t, d, f) == NextHop(t', d, f)
  {
    NextHopIs(t, d, f);
    NextHopIs(t', d, f);
    if d != [] {
      InheritedOutside(t, t', n, Up(d), f);
    }
  }
}
