/** The name tree of the RIB: parents by longest present proper prefix, children as the inverse relation. */
module RibTree {
  import opened Lists
  import opened Wrappers
  import opened Routes

  function Up(n: Name): Name
    requires n != []
  {
    n[..|n| - 1]
  }

  /** The longest proper prefix of n that is present. */
  function ParentOf(names: set<Name>, n: Name): (p: Option<Name>)
    ensures p.Some? ==> p.value in names && p.value < n
    decreases |n|
  {
    if n == [] then None
    else if Up(n) in names then Some(Up(n))
    else ParentOf(names, Up(n))
  }

  /** Every present proper prefix of n is a prefix of its parent. */
  lemma {:induction false} ParentIsLongest(names: set<Name>, n: Name, q: Name)
    requires q in names && q < n
    ensures ParentOf(names, n).Some? && q <= ParentOf(names, n).value
    decreases |n|
  {
    assert q <= Up(n);
    if Up(n) !in names {
      assert q != Up(n) && q < Up(n);
      ParentIsLongest(names, Up(n), q);
    }
  }

  ghost predicate LinkedAt(rib: RibView, m: Name, c: Name)
    requires m in rib
  {
    c in rib[m].children <==> c in rib && rib[c].parent == Some(m)
  }

  /** Parent pointers and child lists mirror each other. */
  ghost predicate Linked(rib: RibView) {
    && (forall m {:trigger rib[m].children} :: m in rib ==> NoDuplicates(rib[m].children))
    && (forall m, c {:trigger LinkedAt(rib, m, c)} :: m in rib ==> LinkedAt(rib, m, c))
  }

  /** What the pointers of the entries promise: parent links and child lists both follow the prefix order. */
  ghost predicate TreeOk(rib: RibView) {
    && Linked(rib)
    && (forall n {:trigger rib[n].parent} :: n in rib ==> rib[n].parent == ParentOf(rib.Keys, n))
  }

  // ---- Prefix order ----

  lemma PrefixesCompare(a: Name, b: Name, c: Name)
    requires a <= c && b <= c && |a| <= |b|
    ensures a <= b
  {
  }

  lemma PrefixesCompareEither(a: Name, b: Name, c: Name)
    requires a <= c && b <= c
    ensures a <= b || b < a
  {
  }

  lemma ParentIsUnique(names: set<Name>, n: Name, p: Name)
    requires p in names && p < n
    requires forall q :: q in names && q < n ==> |q| <= |p|
    ensures ParentOf(names, n) == Some(p)
  {
    ParentIsLongest(names, n, p);
    var q := ParentOf(names, n).value;
    assert p <= q && |q| <= |p|;
    assert p == q;
  }

  /** The shortest present name that extends `root` and is a prefix of d: where d's branch leaves `root`. */
  function Branch(names: set<Name>, root: Name, d: Name): (c: Name)
    requires root < d && d in names
    ensures c in names && root < c <= d
    ensures forall q :: q in names && root < q <= d ==> c <= q
    decreases |d|
  {
    match ParentOf(names, d)
    case None =>
      assert forall q :: q in names && root < q <= d ==> q == d by {
        forall q | q in names && root < q < d ensures false { ParentIsLongest(names, d, q); }
        assert forall q :: q in names && q <= d ==> q < d || q == d;
      }
      d
    case Some(p) =>
      assert forall q :: q in names && root < q <= d ==> q == d || q <= p by {
        forall q | q in names && root < q < d ensures q <= p { ParentIsLongest(names, d, q); }
        assert forall q :: q in names && q <= d ==> q < d || q == d;
      }
      if |root| < |p| then
        PrefixesCompare(root, p, d);
        Branch(names, root, p)
      else d
  }

  /** `children` are exactly the topmost present names below `root`; root itself may be absent. */
  ghost predicate Topmost(rib: RibView, root: Name, children: seq<Name>) {
    && NoDuplicates(children)
    && forall c :: c in children <==> (c in rib && root < c && forall q :: q in rib && root < q <= c ==> q == c)
  }

  /** A name under root has root's children as its topmost prefix exactly when nothing lies in between. */
  lemma NothingBetween(names: set<Name>, root: Name, c: Name)
    requires root in names && c in names && root < c
    ensures ParentOf(names, c) == Some(root) <==> forall q :: q in names && root < q <= c ==> q == c
  {
    ParentIsLongest(names, c, root);
    var p := ParentOf(names, c).value;
    if p == root {
      forall q | q in names && root < q <= c
        ensures q == c
      {
        if q != c {
          ParentIsLongest(names, c, q);
        }
      }
    } else {
      assert root < p <= c && p != c;
    }
  }

  lemma ChildrenAreTopmost(rib: RibView, n: Name)
    requires TreeOk(rib) && n in rib
    ensures Topmost(rib, n, rib[n].children)
  {
    forall c
      ensures c in rib[n].children <==> (c in rib && n < c && forall q :: q in rib && n < q <= c ==> q == c)
    {
      assert LinkedAt(rib, n, c);
      if c in rib && n < c {
        NothingBetween(rib.Keys, n, c);
      }
    }
  }

  lemma BranchIsChild(rib: RibView, root: Name, children: seq<Name>, d: Name)
    requires Topmost(rib, root, children) && d in rib && root < d
    ensures Branch(rib.Keys, root, d) in children
  {
    var c := Branch(rib.Keys, root, d);
    forall q | q in rib && root < q <= c
      ensures q == c
    {
      assert q <= d;
    }
  }

  /** Topmost names never lie on one path, so each name below root has one branch. */
  lemma TopmostApart(rib: RibView, root: Name, children: seq<Name>, c: Name, d: Name)
    requires Topmost(rib, root, children) && c in children && d in rib && c <= d
    ensures root < d && Branch(rib.Keys, root, d) == c
  {
    var b := Branch(rib.Keys, root, d);
    assert b <= c;
  }

  /** Rib::findParent, from the longest proper prefix down. */
  method FindParent(names: set<Name>, prefix: Name) returns (parent: Option<Name>)
    ensures parent == ParentOf(names, prefix)
  {
    var i := |prefix| - 1;
    while i >= 0
      invariant -1 <= i < |prefix|
      invariant forall k :: i < k < |prefix| ==> prefix[..k] !in names
    {
      if prefix[..i] in names {
        forall q | q in names && q < prefix
          ensures |q| <= i
        {
          assert q == prefix[..|q|];
        }
        ParentIsUnique(names, prefix, prefix[..i]);
        return Some(prefix[..i]);
      }
      i := i - 1;
    }
    assert forall q :: q in names && q < prefix ==> q == prefix[..|q|];
    return None;
  }

  // ---- Parents when one name comes or goes ----

  lemma ParentAfterInsert(names: set<Name>, n: Name, c: Name)
    requires n !in names
    ensures ParentOf(names + {n}, c) ==
            if n < c && ParentOf(names, c) == ParentOf(names, n) then Some(n) else ParentOf(names, c)
  {
    var p := ParentOf(names, c);
    forall q | q in names && q < c
      ensures p.Some? && q <= p.value
    {
      ParentIsLongest(names, c, q);
    }
    if n < c && p == ParentOf(names, n) {
      ParentIsUnique(names + {n}, c, n);
    } else if n < c {
      if !(p.Some? && n < p.value) {
        ParentOfShorter(names, n, c);
      }
      ParentIsUnique(names + {n}, c, p.value);
    } else if p.Some? {
      ParentIsUnique(names + {n}, c, p.value);
    }
  }

  /** A name under n whose parent is not below n has the parent n has. */
  lemma ParentOfShorter(names: set<Name>, n: Name, c: Name)
    requires n !in names && n < c && !(ParentOf(names, c).Some? && n < ParentOf(names, c).value)
    ensures ParentOf(names, c) == ParentOf(names, n)
  {
    var p := ParentOf(names, c);
    var r := ParentOf(names, n);
    if r.Some? {
      ParentIsLongest(names, c, r.value);
    }
    if p.Some? {
      PrefixesCompareEither(p.value, n, c);
      assert p.value != n && p.value < n;
      ParentIsLongest(names, n, p.value);
      assert p.value <= r.value <= p.value;
      assert p.value == r.value;
    }
  }

  lemma ParentAfterErase(names: set<Name>, n: Name, c: Name)
    requires n in names
    ensures ParentOf(names - {n}, c) == if ParentOf(names, c) == Some(n) then ParentOf(names, n) else ParentOf(names, c)
  {
    assert names - {n} + {n} == names;
    ParentAfterInsert(names - {n}, n, c);
    ParentAfterInsert(names - {n}, n, n);
  }
}
