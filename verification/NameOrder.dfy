/** The canonical order of names, in which std::map<Name, …> keeps the table (ndn-cxx/name.cpp:281-295). */
module NameOrder {
  import opened Lists
  import opened Wrappers
  import opened Routes

  /** memcmp on values of one size. */
  predicate ValueBefore(a: Component, b: Component) {
    |a| > 0 && |b| > 0 && (a[0] < b[0] || (a[0] == b[0] && ValueBefore(a[1..], b[1..])))
  }

  /** Component::compare for components of one type: the shorter first, then by value. */
  predicate ComponentBefore(a: Component, b: Component) {
    |a| < |b| || (|a| == |b| && ValueBefore(a, b))
  }

  predicate Before(a: Name, b: Name) {
    |b| > 0 && (|a| == 0 || ComponentBefore(a[0], b[0]) || (a[0] == b[0] && Before(a[1..], b[1..])))
  }

  // ---- A total order ----

  lemma {:induction false} ValuesCompare(a: Component, b: Component)
    requires |a| == |b|
    ensures a == b || ValueBefore(a, b) || ValueBefore(b, a)
    ensures !(ValueBefore(a, b) && ValueBefore(b, a)) && (a == b ==> !ValueBefore(a, b))
  {
    if |a| > 0 {
      ValuesCompare(a[1..], b[1..]);
      assert a[0] == b[0] && a[1..] == b[1..] ==> a == b by {
        assert a == [a[0]] + a[1..] && b == [b[0]] + b[1..];
      }
    }
  }

  lemma {:induction false} ValuesTransitive(a: Component, b: Component, c: Component)
    requires ValueBefore(a, b) && ValueBefore(b, c)
    ensures ValueBefore(a, c)
  {
    if a[0] == b[0] == c[0] {
      ValuesTransitive(a[1..], b[1..], c[1..]);
    }
  }

  lemma ComponentsTransitive(a: Component, b: Component, c: Component)
    requires ComponentBefore(a, b) && ComponentBefore(b, c)
    ensures ComponentBefore(a, c)
  {
    if |a| == |b| == |c| {
      ValuesTransitive(a, b, c);
    }
  }

  lemma ComponentsCompare(a: Component, b: Component)
    ensures a == b || ComponentBefore(a, b) || ComponentBefore(b, a)
    ensures !(ComponentBefore(a, b) && ComponentBefore(b, a)) && !ComponentBefore(a, a)
  {
    ValuesCompare(a, a);
    if |a| == |b| {
      ValuesCompare(a, b);
    }
  }

  /** Of two names exactly one comes first, or they are equal. */
  lemma {:induction false} NamesCompare(a: Name, b: Name)
    ensures a == b || Before(a, b) || Before(b, a)
    ensures !(Before(a, b) && Before(b, a)) && !Before(a, a)
  {
    if |a| > 0 {
      ComponentsCompare(a[0], a[0]);
      NamesCompare(a[1..], a[1..]);
    }
    if |a| > 0 && |b| > 0 {
      ComponentsCompare(a[0], b[0]);
      NamesCompare(a[1..], b[1..]);
      assert a == [a[0]] + a[1..] && b == [b[0]] + b[1..];
    }
  }

  lemma {:induction false} BeforeTransitive(a: Name, b: Name, c: Name)
    requires Before(a, b) && Before(b, c)
    ensures Before(a, c)
  {
    if |a| > 0 {
      if ComponentBefore(a[0], b[0]) && ComponentBefore(b[0], c[0]) {
        ComponentsTransitive(a[0], b[0], c[0]);
      } else if a[0] == b[0] == c[0] {
        ComponentsCompare(a[0], a[0]);
        BeforeTransitive(a[1..], b[1..], c[1..]);
      }
    }
  }

  /** At the first character in which they differ the value with the lesser one comes first. */
  ghost predicate ValueDiffersAt(a: Component, b: Component, j: nat) {
    j < |a| && j < |b| && a[..j] == b[..j] && a[j] < b[j]
  }

  lemma {:induction false} ValueBeforeExactly(a: Component, b: Component)
    requires |a| == |b|
    ensures ValueBefore(a, b) <==> exists j :: 0 <= j < |a| && ValueDiffersAt(a, b, j)
  {
    if |a| > 0 {
      ValueBeforeExactly(a[1..], b[1..]);
      if a[0] < b[0] {
        assert ValueDiffersAt(a, b, 0);
      }
      if a[0] == b[0] {
        forall j | 0 < j < |a|
          ensures ValueDiffersAt(a, b, j) <==> ValueDiffersAt(a[1..], b[1..], j - 1)
        {
          assert a[..j] == [a[0]] + a[1..][..j - 1] && b[..j] == [b[0]] + b[1..][..j - 1];
        }
        if ValueBefore(a[1..], b[1..]) {
          var j :| 0 <= j < |a[1..]| && ValueDiffersAt(a[1..], b[1..], j);
          assert ValueDiffersAt(a, b, j + 1);
        }
      }
      if exists j :: 0 < j < |a| && ValueDiffersAt(a, b, j) {
        var j :| 0 < j < |a| && ValueDiffersAt(a, b, j);
        assert a[..j][0] == b[..j][0];
      }
    }
  }

  /**
   a and b first differ in component i, and there a has the shorter component or one of the same length before b's.
   */
  ghost predicate DiffersAt(a: Name, b: Name, i: nat) {
    && i < |a| && i < |b| && a[..i] == b[..i]
    && (|a[i]| < |b[i]|
        || (|a[i]| == |b[i]| && exists j :: 0 <= j < |a[i]| && ValueDiffersAt(a[i], b[i], j)))
  }

  /** The canonical order in full: a prefix comes first, else the first component that differs decides. */
  lemma {:induction false} BeforeExactly(a: Name, b: Name)
    ensures Before(a, b) <==> a < b || exists i :: 0 <= i < |a| && DiffersAt(a, b, i)
  {
    if |a| > 0 && |b| > 0 {
      BeforeExactly(a[1..], b[1..]);
      if |a[0]| == |b[0]| {
        ValueBeforeExactly(a[0], b[0]);
      }
      assert ComponentBefore(a[0], b[0]) <==> DiffersAt(a, b, 0);
      if a[0] == b[0] {
        assert a < b <==> a[1..] < b[1..] by {
          assert a == [a[0]] + a[1..] && b == [b[0]] + b[1..];
        }
      }
      hide ComponentBefore, ValueDiffersAt;
      forall i | 0 < i < |a|
        ensures DiffersAt(a, b, i) <==> a[0] == b[0] && DiffersAt(a[1..], b[1..], i - 1)
      {
        LaterDifference(a, b, i);
      }
      if a[0] == b[0] && exists i :: 0 <= i < |a[1..]| && DiffersAt(a[1..], b[1..], i) {
        var i :| 0 <= i < |a[1..]| && DiffersAt(a[1..], b[1..], i);
        assert DiffersAt(a, b, i + 1);
      }
    }
  }

  lemma LaterDifference(a: Name, b: Name, i: nat)
    requires 0 < i < |a| && |b| > 0
    ensures DiffersAt(a, b, i) <==> a[0] == b[0] && DiffersAt(a[1..], b[1..], i - 1)
  {
    if i < |b| {
      assert a[..i] == [a[0]] + a[1..][..i - 1] && b[..i] == [b[0]] + b[1..][..i - 1];
      if a[..i] == b[..i] {
        assert a[..i][0] == b[..i][0];
        assert a[1..][..i - 1] == a[..i][1..] && b[1..][..i - 1] == b[..i][1..];
      }
    }
  }

  // ---- Prefixes in that order ----

  lemma {:induction false} PrefixComesFirst(p: Name, d: Name)
    requires p < d
    ensures Before(p, d)
  {
    if |p| > 0 {
      assert p[1..] < d[1..];
      PrefixComesFirst(p[1..], d[1..]);
    }
  }

  /** The names below p stand together right behind p: no other name lies between p and one of them. */
  lemma {:induction false} DescendantsAreContiguous(p: Name, m: Name, d: Name)
    requires p <= d && Before(p, m) && Before(m, d)
    ensures p <= m
  {
    if |p| > 0 {
      ComponentsCompare(p[0], m[0]);
      ComponentsCompare(p[0], p[0]);
      assert p[1..] <= d[1..];
      DescendantsAreContiguous(p[1..], m[1..], d[1..]);
      assert p == [p[0]] + p[1..] && m == [m[0]] + m[1..];
    }
  }

  /** `next` is the first of the names behind n, or None at the end. */
  ghost predicate IsNext(names: set<Name>, n: Name, next: Option<Name>) {
    && (next.Some? ==> next.value in names && Before(n, next.value))
    && forall d :: d in names && Before(n, d) ==> next.Some? && !Before(d, next.value)
  }

  /** The increment of a map iterator. */
  method Next(names: set<Name>, n: Name) returns (next: Option<Name>)
    ensures IsNext(names, n, next)
  {
    next := None;
    var todo := names;
    while todo != {}
      invariant todo <= names && IsNext(names - todo, n, next)
      decreases todo
    {
      var d :| d in todo;
      ghost var before := next;
      if Before(n, d) && (next.None? || Before(d, next.value)) {
        next := Some(d);
      }
      NextOfMore(names - todo, n, before, d, next);
      todo := todo - {d};
      assert names - todo == names - (todo + {d}) + {d};
    }
    assert names - todo == names;
  }

  lemma NextOfMore(names: set<Name>, n: Name, next: Option<Name>, d: Name, next': Option<Name>)
    requires IsNext(names, n, next)
    requires next' == if Before(n, d) && (next.None? || Before(d, next.value)) then Some(d) else next
    ensures IsNext(names + {d}, n, next')
  {
    NamesCompare(d, d);
    forall m | m in names && Before(n, m) && next' == Some(d)
      ensures !Before(m, d)
    {
      if Before(m, d) {
        BeforeTransitive(m, d, next.value);
      }
    }
  }

  // ---- A scan that starts behind a prefix ----

  ghost predicate Ordered(l: seq<Name>) {
    forall i, j :: 0 <= i < j < |l| ==> Before(l[i], l[j])
  }

  lemma OrderedHasNoDuplicates(l: seq<Name>)
    requires Ordered(l)
    ensures NoDuplicates(l)
  {
    forall i, j | 0 <= i < j < |l|
      ensures l[i] != l[j]
    {
      NamesCompare(l[i], l[j]);
    }
  }

  /** `found` are the names below prefix up to `at`. */
  ghost predicate FoundUpTo(names: set<Name>, prefix: Name, at: Name, found: seq<Name>) {
    && prefix <= at && Ordered(found)
    && forall d :: d in found <==> d in names && prefix < d && !Before(at, d)
  }

  lemma NothingFoundYet(names: set<Name>, prefix: Name)
    ensures FoundUpTo(names, prefix, prefix, [])
  {
    forall d | d in names && prefix < d {
      PrefixComesFirst(prefix, d);
    }
  }

  lemma NextFound(names: set<Name>, prefix: Name, at: Name, found: seq<Name>, x: Name)
    requires FoundUpTo(names, prefix, at, found) && IsNext(names, at, Some(x)) && prefix <= x
    ensures FoundUpTo(names, prefix, x, found + [x])
  {
    BehindPrefix(prefix, at, x);
    NamesCompare(x, x);
    forall d
      ensures d in found + [x] <==> d in names && prefix < d && !Before(x, d)
    {
      NamesCompare(d, x);
      if Before(x, d) {
        BeforeTransitive(at, x, d);
      }
    }
    forall d | d in found
      ensures Before(d, x)
    {
      NamesCompare(d, at);
      if d != at {
        BeforeTransitive(d, at, x);
      }
    }
  }

  lemma BehindPrefix(prefix: Name, at: Name, x: Name)
    requires prefix <= at && Before(at, x)
    ensures Before(prefix, x) && prefix != x
  {
    if prefix < at {
      PrefixComesFirst(prefix, at);
      BeforeTransitive(prefix, at, x);
    }
    NamesCompare(prefix, x);
  }

  function Behind(names: set<Name>, at: Name): set<Name> {
    set d | d in names && Before(at, d)
  }

  lemma LessIsBehind(names: set<Name>, at: Name, x: Name)
    requires x in names && Before(at, x)
    ensures Behind(names, x) < Behind(names, at)
  {
    NamesCompare(x, x);
    assert x in Behind(names, at) && x !in Behind(names, x);
    forall d | d in names && Before(x, d)
      ensures Before(at, d)
    {
      BeforeTransitive(at, x, d);
    }
  }

  /** The scan may stop at the first name that is not below the prefix. */
  lemma NothingBelowBehind(names: set<Name>, prefix: Name, at: Name, found: seq<Name>, next: Option<Name>)
    requires FoundUpTo(names, prefix, at, found) && IsNext(names, at, next)
    requires next.Some? ==> !(prefix <= next.value)
    ensures forall d :: d in found <==> d in names && prefix < d
  {
    forall d | d in names && prefix < d
      ensures !Before(at, d)
    {
      if Before(at, d) {
        NamesCompare(d, next.value);
        BehindPrefix(prefix, at, next.value);
        DescendantsAreContiguous(prefix, next.value, d);
      }
    }
  }
}
