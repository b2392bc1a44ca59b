/** The list operations several source classes share. */
module Lists {

  ghost predicate NoDuplicates<T>(s: seq<T>) {
    forall i, j :: 0 <= i < j < |s| ==> s[i] != s[j]
  }

  /** std::list::remove. */
  function Without<T(==,!new)>(s: seq<T>, c: T): (t: seq<T>)
    ensures forall x :: x in t <==> x in s && x != c
    ensures NoDuplicates(s) ==> NoDuplicates(t)
    ensures |t| <= |s| && (c in s ==> |t| < |s|)
  {
    if s == [] then []
    else
      var t := Without(s[..|s| - 1], c);
      assert s == s[..|s| - 1] + [s[|s| - 1]];
      assert NoDuplicates(s) ==> s[|s| - 1] !in s[..|s| - 1];
      if s[|s| - 1] == c then t else t + [s[|s| - 1]]
  }

  function WithoutAt<T>(s: seq<T>, i: nat): (t: seq<T>)
    requires i < |s|
    ensures |t| == |s| - 1
    ensures forall j :: 0 <= j < |t| ==> t[j] == s[if j < i then j else j + 1]
  {
    s[..i] + s[i + 1..]
  }
}
