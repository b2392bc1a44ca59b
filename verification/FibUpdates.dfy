/** FIB updates and the two lists of the updater, read as slots (rib/fib-update.hpp, rib/fib-updater.hpp). */
module FibUpdates {
  import opened Wrappers
  import opened Routes
  import opened FibDeltas

  datatype FibAction = AddNextHop | RemoveNextHop

  datatype FibUpdate = FibUpdate(name: Name, faceId: FaceId, cost: nat, action: FibAction)

  function CreateAddUpdate(name: Name, faceId: FaceId, cost: nat): FibUpdate {
    FibUpdate(name, faceId, cost, AddNextHop)
  }

  // The default constructor leaves the cost at 0.
  function CreateRemoveUpdate(name: Name, faceId: FaceId): FibUpdate {
    FibUpdate(name, faceId, 0, RemoveNextHop)
  }

  function ActionOf(u: FibUpdate): Action {
    if u.action == AddNextHop then Add(u.cost) else Remove
  }

  predicate SameTarget(u: FibUpdate, v: FibUpdate) {
    u.name == v.name && u.faceId == v.faceId
  }

  ghost predicate DistinctTargets(l: seq<FibUpdate>) {
    forall i, j :: 0 <= i < j < |l| ==> !SameTarget(l[i], l[j])
  }

  /** The action a list holds for (n, f). */
  function PendingIn(l: seq<FibUpdate>, n: Name, f: FaceId): Option<Action> {
    if |l| == 0 then None
    else if l[|l| - 1].name == n && l[|l| - 1].faceId == f then Some(ActionOf(l[|l| - 1]))
    else PendingIn(l[..|l| - 1], n, f)
  }

  /** What the last record for (n, f) in a RibUpdateList says. */
  function LastRecord(l: seq<RibUpdate>, n: Name, f: FaceId): Option<bool> {
    if |l| == 0 then None
    else if l[|l| - 1].name == n && l[|l| - 1].route.faceId == f && l[|l| - 1].action != RemoveFace
    then Some(l[|l| - 1].action == Register)
    else LastRecord(l[..|l| - 1], n, f)
  }

  lemma {:induction false} PendingInAbsent(l: seq<FibUpdate>, n: Name, f: FaceId)
    ensures PendingIn(l, n, f).None? <==> forall i :: 0 <= i < |l| ==> !(l[i].name == n && l[i].faceId == f)
  {
    if |l| > 0 {
      PendingInAbsent(l[..|l| - 1], n, f);
      assert forall i :: 0 <= i < |l| - 1 ==> l[..|l| - 1][i] == l[i];
    }
  }

  lemma {:induction false} PendingInAt(l: seq<FibUpdate>, i: nat)
    requires DistinctTargets(l) && i < |l|
    ensures PendingIn(l, l[i].name, l[i].faceId) == Some(ActionOf(l[i]))
  {
    if i < |l| - 1 {
      PendingInAt(l[..|l| - 1], i);
    }
  }

  lemma {:induction false} PendingInReplaced(l: seq<FibUpdate>, i: nat, u: FibUpdate, n: Name, f: FaceId)
    requires DistinctTargets(l) && i < |l| && SameTarget(l[i], u)
    ensures DistinctTargets(l[i := u])
    ensures PendingIn(l[i := u], n, f) == if n == u.name && f == u.faceId then Some(ActionOf(u)) else PendingIn(l, n, f)
  {
    var k := |l| - 1;
    if i < k {
      assert l[i := u][..k] == l[..k][i := u];
      PendingInReplaced(l[..k], i, u, n, f);
    } else {
      assert l[i := u][..k] == l[..k];
    }
  }

  lemma PendingInAppended(l: seq<FibUpdate>, u: FibUpdate, n: Name, f: FaceId)
    requires DistinctTargets(l) && PendingIn(l, u.name, u.faceId).None?
    ensures DistinctTargets(l + [u])
    ensures PendingIn(l + [u], n, f) == if n == u.name && f == u.faceId then Some(ActionOf(u)) else PendingIn(l, n, f)
  {
    assert (l + [u])[..|l|] == l;
    PendingInAbsent(l, u.name, u.faceId);
  }

  lemma LastRecordAppended(l: seq<RibUpdate>, u: RibUpdate, n: Name, f: FaceId)
    ensures LastRecord(l + [u], n, f) ==
            if n == u.name && f == u.route.faceId && u.action != RemoveFace then Some(u.action == Register)
            else LastRecord(l, n, f)
  {
    assert (l + [u])[..|l|] == l;
  }
}
