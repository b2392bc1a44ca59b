/** The forwarder's FIB under the commands of an updater. */
module Forwarder {
  import opened Routes
  import opened FibDeltas
  import opened FibUpdates
  import opened EntryUpdates
  import opened FibRefinement
  import opened FibUpdaters

  /** The FIB after these commands, in order. */
  function FibAfter(fib: Fib, l: seq<FibUpdate>): Fib {
    if |l| == 0 then fib
    else Executed(FibAfter(fib, l[..|l| - 1]), l[|l| - 1].name, l[|l| - 1].faceId, ActionOf(l[|l| - 1]))
  }

  function Executed(fib: Fib, n: Name, f: FaceId, a: Action): Fib {
    match a
    case Add(c) => fib[(n, f) := c]
    case Remove => fib - {(n, f)}
  }

  lemma {:induction false} FibAfterAt(fib: Fib, l: seq<FibUpdate>, n: Name, f: FaceId)
    ensures Lookup(FibAfter(fib, l), n, f) == Applied(Lookup(fib, n, f), PendingIn(l, n, f))
  {
    if |l| > 0 {
      FibAfterAt(fib, l[..|l| - 1], n, f);
    }
  }

  /** Both lists of an updater together leave the FIB its slots describe. */
  lemma SlotsDescribeFib(updater: FibUpdater, fib: Fib, n: Name, f: FaceId)
    requires updater.Valid()
    ensures Lookup(FibAfter(FibAfter(fib, updater.updatesForBatchFaceId), updater.updatesForNonBatchFaceId), n, f)
            == Applied(Lookup(fib, n, f), updater.SlotAt(n, f).pending)
  {
    var batch, rest := updater.updatesForBatchFaceId, updater.updatesForNonBatchFaceId;
    FibAfterAt(fib, batch, n, f);
    FibAfterAt(FibAfter(fib, batch), rest, n, f);
    PendingInAbsent(batch, n, f);
    PendingInAbsent(rest, n, f);
  }
}
