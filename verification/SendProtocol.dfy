/**
 The sending half of class FibUpdater (rib/fib-updater.cpp:188-311): batch-face commands first, the rest
 once those are acknowledged, timed-out commands retried. Responses arrive in any order.
 */
module SendProtocol {
  import opened Lists
  import opened Routes
  import opened FibDeltas
  import opened FibUpdates
  import opened FibRefinement
  import opened Forwarder

  const MAX_NUM_TIMEOUTS: nat := 10
  const ERROR_FACE_NOT_FOUND: nat := 410
  const ERROR_TIMEOUT: nat := 10060

  /** One command on its way: a retry is always an AddNextHop command, whatever the update's action (line 293). */
  datatype Command = Command(update: FibUpdate, adds: bool, nTimeouts: nat)

  /** `executed` tells whether the forwarder carried out a command whose response was lost. */
  datatype Response = Accepted | Refused(code: nat, executed: bool)

  datatype Sending = Sending(
    batchFaceId: FaceId,
    batch: seq<FibUpdate>,          // m_updatesForBatchFaceId
    rest: seq<FibUpdate>,           // m_updatesForNonBatchFaceId
    outstanding: seq<Command>,      // commands without a response
    fib: Fib,                       // the forwarder's FIB
    successes: nat,                 // calls of onSuccess
    failures: nat,                  // calls of onFailure
    threw: bool,                    // the non-recoverable error was thrown
    sent: seq<Command>,             // every command so far
    accepted: map<FibUpdate, nat>,  // accepted updates, with the timeouts they had seen
    skipped: set<FibUpdate>,        // non-batch updates refused for want of the face
    refused: set<FibUpdate>)        // batch updates refused for want of the face

  // ---- What the methods do to a state ----

  function FirstCommand(u: FibUpdate): Command {
    Command(u, u.action == AddNextHop, 0)
  }

  function Issued(s: Sending, c: Command): Sending {
    s.(sent := s.sent + [c], outstanding := s.outstanding + [c])
  }

  function SentAll(s: Sending, l: seq<FibUpdate>): Sending {
    if |l| == 0 then s else Issued(SentAll(s, l[..|l| - 1]), FirstCommand(l[|l| - 1]))
  }

  function SentRest(s: Sending): Sending {
    if |s.rest| > 0 then SentAll(s, s.rest) else s.(successes := s.successes + 1)
  }

  function Started(batchFaceId: FaceId, batch: seq<FibUpdate>, rest: seq<FibUpdate>, fib: Fib): Sending {
    var s := Sending(batchFaceId, batch, rest, [], fib, 0, 0, false, [], map[], {}, {});
    if |batch| > 0 then SentAll(s, batch) else SentRest(s)
  }

  function AfterSuccess(s: Sending, u: FibUpdate): Sending {
    if u.faceId == s.batchFaceId then
      var s1 := s.(batch := Without(s.batch, u));
      if |s1.batch| == 0 then SentRest(s1) else s1
    else
      var s1 := s.(rest := Without(s.rest, u));
      if |s1.rest| == 0 then s1.(successes := s1.successes + 1) else s1
  }

  function AfterError(s: Sending, u: FibUpdate, code: nat, nTimeouts: nat): Sending {
    if code == ERROR_TIMEOUT && nTimeouts < MAX_NUM_TIMEOUTS then Issued(s, Command(u, true, nTimeouts + 1))
    else if code == ERROR_FACE_NOT_FOUND then
      if u.faceId == s.batchFaceId then s.(failures := s.failures + 1, refused := s.refused + {u})
      else
        var s1 := s.(rest := Without(s.rest, u), skipped := s.skipped + {u});
        if |s1.rest| == 0 then s1.(successes := s1.successes + 1) else s1
    else s.(threw := true)
  }

  function ExecutedBy(fib: Fib, c: Command): Fib {
    Executed(fib, c.update.name, c.update.faceId, if c.adds then Add(c.update.cost) else Remove)
  }

  /** The response r to the k-th outstanding command. */
  function Responded(s: Sending, k: nat, r: Response): Sending
    requires k < |s.outstanding|
  {
    var c := s.outstanding[k];
    var s1 := s.(outstanding := WithoutAt(s.outstanding, k));
    match r
    case Accepted =>
      AfterSuccess(s1.(fib := ExecutedBy(s.fib, c), accepted := s.accepted[c.update := c.nTimeouts]), c.update)
    case Refused(code, executed) =>
      AfterError(s1.(fib := if code == ERROR_TIMEOUT && executed then ExecutedBy(s.fib, c) else s.fib), c.update, code,
                 c.nTimeouts)
  }

  // ---- The class ----

  class FibSender {
    var batchFaceId: FaceId
    var updatesForBatchFaceId: seq<FibUpdate>
    var updatesForNonBatchFaceId: seq<FibUpdate>
    var outstanding: seq<Command>
    var fib: Fib
    var successes: nat
    var failures: nat
    var threw: bool
    var sent: seq<Command>
    var accepted: map<FibUpdate, nat>
    var skipped: set<FibUpdate>
    var refused: set<FibUpdate>

    function View(): Sending
      reads this
    {
      Sending(batchFaceId, updatesForBatchFaceId, updatesForNonBatchFaceId, outstanding, fib, successes, failures,
              threw,
              sent, accepted, skipped, refused)
    }

    // computeAndSendFibUpdates, once the updates have been computed.
    constructor (batchFaceId: FaceId, batch: seq<FibUpdate>, rest: seq<FibUpdate>, fib: Fib)
      ensures View() == Started(batchFaceId, batch, rest, fib)
    {
      this.batchFaceId, updatesForBatchFaceId, updatesForNonBatchFaceId := batchFaceId, batch, rest;
      outstanding, this.fib, successes, failures, threw := [], fib, 0, 0, false;
      sent, accepted, skipped, refused := [], map[], {}, {};
      new;
      SendUpdatesForBatchFaceId();
    }

    method SendUpdates(updates: seq<FibUpdate>)
      modifies this
      ensures View() == SentAll(old(View()), updates)
    {
      for i := 0 to |updates|
        invariant View() == SentAll(old(View()), updates[..i])
      {
        assert updates[..i + 1][..i] == updates[..i];
        var update := updates[i];
        if update.action == AddNextHop {
          SendAddNextHopUpdate(update, 0);
        } else {
          SendRemoveNextHopUpdate(update, 0);
        }
      }
      assert updates[..|updates|] == updates;
    }

    method SendUpdatesForBatchFaceId()
      modifies this
      ensures View() == if |old(updatesForBatchFaceId)| > 0 then SentAll(old(View()), old(updatesForBatchFaceId))
              else SentRest(old(View()))
    {
      if |updatesForBatchFaceId| > 0 {
        SendUpdates(updatesForBatchFaceId);
      } else {
        SendUpdatesForNonBatchFaceId();
      }
    }

    method SendUpdatesForNonBatchFaceId()
      modifies this
      ensures View() == SentRest(old(View()))
    {
      if |updatesForNonBatchFaceId| > 0 {
        SendUpdates(updatesForNonBatchFaceId);
      } else {
        successes := successes + 1;
      }
    }

    method SendAddNextHopUpdate(update: FibUpdate, nTimeouts: nat)
      modifies this`sent, this`outstanding
      ensures View() == Issued(old(View()), Command(update, true, nTimeouts))
    {
      sent := sent + [Command(update, true, nTimeouts)];
      outstanding := outstanding + [Command(update, true, nTimeouts)];
    }

    method SendRemoveNextHopUpdate(update: FibUpdate, nTimeouts: nat)
      modifies this`sent, this`outstanding
      ensures View() == Issued(old(View()), Command(update, false, nTimeouts))
    {
      sent := sent + [Command(update, false, nTimeouts)];
      outstanding := outstanding + [Command(update, false, nTimeouts)];
    }

    method OnUpdateSuccess(update: FibUpdate)
      modifies this
      ensures View() == AfterSuccess(old(View()), update)
    {
      if update.faceId == batchFaceId {
        updatesForBatchFaceId := Without(updatesForBatchFaceId, update);
        if |updatesForBatchFaceId| == 0 {
          SendUpdatesForNonBatchFaceId();
        }
      } else {
        updatesForNonBatchFaceId := Without(updatesForNonBatchFaceId, update);
        if |updatesForNonBatchFaceId| == 0 {
          successes := successes + 1;
        }
      }
    }

    method OnUpdateError(update: FibUpdate, code: nat, nTimeouts: nat)
      modifies this
      ensures View() == AfterError(old(View()), update, code, nTimeouts)
    {
      if code == ERROR_TIMEOUT && nTimeouts < MAX_NUM_TIMEOUTS {
        SendAddNextHopUpdate(update, nTimeouts + 1);
      } else if code == ERROR_FACE_NOT_FOUND {
        if update.faceId == batchFaceId {
          failures := failures + 1;
          refused := refused + {update};
        } else {
          updatesForNonBatchFaceId := Without(updatesForNonBatchFaceId, update);
          skipped := skipped + {update};
          if |updatesForNonBatchFaceId| == 0 {
            successes := successes + 1;
          }
        }
      } else {
        threw := true;
      }
    }

    // The controller hands the response to the k-th outstanding command to the callback bound to it.
    method Respond(k: nat, r: Response)
      requires k < |outstanding|
      modifies this
      ensures View() == Responded(old(View()), k, r)
    {
      var c := outstanding[k];
      outstanding := WithoutAt(outstanding, k);
      match r {
        case Accepted =>
          fib := ExecutedBy(fib, c);
          accepted := accepted[c.update := c.nTimeouts];
          OnUpdateSuccess(c.update);
        case Refused(code, executed) =>
          if code == ERROR_TIMEOUT && executed {
            fib := ExecutedBy(fib, c);
          }
          OnUpdateError(c.update, code, c.nTimeouts);
      }
    }
  }
}
