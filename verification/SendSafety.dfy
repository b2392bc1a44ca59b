/** What every run of responses keeps, for any two lists the computation can leave behind. */
module SendSafety {
  import opened Lists
  import opened Routes
  import opened FibUpdates
  import opened FibRefinement
  import opened SendProtocol

  /** The lists of a FibUpdater: one update for each target, split by the batch's face. */
  ghost predicate Split(bf: FaceId, B: seq<FibUpdate>, R: seq<FibUpdate>) {
    && DistinctTargets(B) && DistinctTargets(R)
    && (forall u :: u in B ==> u.faceId == bf)
    && (forall u :: u in R ==> u.faceId != bf)
  }

  ghost predicate Run(states: seq<Sending>, bf: FaceId, B: seq<FibUpdate>, R: seq<FibUpdate>, fib: Fib) {
    && |states| > 0 && states[0] == Started(bf, B, R, fib)
    && forall i :: 0 <= i < |states| - 1 ==> Answers(states[i], states[i + 1])
  }

  /** One outstanding command gets its response; nothing happens after the exception. */
  ghost predicate Answers(s: Sending, s': Sending) {
    !s.threw && exists k: nat, r :: k < |s.outstanding| && s' == Responded(s, k, r)
  }

  ghost predicate Waiting(s: Sending, u: FibUpdate) {
    exists k :: 0 <= k < |s.outstanding| && s.outstanding[k].update == u
  }

  ghost predicate GoodCommands(s: Sending) {
    && (forall i, j :: 0 <= i < j < |s.outstanding| ==> s.outstanding[i].update != s.outstanding[j].update)
    && (forall i :: 0 <= i < |s.outstanding| ==> s.outstanding[i].nTimeouts <= MAX_NUM_TIMEOUTS)
    && (forall i :: 0 <= i < |s.outstanding| ==>
          (s.outstanding[i].adds <==> s.outstanding[i].update.action == AddNextHop || s.outstanding[i].nTimeouts > 0))
  }

  /** Each update is still listed, or accepted, or (away from the batch's face) skipped. */
  ghost predicate Accounted(s: Sending, bf: FaceId, B: seq<FibUpdate>, R: seq<FibUpdate>) {
    && s.batchFaceId == bf
    && NoDuplicates(s.batch) && NoDuplicates(s.rest)
    && (forall u :: u in B <==> u in s.batch || (u in s.accepted && u.faceId == bf))
    && (forall u :: u in R <==> u in s.rest || u in s.skipped || (u in s.accepted && u.faceId != bf))
    && (forall u :: u in s.accepted ==> u !in s.batch && u !in s.rest && u !in s.skipped)
    && (forall u :: u in s.skipped ==> u !in s.rest)
    && (forall u :: u in s.refused ==> u in s.batch)
    && (s.failures > 0 <==> s.refused != {})
  }

  /** The two phases: nothing beyond the batch's face is sent while one of its updates is listed. */
  ghost predicate Phased(s: Sending, bf: FaceId, R: seq<FibUpdate>) {
    && (s.batch != [] ==>
          && s.rest == R && s.skipped == {}
          && (forall i :: 0 <= i < |s.sent| ==> s.sent[i].update.faceId == bf)
          && (forall u :: Waiting(s, u) ==> u in s.batch && u !in s.refused)
          && (!s.threw ==> forall u :: u in s.batch && u !in s.refused ==> Waiting(s, u)))
    && (s.batch == [] ==>
          && (forall u :: Waiting(s, u) ==> u in s.rest)
          && (!s.threw ==> forall u :: u in s.rest ==> Waiting(s, u)))
    && s.successes == if s.batch == [] && s.rest == [] then 1 else 0
  }

  ghost predicate Consistent(s: Sending, bf: FaceId, B: seq<FibUpdate>, R: seq<FibUpdate>) {
    GoodCommands(s) && Accounted(s, bf, B, R) && Phased(s, bf, R)
  }

  // ---- Sending a whole list ----

  function FirstCommands(l: seq<FibUpdate>): (cs: seq<Command>)
    ensures |cs| == |l|
    ensures forall i :: 0 <= i < |l| ==> cs[i] == FirstCommand(l[i])
  {
    if |l| == 0 then [] else FirstCommands(l[..|l| - 1]) + [FirstCommand(l[|l| - 1])]
  }

  lemma {:induction false} SentAllIs(s: Sending, l: seq<FibUpdate>)
    ensures SentAll(s, l) == s.(sent := s.sent + FirstCommands(l), outstanding := s.outstanding + FirstCommands(l))
  {
    if |l| == 0 {
      assert s.sent + [] == s.sent && s.outstanding + [] == s.outstanding;
    } else {
      SentAllIs(s, l[..|l| - 1]);
      var cs := FirstCommands(l[..|l| - 1]);
      var c := FirstCommand(l[|l| - 1]);
      assert s.sent + cs + [c] == s.sent + (cs + [c]);
      assert s.outstanding + cs + [c] == s.outstanding + (cs + [c]);
    }
  }

  lemma DistinctIsNoDuplicates(l: seq<FibUpdate>)
    requires DistinctTargets(l)
    ensures NoDuplicates(l)
  {
    forall i, j | 0 <= i < j < |l|
      ensures l[i] != l[j]
    {
      assert !SameTarget(l[i], l[j]);
    }
  }

  lemma WaitingAfterAll(s: Sending, l: seq<FibUpdate>)
    requires s.outstanding == [] && NoDuplicates(l)
    ensures GoodCommands(SentAll(s, l))
    ensures forall u :: Waiting(SentAll(s, l), u) <==> u in l
  {
    SentAllIs(s, l);
    var s' := SentAll(s, l);
    hide SentAll, FirstCommands;
    assert s'.outstanding == FirstCommands(l);
    forall u | u in l
      ensures Waiting(s', u)
    {
      var i :| 0 <= i < |l| && l[i] == u;
      assert s'.outstanding[i].update == u;
    }
  }

  lemma StartedIsConsistent(bf: FaceId, B: seq<FibUpdate>, R: seq<FibUpdate>, fib: Fib)
    requires Split(bf, B, R)
    ensures Consistent(Started(bf, B, R, fib), bf, B, R)
  {
    var s := Sending(bf, B, R, [], fib, 0, 0, false, [], map[], {}, {});
    DistinctIsNoDuplicates(B);
    DistinctIsNoDuplicates(R);
    if |B| > 0 {
      SentAllIs(s, B);
      WaitingAfterAll(s, B);
    } else {
      SentRestIsConsistent(s, bf, B, R);
    }
  }

  /** Entering the second phase. */
  lemma SentRestIsConsistent(s: Sending, bf: FaceId, B: seq<FibUpdate>, R: seq<FibUpdate>)
    requires Accounted(s, bf, B, R) && s.batch == [] && s.outstanding == [] && s.successes == 0
    ensures Consistent(SentRest(s), bf, B, R)
  {
    if |s.rest| > 0 {
      SentAllIs(s, s.rest);
      WaitingAfterAll(s, s.rest);
    } else {
      assert forall u :: !Waiting(SentRest(s), u);
    }
  }

  // ---- One response ----

  /** Taking the k-th command away: only its update stops waiting. */
  lemma WaitingAfterRemoval(s: Sending, k: nat)
    requires GoodCommands(s) && k < |s.outstanding|
    ensures var s1 := s.(outstanding := WithoutAt(s.outstanding, k));
            GoodCommands(s1) && forall u :: Waiting(s1, u) <==> Waiting(s, u) && u != s.outstanding[k].update
  {
    var s1 := s.(outstanding := WithoutAt(s.outstanding, k));
    forall u | Waiting(s, u) && u != s.outstanding[k].update
      ensures Waiting(s1, u)
    {
      var i :| 0 <= i < |s.outstanding| && s.outstanding[i].update == u;
      assert s1.outstanding[if i < k then i else i - 1].update == u;
    }
  }

  lemma AcceptedIsConsistent(s: Sending, k: nat, bf: FaceId, B: seq<FibUpdate>, R: seq<FibUpdate>)
    requires Consistent(s, bf, B, R) && !s.threw && Split(bf, B, R) && k < |s.outstanding|
    ensures Consistent(Responded(s, k, Accepted), bf, B, R)
  {
    var c := s.outstanding[k];
    WaitingAfterRemoval(s, k);
    assert Waiting(s, c.update);
    var s1 := s.(outstanding := WithoutAt(s.outstanding, k), fib := ExecutedBy(s.fib, c),
                 accepted := s.accepted[c.update := c.nTimeouts]);
    OutstandingDecides(s.(outstanding := WithoutAt(s.outstanding, k)), s1);
    hide Accounted, Phased, GoodCommands, Waiting, Without, ExecutedBy, Split;
    if c.update.faceId == bf {
      AcceptedInBatch(s, c.update, c.nTimeouts, s1, bf, B, R);
    } else {
      AcceptedInRest(s, c.update, c.nTimeouts, s1, bf, B, R);
    }
    hide AfterSuccess;
  }

  lemma AcceptedInBatch(s: Sending, u: FibUpdate, nTimeouts: nat, s1: Sending, bf: FaceId, B: seq<FibUpdate>,
                        R: seq<FibUpdate>)
    requires Consistent(s, bf, B, R) && !s.threw && Split(bf, B, R) && Waiting(s, u) && u.faceId == bf
    requires s1 == s.(outstanding := s1.outstanding, fib := s1.fib, accepted := s.accepted[u := nTimeouts])
    requires GoodCommands(s1) && forall v :: Waiting(s1, v) <==> Waiting(s, v) && v != u
    ensures Consistent(AfterSuccess(s1, u), bf, B, R)
  {
    var s2 := s1.(batch := Without(s1.batch, u));
    OutstandingDecides(s1, s2);
    hide GoodCommands, Waiting, NoDuplicates, SentAll;
    assert Accounted(s2, bf, B, R);
    if |s2.batch| == 0 {
      assert forall v :: v in s.batch && v != u ==> v in s2.batch;
      LastIsAlone(s2);
      SentRestIsConsistent(s2, bf, B, R);
    }
  }

  lemma AcceptedInRest(s: Sending, u: FibUpdate, nTimeouts: nat, s1: Sending, bf: FaceId, B: seq<FibUpdate>,
                       R: seq<FibUpdate>)
    requires Consistent(s, bf, B, R) && !s.threw && Split(bf, B, R) && Waiting(s, u) && u.faceId != bf
    requires s1 == s.(outstanding := s1.outstanding, fib := s1.fib, accepted := s.accepted[u := nTimeouts])
    requires GoodCommands(s1) && forall v :: Waiting(s1, v) <==> Waiting(s, v) && v != u
    ensures Consistent(AfterSuccess(s1, u), bf, B, R)
  {
    OutstandingDecides(s1, AfterSuccess(s1, u));
    hide GoodCommands, Waiting, NoDuplicates;
    assert s.batch == [];
    assert Accounted(AfterSuccess(s1, u), bf, B, R);
  }

  lemma LastIsAlone(s: Sending)
    requires forall u :: !Waiting(s, u)
    ensures s.outstanding == []
  {
    if s.outstanding != [] {
      assert Waiting(s, s.outstanding[0].update);
    }
  }

  lemma RefusedIsConsistent(s: Sending, k: nat, code: nat, executed: bool, bf: FaceId, B: seq<FibUpdate>,
                            R: seq<FibUpdate>)
    requires Consistent(s, bf, B, R) && !s.threw && Split(bf, B, R) && k < |s.outstanding|
    ensures Consistent(Responded(s, k, Refused(code, executed)), bf, B, R)
  {
    hide Accounted, Phased, GoodCommands, Without, Split;
    var c := s.outstanding[k];
    var s' := Responded(s, k, Refused(code, executed));
    assert Waiting(s, c.update);
    if code == ERROR_TIMEOUT && c.nTimeouts < MAX_NUM_TIMEOUTS {
      RetryWaits(s, k, s');
      RetryIsConsistent(s, c, s', bf, B, R);
    } else {
      WaitingAfterRemoval(s, k);
      var s0 := s.(outstanding := WithoutAt(s.outstanding, k));
      OutstandingDecides(s0, s');
      if code == ERROR_FACE_NOT_FOUND {
        FaceNotFoundIsConsistent(s, c.update, s', bf, B, R);
      } else {
        ThrowIsConsistent(s, c.update, s', bf, B, R);
      }
    }
  }

  lemma OutstandingDecides(s: Sending, s': Sending)
    requires s'.outstanding == s.outstanding
    ensures GoodCommands(s') == GoodCommands(s) && forall u :: Waiting(s', u) <==> Waiting(s, u)
  {
  }

  lemma RetryIsConsistent(s: Sending, c: Command, s': Sending, bf: FaceId, B: seq<FibUpdate>, R: seq<FibUpdate>)
    requires Consistent(s, bf, B, R) && !s.threw && Waiting(s, c.update) && Split(bf, B, R)
    requires s' == s.(outstanding := s'.outstanding, fib := s'.fib,
                      sent := s.sent + [Command(c.update, true, c.nTimeouts + 1)])
    requires GoodCommands(s') && forall v :: Waiting(s', v) <==> Waiting(s, v)
    ensures Consistent(s', bf, B, R)
  {
    hide GoodCommands, Waiting, NoDuplicates;
    assert Accounted(s', bf, B, R);
  }

  lemma ThrowIsConsistent(s: Sending, u: FibUpdate, s': Sending, bf: FaceId, B: seq<FibUpdate>, R: seq<FibUpdate>)
    requires Consistent(s, bf, B, R)
    requires s' == s.(outstanding := s'.outstanding, fib := s'.fib, threw := true)
    requires GoodCommands(s') && forall v :: Waiting(s', v) <==> Waiting(s, v) && v != u
    ensures Consistent(s', bf, B, R)
  {
    hide GoodCommands, Waiting, NoDuplicates;
    assert Accounted(s', bf, B, R);
  }

  lemma FaceNotFoundIsConsistent(s: Sending, u: FibUpdate, s': Sending, bf: FaceId, B: seq<FibUpdate>,
                                 R: seq<FibUpdate>)
    requires Consistent(s, bf, B, R) && !s.threw && Split(bf, B, R) && Waiting(s, u)
    requires s' == AfterError(s.(outstanding := s'.outstanding, fib := s'.fib), u, ERROR_FACE_NOT_FOUND, 0)
    requires GoodCommands(s') && forall v :: Waiting(s', v) <==> Waiting(s, v) && v != u
    ensures Consistent(s', bf, B, R)
  {
    hide GoodCommands, Waiting, NoDuplicates;
    if u.faceId == bf {
      assert Accounted(s', bf, B, R);
    } else {
      assert s.batch == [];
      assert Accounted(s', bf, B, R);
    }
  }

  lemma RetryWaits(s: Sending, k: nat, s': Sending)
    requires GoodCommands(s) && k < |s.outstanding| && s.outstanding[k].nTimeouts < MAX_NUM_TIMEOUTS
    requires s'.outstanding ==
            WithoutAt(s.outstanding, k) + [Command(s.outstanding[k].update, true, s.outstanding[k].nTimeouts + 1)]
    ensures GoodCommands(s') && forall u :: Waiting(s', u) <==> Waiting(s, u)
  {
    var s0 := s.(outstanding := WithoutAt(s.outstanding, k));
    WaitingAfterRemoval(s, k);
    var n := |s0.outstanding|;
    assert s'.outstanding[n].update == s.outstanding[k].update;
    forall u | Waiting(s0, u)
      ensures Waiting(s', u)
    {
      var i :| 0 <= i < n && s0.outstanding[i].update == u;
      assert s'.outstanding[i].update == u;
    }
    forall u | Waiting(s', u)
      ensures Waiting(s, u)
    {
      var i :| 0 <= i < n + 1 && s'.outstanding[i].update == u;
      if i < n {
        assert s0.outstanding[i].update == u;
      } else {
        assert s.outstanding[k].update == u;
      }
    }
  }

  lemma RespondedIsConsistent(s: Sending, k: nat, r: Response, bf: FaceId, B: seq<FibUpdate>, R: seq<FibUpdate>)
    requires Consistent(s, bf, B, R) && !s.threw && Split(bf, B, R) && k < |s.outstanding|
    ensures Consistent(Responded(s, k, r), bf, B, R)
  {
    match r
    case Accepted => AcceptedIsConsistent(s, k, bf, B, R);
    case Refused(code, executed) => RefusedIsConsistent(s, k, code, executed, bf, B, R);
  }

  /** Every state of every run is consistent. */
  lemma {:induction false} RunIsConsistent(states: seq<Sending>, bf: FaceId, B: seq<FibUpdate>, R: seq<FibUpdate>,
                                           fib: Fib)
    requires Split(bf, B, R) && Run(states, bf, B, R, fib)
    ensures Consistent(states[|states| - 1], bf, B, R)
  {
    var n := |states| - 1;
    if n == 0 {
      StartedIsConsistent(bf, B, R, fib);
    } else {
      assert Run(states[..n], bf, B, R, fib);
      RunIsConsistent(states[..n], bf, B, R, fib);
      assert Answers(states[n - 1], states[n - 1 + 1]);
      var k: nat, r :| k < |states[n - 1].outstanding| && states[n] == Responded(states[n - 1], k, r);
      RespondedIsConsistent(states[n - 1], k, r, bf, B, R);
    }
  }

  /** What a caller may rely on: see RunOutcomes. */
  ghost predicate Outcomes(s: Sending, bf: FaceId, B: seq<FibUpdate>, R: seq<FibUpdate>) {
    && ((exists i :: 0 <= i < |s.sent| && s.sent[i].update.faceId != bf) ==> forall u :: u in B ==> u in s.accepted)
    && s.successes <= 1
    && (s.successes == 1 ==> s.failures == 0 && (forall u :: u in B ==> u in s.accepted)
                             && forall u :: u in R ==> u in s.accepted || u in s.skipped)
    && (s.failures > 0 ==> s.successes == 0)
  }

  lemma ConsistentOutcomes(s: Sending, bf: FaceId, B: seq<FibUpdate>, R: seq<FibUpdate>)
    requires Consistent(s, bf, B, R)
    ensures Outcomes(s, bf, B, R) && (s.outstanding == [] ==> s.successes == 1 || s.failures > 0 || s.threw)
  {
    assert s.outstanding == [] ==> forall u :: !Waiting(s, u);
    assert s.rest != [] ==> s.rest[0] in s.rest;
    if s.outstanding == [] && !s.threw && s.batch != [] {
      assert s.batch[0] in s.refused;
    }
  }

  /**
   What a caller may rely on in any reachable state: commands for other faces only follow the
   acknowledgment of every batch-face update; onSuccess is called at most once, only when every update
   was accepted or (away from the batch's face) refused with code 410, and never together with onFailure;
   and when no command is outstanding one of the three outcomes has been reached.
   */
  lemma RunOutcomes(states: seq<Sending>, bf: FaceId, B: seq<FibUpdate>, R: seq<FibUpdate>, fib: Fib)
    requires Split(bf, B, R) && Run(states, bf, B, R, fib)
    ensures var s := states[|states| - 1];
            && ((exists i :: 0 <= i < |s.sent| && s.sent[i].update.faceId != bf) ==> forall u :: u in B ==>
                u in s.accepted)
            && s.successes <= 1
            && (s.successes == 1 ==> s.failures == 0 && (forall u :: u in B ==> u in s.accepted)
                                     && forall u :: u in R ==> u in s.accepted || u in s.skipped)
            && (s.failures > 0 ==> s.successes == 0)
            && (s.outstanding == [] ==> s.successes == 1 || s.failures > 0 || s.threw)
  {
    RunIsConsistent(states, bf, B, R, fib);
    ConsistentOutcomes(states[|states| - 1], bf, B, R);
  }

  /** onFailure is final: no later state of the run reports success. */
  lemma FailureIsFinal(states: seq<Sending>, i: nat, bf: FaceId, B: seq<FibUpdate>, R: seq<FibUpdate>, fib: Fib)
    requires Split(bf, B, R) && Run(states, bf, B, R, fib)
    requires i < |states| && states[i].failures > 0
    ensures states[|states| - 1].failures > 0 && states[|states| - 1].successes == 0
  {
    hide Run, Split;
    FailureStays(states, i, bf, B, R, fib);
    RunOutcomes(states, bf, B, R, fib);
  }

  lemma {:induction false} FailureStays(states: seq<Sending>, i: nat, bf: FaceId, B: seq<FibUpdate>, R: seq<FibUpdate>,
                                        fib: Fib)
    requires Run(states, bf, B, R, fib) && i < |states| && states[i].failures > 0
    ensures states[|states| - 1].failures > 0
  {
    hide Responded, Split;
    var n := |states| - 1;
    if i < n {
      assert Run(states[..n], bf, B, R, fib);
      FailureStays(states[..n], i, bf, B, R, fib);
      assert Answers(states[n - 1], states[n - 1 + 1]);
      var k: nat, r :| k < |states[n - 1].outstanding| && states[n] == Responded(states[n - 1], k, r);
      FailuresGrow(states[n - 1], k, r);
    }
  }

  lemma FailuresGrow(s: Sending, k: nat, r: Response)
    requires k < |s.outstanding|
    ensures Responded(s, k, r).failures >= s.failures
  {
    RespondedFrame(s, k, r);
  }

  /** What a response does besides moving updates and commands about. */
  lemma RespondedFrame(s: Sending, k: nat, r: Response)
    requires k < |s.outstanding|
    ensures var c := s.outstanding[k];
            var s' := Responded(s, k, r);
            && s'.fib == (if r == Accepted || (r.Refused? && r.code == ERROR_TIMEOUT && r.executed)
                          then ExecutedBy(s.fib, c) else s.fib)
            && s'.accepted == (if r == Accepted then s.accepted[c.update := c.nTimeouts] else s.accepted)
            && s'.failures >= s.failures && s'.successes >= s.successes
  {
    var c := s.outstanding[k];
    var s1 := s.(outstanding := WithoutAt(s.outstanding, k));
    match r
    case Accepted =>
      SuccessFrame(s1.(fib := ExecutedBy(s.fib, c), accepted := s.accepted[c.update := c.nTimeouts]), c.update);
      hide AfterSuccess, ExecutedBy;
    case Refused(code, executed) =>
      var fib' := if code == ERROR_TIMEOUT && executed then ExecutedBy(s.fib, c) else s.fib;
      ErrorFrame(s1.(fib := fib'), c.update, code, c.nTimeouts);
      hide AfterError, ExecutedBy;
  }

  lemma SuccessFrame(s: Sending, u: FibUpdate)
    ensures var s' := AfterSuccess(s, u);
            && s'.fib == s.fib && s'.accepted == s.accepted && s'.failures == s.failures && s'.successes >= s.successes
  {
    SentAllIs(s.(batch := Without(s.batch, u)), s.rest);
    hide Without, SentAll, FirstCommands;
  }

  lemma ErrorFrame(s: Sending, u: FibUpdate, code: nat, nTimeouts: nat)
    ensures var s' := AfterError(s, u, code, nTimeouts);
            && s'.fib == s.fib && s'.accepted == s.accepted && s'.failures >= s.failures && s'.successes >= s.successes
  {
    hide Without;
  }
}
