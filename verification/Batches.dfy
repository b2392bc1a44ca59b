/** One batch from computation over the sending of its commands to the updated RIB (rib/rib.cpp:388-491). */
module Batches {
  import opened Lists
  import opened Wrappers
  import opened Routes
  import opened RibTree
  import opened FibDeltas
  import opened FibUpdates
  import opened EntryUpdates
  import opened FibRefinement
  import opened FibRuns
  import opened FibUpdaters
  import opened Forwarder
  import opened Ribs
  import opened SendProtocol
  import opened SendSafety
  import opened SendEffects

  lemma RecordNamesKnown(l: seq<RibUpdate>, i: nat)
    requires i < |l| && l[i].action != RemoveFace
    ensures LastRecord(l, l[i].name, l[i].route.faceId).Some?
  {
    if i < |l| - 1 {
      RecordNamesKnown(l[..|l| - 1], i);
    }
  }

  lemma NamesKnown(V: RibView, u: RibUpdate, V1: RibView, records: seq<RibUpdate>)
    requires RibAfter(V, u, V1)
    requires forall n, f :: LastRecord(records, n, f) == Delta(V, u, n, f).record
    requires forall i :: 0 <= i < |records| ==> records[i].action != RemoveFace
    ensures forall i :: 0 <= i < |records| ==> records[i].name in V1
  {
    hide LastRecord, Delta, RibAfter;
    forall i | 0 <= i < |records|
      ensures records[i].name in V1
    {
      RecordNamesKnown(records, i);
      RecordedNamesArePresent(V, u, V1, records[i].name, records[i].route.faceId);
    }
  }

  lemma RecordsApplied(V: RibView, u: RibUpdate, V1: RibView, records: seq<RibUpdate>, V2: RibView)
    requires OldRecords(V, V1) && V2.Keys == V1.Keys
    requires forall n, f :: LastRecord(records, n, f) == Delta(V, u, n, f).record
    requires forall m, f :: m in V2 ==>
               (f in V2[m].inherited <==>
                  match LastRecord(records, m, f) case Some(b) => b case None => f in V1[m].inherited)
    ensures forall d, f :: d in V2 ==> (f in V2[d].inherited <==> RecordedAfter(V, u, d, f))
  {
    hide LastRecord, Delta;
  }

  // Lines 433-443.
  method InsertOrErase(rib: Rib, u: RibUpdate)
    requires rib.Valid()
    modifies rib, rib.Repr
    ensures rib.Valid() && fresh(rib.Repr - old(rib.Repr))
    ensures RibAfter(old(rib.View()), u, rib.View()) && OldRecords(old(rib.View()), rib.View())
  {
    hide Rib.View, TreeOk, RibAfter, OldRecords, InsertedData, ErasedData;
    ghost var V := rib.View();
    if u.action == Register {
      rib.Insert(u.name, u.route);
      InsertedIsRibAfter(V, u, rib.View());
    } else {
      rib.Erase(u.name, u.route);
      ErasedIsRibAfter(V, u, rib.View());
    }
  }

  // Rib::onFibUpdateSuccess.
  method OnFibUpdateSuccess(rib: Rib, u: RibUpdate, records: seq<RibUpdate>)
    requires rib.Valid()
    requires forall n, f :: LastRecord(records, n, f) == Delta(rib.View(), u, n, f).record
    requires forall i :: 0 <= i < |records| ==> records[i].action != RemoveFace
    modifies rib, rib.Repr
    ensures rib.Valid() && fresh(rib.Repr - old(rib.Repr))
    ensures RibAfter(old(rib.View()), u, rib.View())
    ensures forall d, f :: d in rib.View() ==>
            (f in rib.View()[d].inherited <==> RecordedAfter(old(rib.View()), u, d, f))
  {
    hide Rib.View, TreeOk, Delta, RibAfter, RecordedAfter, OldRecords, LastRecord;
    ghost var V := rib.View();
    InsertOrErase(rib, u);
    ghost var V1 := rib.View();
    NamesKnown(V, u, V1, records);
    rib.ModifyInheritedRoutes(records);
    RecordsKeepRibAfter(V, u, V1, rib.View());
    RecordsApplied(V, u, V1, records, rib.View());
  }

  // ---- Sending, with responses in any order ----

  /** The next response to arrive: to which of the outstanding commands, counted round, and what it says. */
  datatype Arrival = Arrival(k: nat, response: Response)

  /** Sends an updater's lists and hands it the arrivals until nothing is outstanding, or the exception was thrown. */
  method SendAndAnswer(updater: FibUpdater, fib: Fib, arrivals: seq<Arrival>)
    returns (sender: FibSender, ghost states: seq<Sending>)
    requires updater.Valid()
    ensures fresh(sender) && |states| > 0 && states[|states| - 1] == sender.View()
    ensures SendSafety.Run(states, updater.batchFaceId, updater.updatesForBatchFaceId, updater.updatesForNonBatchFaceId,
                           fib)
  {
    sender := new FibSender(updater.batchFaceId, updater.updatesForBatchFaceId, updater.updatesForNonBatchFaceId, fib);
    states := [sender.View()];
    hide Started, Responded;
    var i := 0;
    while i < |arrivals| && !sender.threw && sender.outstanding != []
      invariant 0 <= i <= |arrivals| && |states| > 0 && states[|states| - 1] == sender.View()
      invariant SendSafety.Run(states, updater.batchFaceId, updater.updatesForBatchFaceId,
                               updater.updatesForNonBatchFaceId, fib)
    {
      var k := arrivals[i].k % |sender.outstanding|;
      ghost var s := sender.View();
      sender.Respond(k, arrivals[i].response);
      assert Answers(s, Responded(s, k, arrivals[i].response));
      states := states + [sender.View()];
      i := i + 1;
    }
  }

  /** Nothing was refused and nothing timed out so far. */
  ghost predicate AllAccepted(s: Sending) {
    && !s.threw && s.failures == 0 && s.skipped == {}
    && (forall i :: 0 <= i < |s.outstanding| ==> s.outstanding[i].nTimeouts == 0)
    && (forall u :: u in s.accepted ==> s.accepted[u] == 0)
  }

  lemma StartedAccepted(bf: FaceId, B: seq<FibUpdate>, R: seq<FibUpdate>, fib: Fib)
    ensures AllAccepted(Started(bf, B, R, fib))
  {
    var s := Sending(bf, B, R, [], fib, 0, 0, false, [], map[], {}, {});
    SentAllIs(s, B);
    SentAllIs(s, R);
    hide SentAll;
  }

  lemma StaysAccepted(s: Sending, k: nat)
    requires AllAccepted(s) && k < |s.outstanding|
    ensures AllAccepted(Responded(s, k, Accepted))
  {
    var c := s.outstanding[k];
    var s1 := s.(outstanding := WithoutAt(s.outstanding, k), fib := ExecutedBy(s.fib, c),
                 accepted := s.accepted[c.update := c.nTimeouts]);
    assert AllAccepted(s1);
    hide AllAccepted, AfterSuccess, ExecutedBy;
    SuccessStaysAccepted(s1, c.update);
  }

  lemma SuccessStaysAccepted(s: Sending, u: FibUpdate)
    requires AllAccepted(s)
    ensures AllAccepted(AfterSuccess(s, u))
  {
    var s1 := s.(batch := Without(s.batch, u));
    SentAllIs(s1, s.rest);
    hide SentAll, Without;
  }

  /** When the forwarder accepts every command, the sending ends in success. */
  method SendAccepted(updater: FibUpdater, fib: Fib) returns (sender: FibSender, ghost states: seq<Sending>)
    requires updater.Valid()
    ensures fresh(sender) && |states| > 0 && states[|states| - 1] == sender.View()
    ensures SendSafety.Run(states, updater.batchFaceId, updater.updatesForBatchFaceId, updater.updatesForNonBatchFaceId,
                           fib)
    ensures sender.successes == 1 && sender.skipped == {} && NoRemoveTimedOut(sender.View())
  {
    ghost var bf, B, R := updater.batchFaceId, updater.updatesForBatchFaceId, updater.updatesForNonBatchFaceId;
    UpdaterListsAreSplit(updater);
    sender := new FibSender(updater.batchFaceId, updater.updatesForBatchFaceId, updater.updatesForNonBatchFaceId, fib);
    states := [sender.View()];
    StartedAccepted(bf, B, R, fib);
    hide Started, Responded, Consistent, Split, Measure;
    while sender.outstanding != []
      invariant |states| > 0 && states[|states| - 1] == sender.View() && AllAccepted(sender.View())
      invariant SendSafety.Run(states, bf, B, R, fib)
      decreases (MAX_NUM_TIMEOUTS + 1) * (|B| + |R|) - |states|
    {
      ghost var s := sender.View();
      StaysAccepted(s, 0);
      sender.Respond(0, Accepted);
      assert Answers(s, Responded(s, 0, Accepted));
      states := states + [sender.View()];
      RunIsShort(states, bf, B, R, fib);
    }
    RunOutcomes(states, bf, B, R, fib);
  }

  ghost predicate NoRemoveTimedOut(s: Sending) {
    forall u :: u in s.accepted && u.action == RemoveNextHop ==> s.accepted[u] == 0
  }

  /** What the computation left in the updater's lists for u. */
  ghost predicate Computed(updater: FibUpdater, V: RibView, u: RibUpdate)
    reads updater
  {
    updater.Valid() && forall n, f :: updater.SlotAt(n, f) == Delta(V, u, n, f)
  }

  /** The RIB side of a step. */
  ghost predicate RibStep(V: RibView, u: RibUpdate, V': RibView) {
    && !Crashes(V, u) && TreeOk(V') && RibAfter(V, u, V')
    && forall d, f :: d in V' ==> (f in V'[d].inherited <==> RecordedAfter(V, u, d, f))
  }

  /**
   A run that reports success with nothing skipped is, together with the change of the RIB that follows, a step of
   the refinement if and only if no remove command timed out.
   */
  lemma SuccessIsStep(updater: FibUpdater, V: RibView, fib: Fib, u: RibUpdate, states: seq<Sending>, V': RibView)
    requires Computed(updater, V, u) && RibStep(V, u, V')
    requires SendSafety.Run(states, updater.batchFaceId, updater.updatesForBatchFaceId,
                            updater.updatesForNonBatchFaceId, fib)
    requires states[|states| - 1].successes == 1 && states[|states| - 1].skipped == {}
    ensures Acknowledged(State(V, fib), u, State(V', states[|states| - 1].fib)) <==>
            NoRemoveTimedOut(states[|states| - 1])
  {
    var s := states[|states| - 1];
    hide RibStep, RibAfter, RecordedAfter, TreeOk, Crashes, SendSafety.Run;
    var B, R := updater.updatesForBatchFaceId, updater.updatesForNonBatchFaceId;
    UpdaterListsAreSplit(updater);
    SuccessIsExact(states, updater.batchFaceId, B, R, fib);
    var want := FibAfter(FibAfter(fib, B), R);
    forall n, f
      ensures Lookup(want, n, f) == Applied(Lookup(fib, n, f), Delta(V, u, n, f).pending)
    {
      SlotsDescribeFib(updater, fib, n, f);
    }
    StepMeansLookups(V, fib, u, V', s.fib, want);
  }

  /**
   Success with updates skipped: at every name and face that no skipped update is for, the FIB has what a step would
   leave if and only if no remove command for them timed out.
   */
  lemma SuccessIsStepAt(updater: FibUpdater, V: RibView, fib: Fib, u: RibUpdate, states: seq<Sending>, n: Name,
                        f: FaceId)
    requires Computed(updater, V, u)
    requires SendSafety.Run(states, updater.batchFaceId, updater.updatesForBatchFaceId,
                            updater.updatesForNonBatchFaceId, fib)
    requires states[|states| - 1].successes == 1 && forall x :: x in states[|states| - 1].skipped ==> !Targets(x, n, f)
    ensures var s := states[|states| - 1];
            Lookup(s.fib, n, f) == Applied(Lookup(fib, n, f), Delta(V, u, n, f).pending) <==> RemovedInTime(s, n, f)
  {
    hide Delta, SendSafety.Run, Lookup;
    UpdaterListsAreSplit(updater);
    SuccessIsExactAt(states, updater.batchFaceId, updater.updatesForBatchFaceId, updater.updatesForNonBatchFaceId, fib,
                     n, f);
    SlotsDescribeFib(updater, fib, n, f);
  }

  lemma StepMeansLookups(V: RibView, fib: Fib, u: RibUpdate, V': RibView, fib': Fib, want: Fib)
    requires RibStep(V, u, V')
    requires forall n, f :: Lookup(want, n, f) == Applied(Lookup(fib, n, f), Delta(V, u, n, f).pending)
    ensures Acknowledged(State(V, fib), u, State(V', fib')) <==> fib' == want
  {
    hide RibAfter, RecordedAfter, TreeOk, Crashes, Delta;
    if Acknowledged(State(V, fib), u, State(V', fib')) {
      SameLookups(fib', want);
    }
  }

  /**
   A batch whose commands were all carried out as asked leaves FIB and inherited records right if and only if its
   update was harmless, and a state for which that can be said of the next update too if it also left the capture
   flag of an existing route alone.
   */
  lemma SuccessIsExactlyHarmless(updater: FibUpdater, s: State, u: RibUpdate, states: seq<Sending>, V': RibView)
    requires Inv(s) && Computed(updater, s.rib, u) && RibStep(s.rib, u, V') && u.action != RemoveFace
    requires SendSafety.Run(states, updater.batchFaceId, updater.updatesForBatchFaceId,
                            updater.updatesForNonBatchFaceId, s.fib)
    requires states[|states| - 1].successes == 1 && states[|states| - 1].skipped == {}
            && NoRemoveTimedOut(states[|states| - 1])
    ensures Exact(State(V', states[|states| - 1].fib)) <==> Harmless(s.rib, u)
    ensures Inv(State(V', states[|states| - 1].fib)) <==> Harmless(s.rib, u) && !TogglesCapture(s.rib, u)
  {
    SuccessIsStep(updater, s.rib, s.fib, u, states, V');
    StepIsExactlyHarmless(s, u, State(V', states[|states| - 1].fib));
    StepKeepsInvExactly(s, u, State(V', states[|states| - 1].fib));
  }

  lemma RecordOfSlot(updater: FibUpdater, n: Name, f: FaceId)
    ensures updater.SlotAt(n, f).record == LastRecord(updater.inheritedRoutes, n, f)
  {
  }

  /** Rib::onFibUpdateSuccess with the updater's own records. */
  method ChangeRib(rib: Rib, updater: FibUpdater, u: RibUpdate)
    requires rib.Valid() && Computed(updater, rib.View(), u) && !Crashes(rib.View(), u)
    modifies rib, rib.Repr
    ensures rib.Valid() && fresh(rib.Repr - old(rib.Repr))
    ensures RibStep(old(rib.View()), u, rib.View())
  {
    hide Rib.View, TreeOk, Delta, Crashes, RibAfter, FibUpdater.SlotAt;
    forall n, f {
      RecordOfSlot(updater, n, f);
    }
    OnFibUpdateSuccess(rib, u, updater.inheritedRoutes);
  }

  // ---- The whole batch ----

  datatype Outcome = Crashed | Succeeded | Unfinished

  /**
   Rib::sendBatchFromQueue with one update, up to and including Rib::onFibUpdateSuccess if it is called. The outcome
   is Crashed where the source would dereference a null pointer, Unfinished where success is not reported.
   */
  method ApplyUpdate(rib: Rib, updater: FibUpdater, fib: Fib, u: RibUpdate, arrivals: seq<Arrival>)
    returns (outcome: Outcome, fib': Fib, ghost last: Option<Sending>)
    requires rib.Valid()
    modifies rib, rib.Repr, updater
    ensures rib.Valid() && fresh(rib.Repr - old(rib.Repr))
    ensures outcome.Crashed? <==> Crashes(old(rib.View()), u)
    ensures !outcome.Succeeded? ==> rib.View() == old(rib.View())
    ensures outcome.Succeeded? ==> RibStep(old(rib.View()), u, rib.View())
    ensures if outcome.Crashed? then last == None && fib' == fib else last.Some? && fib' == last.value.fib
    ensures outcome.Succeeded? <==> last.Some? && last.value.successes == 1
    ensures outcome.Succeeded? ==>
              forall n, f :: (forall x :: x in last.value.skipped ==> !Targets(x, n, f)) ==>
                (Lookup(fib', n, f) == Applied(Lookup(fib, n, f), Delta(old(rib.View()), u, n, f).pending)
                 <==> RemovedInTime(last.value, n, f))
    ensures outcome.Succeeded? && last.value.skipped == {} ==>
              (Acknowledged(State(old(rib.View()), fib), u, State(rib.View(), fib')) <==> NoRemoveTimedOut(last.value))
  {
    hide Rib.View, TreeOk, Delta, Crashes, RibAfter, RecordedAfter, SendSafety.Run, NoRemoveTimedOut, RibStep,
        FibUpdater.SlotAt, Lookup, RemovedInTime;
    ghost var V := rib.View();
    var ok := updater.ComputeUpdates(rib.View(), u);
    last := None;
    if !ok {
      return Crashed, fib, None;
    }
    var sender, states := SendAndAnswer(updater, fib, arrivals);
    fib' := sender.fib;
    last := Some(sender.View());
    outcome := Unfinished;
    if sender.successes == 1 {
      outcome := Succeeded;
      forall n, f | forall x :: x in sender.skipped ==> !Targets(x, n, f) {
        SuccessIsStepAt(updater, V, fib, u, states, n, f);
      }
      ChangeRib(rib, updater, u);
      if sender.skipped == {} {
        SuccessIsStep(updater, V, fib, u, states, rib.View());
      }
    }
  }

  /**
   The same with a forwarder that accepts every command: a step of the refinement, for any update that does not crash.
   */
  method ApplyAcknowledged(rib: Rib, updater: FibUpdater, fib: Fib, u: RibUpdate) returns (ok: bool, fib': Fib)
    requires rib.Valid()
    modifies rib, rib.Repr, updater
    ensures rib.Valid() && fresh(rib.Repr - old(rib.Repr))
    ensures ok <==> !Crashes(old(rib.View()), u)
    ensures !ok ==> rib.View() == old(rib.View()) && fib' == fib
    ensures ok ==> Acknowledged(State(old(rib.View()), fib), u, State(rib.View(), fib'))
  {
    hide Rib.View, TreeOk, Delta, Crashes, Acknowledged, SendSafety.Run, NoRemoveTimedOut, RibStep, FibUpdater.SlotAt;
    ghost var V := rib.View();
    ok := updater.ComputeUpdates(rib.View(), u);
    fib' := fib;
    if ok {
      var sender, states := SendAccepted(updater, fib);
      fib' := sender.fib;
      ChangeRib(rib, updater, u);
      SuccessIsStep(updater, V, fib, u, states, rib.View());
    }
  }

  /**
   Batch after batch from a new RIB, each acknowledged, up to the first update that crashes if there is one: a run of
   the refinement.
   */
  method ApplyAll(updates: seq<RibUpdate>) returns (rib: Rib, fib: Fib, k: nat, ghost states: seq<State>)
    requires forall u :: u in updates ==> u.action != RemoveFace
    ensures fresh(rib) && rib.Valid() && k <= |updates|
    ensures FibRuns.Run(states, updates[..k]) && states[0] == EMPTY_STATE && states[k] == State(rib.View(), fib)
    ensures k < |updates| ==> Crashes(rib.View(), updates[k])
  {
    hide Rib.View, TreeOk, Crashes, Acknowledged;
    rib := new Rib();
    var updater := new FibUpdater();
    fib, k := map[], 0;
    states := [State(rib.View(), fib)];
    while k < |updates|
      invariant fresh(rib) && fresh(updater) && rib.Valid() && fresh(rib.Repr) && k <= |updates|
      invariant FibRuns.Run(states, updates[..k]) && states[0] == EMPTY_STATE && states[k] == State(rib.View(), fib)
    {
      var ok, fib' := ApplyAcknowledged(rib, updater, fib, updates[k]);
      if !ok {
        return;
      }
      fib := fib';
      LongerRun(states, updates[..k], updates[k], State(rib.View(), fib));
      assert updates[..k + 1] == updates[..k] + [updates[k]];
      states := states + [State(rib.View(), fib)];
      k := k + 1;
    }
  }

  ghost predicate OldRecords(V: RibView, V': RibView) {
    forall m :: m in V' ==> V'[m].inherited == if m in V then V[m].inherited else {}
  }

  lemma InsertedIsRibAfter(V: RibView, u: RibUpdate, V': RibView)
    requires u.action == Register && InsertedData(V, u.name, u.route, V')
    ensures RibAfter(V, u, V') && OldRecords(V, V')
  {
  }

  lemma ErasedIsRibAfter(V: RibView, u: RibUpdate, V': RibView)
    requires u.action != Register && ErasedData(V, u.name, u.route, V')
    ensures RibAfter(V, u, V') && OldRecords(V, V')
  {
  }

  lemma RecordsKeepRibAfter(V: RibView, u: RibUpdate, V1: RibView, V2: RibView)
    requires RibAfter(V, u, V1) && V2.Keys == V1.Keys
    requires forall m :: m in V2 ==> V2[m].routes == V1[m].routes && V2[m].nCapture == V1[m].nCapture
    ensures RibAfter(V, u, V2)
  {
  }
}
