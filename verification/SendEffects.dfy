/** How many commands a run sends, that it ends, and what it leaves in the forwarder's FIB. */
module SendEffects {
  import opened Lists
  import opened Wrappers
  import opened Routes
  import opened FibUpdates
  import opened FibRefinement
  import opened Forwarder
  import opened SendProtocol
  import opened SendSafety
  import opened FibUpdaters

  // ---- Termination ----

  /** Responses the outstanding commands and their retries can still get. */
  function Budget(cs: seq<Command>): int {
    if |cs| == 0 then 0 else Budget(cs[..|cs| - 1]) + (MAX_NUM_TIMEOUTS + 1 - cs[|cs| - 1].nTimeouts)
  }

  function Measure(s: Sending): int {
    Budget(s.outstanding) + if s.batch != [] then (MAX_NUM_TIMEOUTS + 1) * |s.rest| else 0
  }

  lemma BudgetAppended(cs: seq<Command>, c: Command)
    ensures Budget(cs + [c]) == Budget(cs) + (MAX_NUM_TIMEOUTS + 1 - c.nTimeouts)
  {
    assert (cs + [c])[..|cs|] == cs;
  }

  lemma {:induction false} BudgetWithoutAt(cs: seq<Command>, k: nat)
    requires k < |cs|
    ensures Budget(WithoutAt(cs, k)) == Budget(cs) - (MAX_NUM_TIMEOUTS + 1 - cs[k].nTimeouts)
  {
    var n := |cs| - 1;
    if k == n {
      assert WithoutAt(cs, k) == cs[..n];
    } else {
      BudgetWithoutAt(cs[..n], k);
      assert WithoutAt(cs, k) == WithoutAt(cs[..n], k) + [cs[n]];
      BudgetAppended(WithoutAt(cs[..n], k), cs[n]);
    }
  }

  lemma {:induction false} BudgetOfFirst(l: seq<FibUpdate>)
    ensures Budget(FirstCommands(l)) == (MAX_NUM_TIMEOUTS + 1) * |l|
  {
    if |l| > 0 {
      BudgetOfFirst(l[..|l| - 1]);
      BudgetAppended(FirstCommands(l[..|l| - 1]), FirstCommand(l[|l| - 1]));
    }
  }

  lemma {:induction false} BudgetPositive(cs: seq<Command>)
    requires forall i :: 0 <= i < |cs| ==> cs[i].nTimeouts <= MAX_NUM_TIMEOUTS
    ensures Budget(cs) >= |cs|
  {
    if |cs| > 0 {
      BudgetPositive(cs[..|cs| - 1]);
    }
  }

  lemma MeasureOfRest(s: Sending)
    requires s.outstanding == [] && s.batch == []
    ensures Measure(SentRest(s)) == (MAX_NUM_TIMEOUTS + 1) * |s.rest|
  {
    SentAllIs(s, s.rest);
    assert [] + FirstCommands(s.rest) == FirstCommands(s.rest);
    BudgetOfFirst(s.rest);
  }

  /** Every response brings the end of the run closer. */
  lemma ResponseDecreases(s: Sending, k: nat, r: Response, bf: FaceId, B: seq<FibUpdate>, R: seq<FibUpdate>)
    requires Consistent(s, bf, B, R) && !s.threw && Split(bf, B, R) && k < |s.outstanding|
    ensures Measure(Responded(s, k, r)) < Measure(s)
  {
    hide Responded, Accounted, Without, Split, Measure;
    var c := s.outstanding[k];
    assert c.nTimeouts <= MAX_NUM_TIMEOUTS;
    assert Waiting(s, c.update);
    if LastOfBatch(s, k, r) {
      BatchShrinksToNothing(s, c.update, bf, B, R);
      OnlyOneWaits(s, k);
      LastBatchMeasure(s, k);
    } else if Retries(s, k, r) {
      RetryMeasure(s, k, r);
    } else {
      ShrunkFrame(s, k, r);
      OutstandingShrinks(s, k, Responded(s, k, r));
    }
  }

  predicate LastOfBatch(s: Sending, k: nat, r: Response)
    requires k < |s.outstanding|
  {
    r == Accepted && s.outstanding[k].update.faceId == s.batchFaceId && Without(s.batch, s.outstanding[k].update) == []
  }

  predicate Retries(s: Sending, k: nat, r: Response)
    requires k < |s.outstanding|
  {
    r.Refused? && r.code == ERROR_TIMEOUT && s.outstanding[k].nTimeouts < MAX_NUM_TIMEOUTS
  }

  lemma BatchShrinksToNothing(s: Sending, u: FibUpdate, bf: FaceId, B: seq<FibUpdate>, R: seq<FibUpdate>)
    requires Consistent(s, bf, B, R) && Split(bf, B, R) && Waiting(s, u) && u.faceId == s.batchFaceId
            && Without(s.batch, u) == []
    ensures s.batch != [] && forall v :: Waiting(s, v) ==> v == u
  {
    assert forall v :: v in s.batch && v != u ==> v in Without(s.batch, u);
  }

  lemma RetryMeasure(s: Sending, k: nat, r: Response)
    requires k < |s.outstanding| && Retries(s, k, r)
    ensures Measure(Responded(s, k, r)) < Measure(s)
  {
    var c := s.outstanding[k];
    BudgetWithoutAt(s.outstanding, k);
    BudgetAppended(WithoutAt(s.outstanding, k), Command(c.update, true, c.nTimeouts + 1));
  }

  lemma ShrunkFrame(s: Sending, k: nat, r: Response)
    requires k < |s.outstanding| && !LastOfBatch(s, k, r) && !Retries(s, k, r)
    ensures var s' := Responded(s, k, r);
            && s'.outstanding == WithoutAt(s.outstanding, k)
            && (s'.batch != [] ==> s.batch != []) && |s'.rest| <= |s.rest|
  {
  }

  lemma OutstandingShrinks(s: Sending, k: nat, s': Sending)
    requires k < |s.outstanding| && s.outstanding[k].nTimeouts <= MAX_NUM_TIMEOUTS
    requires s'.outstanding == WithoutAt(s.outstanding, k)
    requires (s'.batch != [] ==> s.batch != []) && |s'.rest| <= |s.rest|
    ensures Measure(s') < Measure(s)
  {
    BudgetWithoutAt(s.outstanding, k);
  }

  lemma LastBatchMeasure(s: Sending, k: nat)
    requires k < |s.outstanding| && s.outstanding[k].nTimeouts <= MAX_NUM_TIMEOUTS && WithoutAt(s.outstanding, k) == []
    requires s.batch != [] && LastOfBatch(s, k, Accepted)
    ensures Measure(Responded(s, k, Accepted)) < Measure(s)
  {
    var c := s.outstanding[k];
    BudgetWithoutAt(s.outstanding, k);
    MeasureOfRest(s.(outstanding := [], fib := ExecutedBy(s.fib, c), accepted := s.accepted[c.update := c.nTimeouts],
                     batch := []));
  }

  lemma OnlyOneWaits(s: Sending, k: nat)
    requires GoodCommands(s) && k < |s.outstanding|
    requires forall u :: Waiting(s, u) ==> u == s.outstanding[k].update
    ensures WithoutAt(s.outstanding, k) == []
  {
    WaitingAfterRemoval(s, k);
    LastIsAlone(s.(outstanding := WithoutAt(s.outstanding, k)));
  }

  lemma StartedMeasure(bf: FaceId, B: seq<FibUpdate>, R: seq<FibUpdate>, fib: Fib)
    ensures Measure(Started(bf, B, R, fib)) == (MAX_NUM_TIMEOUTS + 1) * (|B| + |R|)
  {
    var s := Sending(bf, B, R, [], fib, 0, 0, false, [], map[], {}, {});
    if |B| > 0 {
      SentAllIs(s, B);
      assert [] + FirstCommands(B) == FirstCommands(B);
      BudgetOfFirst(B);
    } else {
      MeasureOfRest(s);
    }
  }

  lemma MeasureNotNegative(s: Sending)
    requires GoodCommands(s)
    ensures Measure(s) >= 0
  {
    BudgetPositive(s.outstanding);
  }

  /** A run takes at most eleven responses for each pending update. */
  lemma {:induction false} RunIsShort(states: seq<Sending>, bf: FaceId, B: seq<FibUpdate>, R: seq<FibUpdate>, fib: Fib)
    requires Split(bf, B, R) && Run(states, bf, B, R, fib)
    ensures |states| - 1 + Measure(states[|states| - 1]) <= (MAX_NUM_TIMEOUTS + 1) * (|B| + |R|)
    ensures |states| - 1 <= 11 * (|B| + |R|)
  {
    hide Accounted, Phased, GoodCommands, Measure, Responded, Started, Split;
    var n := |states| - 1;
    RunIsConsistent(states, bf, B, R, fib);
    MeasureNotNegative(states[n]);
    if n == 0 {
      StartedMeasure(bf, B, R, fib);
    } else {
      assert Run(states[..n], bf, B, R, fib);
      RunIsShort(states[..n], bf, B, R, fib);
      RunIsConsistent(states[..n], bf, B, R, fib);
      assert Answers(states[n - 1], states[n - 1 + 1]);
      var k: nat, r :| k < |states[n - 1].outstanding| && states[n] == Responded(states[n - 1], k, r);
      ResponseDecreases(states[n - 1], k, r, bf, B, R);
    }
  }

  // ---- Commands for one update ----

  function CountFor(cs: seq<Command>, u: FibUpdate): nat {
    if |cs| == 0 then 0 else CountFor(cs[..|cs| - 1], u) + if cs[|cs| - 1].update == u then 1 else 0
  }

  lemma {:induction false} CountForConcat(a: seq<Command>, b: seq<Command>, u: FibUpdate)
    ensures CountFor(a + b, u) == CountFor(a, u) + CountFor(b, u)
  {
    if b == [] {
      assert a + b == a;
    } else {
      assert (a + b)[..|a + b| - 1] == a + b[..|b| - 1];
      CountForConcat(a, b[..|b| - 1], u);
    }
  }

  lemma {:induction false} CountForAbsent(cs: seq<Command>, u: FibUpdate)
    requires forall i :: 0 <= i < |cs| ==> cs[i].update != u
    ensures CountFor(cs, u) == 0
  {
    if |cs| > 0 {
      CountForAbsent(cs[..|cs| - 1], u);
    }
  }

  lemma {:induction false} CountForFirst(l: seq<FibUpdate>, u: FibUpdate)
    requires NoDuplicates(l)
    ensures CountFor(FirstCommands(l), u) == if u in l then 1 else 0
  {
    if |l| > 0 {
      var n := |l| - 1;
      CountForFirst(l[..n], u);
      CountForAppended(FirstCommands(l[..n]), FirstCommand(l[n]), u);
      FreshLast(l, u);
      hide CountFor, NoDuplicates;
    }
  }

  lemma CountForAppended(cs: seq<Command>, c: Command, u: FibUpdate)
    ensures CountFor(cs + [c], u) == CountFor(cs, u) + if c.update == u then 1 else 0
  {
    assert (cs + [c])[..|cs|] == cs;
  }

  lemma FreshLast(l: seq<FibUpdate>, u: FibUpdate)
    requires NoDuplicates(l) && |l| > 0
    ensures var n := |l| - 1; l[n] !in l[..n] && (u in l <==> u in l[..n] || u == l[n])
  {
    assert l == l[..|l| - 1] + [l[|l| - 1]];
  }

  ghost predicate Counted(s: Sending) {
    && (forall u :: CountFor(s.sent, u) <= MAX_NUM_TIMEOUTS + 1)
    && (forall i :: 0 <= i < |s.outstanding| ==>
        CountFor(s.sent, s.outstanding[i].update) == s.outstanding[i].nTimeouts + 1)
  }

  /** Sending a list none of whose updates was sent before. */
  lemma SentAllCounted(s: Sending, l: seq<FibUpdate>)
    requires NoDuplicates(l) && s.outstanding == [] && (forall u :: CountFor(s.sent, u) <= MAX_NUM_TIMEOUTS + 1)
    requires forall u :: u in l ==> CountFor(s.sent, u) == 0
    ensures Counted(SentAll(s, l))
  {
    SentAllIs(s, l);
    forall u
      ensures CountFor(SentAll(s, l).sent, u) == CountFor(s.sent, u) + if u in l then 1 else 0
    {
      CountForConcat(s.sent, FirstCommands(l), u);
      CountForFirst(l, u);
    }
  }

  lemma RespondedCounted(s: Sending, k: nat, r: Response, bf: FaceId, B: seq<FibUpdate>, R: seq<FibUpdate>)
    requires Consistent(s, bf, B, R) && !s.threw && Split(bf, B, R) && k < |s.outstanding| && Counted(s)
    ensures Counted(Responded(s, k, r))
  {
    var c := s.outstanding[k];
    var s' := Responded(s, k, r);
    assert Waiting(s, c.update);
    if r == Accepted && c.update.faceId == bf && Without(s.batch, c.update) == [] && s.rest != [] {
      BatchDoneCounted(s, k, bf, B, R);
    } else if r.Refused? && r.code == ERROR_TIMEOUT && c.nTimeouts < MAX_NUM_TIMEOUTS {
      RetryCounted(s, k, s');
    } else {
      assert s'.sent == s.sent && s'.outstanding == WithoutAt(s.outstanding, k);
    }
  }

  lemma BatchDoneCounted(s: Sending, k: nat, bf: FaceId, B: seq<FibUpdate>, R: seq<FibUpdate>)
    requires Consistent(s, bf, B, R) && !s.threw && Split(bf, B, R) && k < |s.outstanding| && Counted(s)
    requires var c := s.outstanding[k];
             c.update.faceId == bf && Without(s.batch, c.update) == [] && s.rest != []
    ensures Counted(Responded(s, k, Accepted))
  {
    var c := s.outstanding[k];
    assert Waiting(s, c.update);
    assert forall u :: Waiting(s, u) ==> u == c.update;
    OnlyOneWaits(s, k);
    forall u | u in s.rest
      ensures CountFor(s.sent, u) == 0
    {
      CountForAbsent(s.sent, u);
    }
    SentAllCounted(s.(outstanding := [], fib := ExecutedBy(s.fib, c), accepted := s.accepted[c.update := c.nTimeouts],
                      batch := []), s.rest);
  }

  lemma RetryCounted(s: Sending, k: nat, s': Sending)
    requires GoodCommands(s) && Counted(s) && k < |s.outstanding| && s.outstanding[k].nTimeouts < MAX_NUM_TIMEOUTS
    requires var retry := Command(s.outstanding[k].update, true, s.outstanding[k].nTimeouts + 1);
             s'.sent == s.sent + [retry] && s'.outstanding == WithoutAt(s.outstanding, k) + [retry]
    ensures Counted(s')
  {
    var c := s.outstanding[k];
    forall u
      ensures CountFor(s'.sent, u) == CountFor(s.sent, u) + if u == c.update then 1 else 0
    {
      CountForAppended(s.sent, Command(c.update, true, c.nTimeouts + 1), u);
    }
  }

  /** No update causes more than eleven commands. */
  lemma {:induction false} RunIsCounted(states: seq<Sending>, bf: FaceId, B: seq<FibUpdate>, R: seq<FibUpdate>,
                                        fib: Fib)
    requires Split(bf, B, R) && Run(states, bf, B, R, fib)
    ensures Counted(states[|states| - 1])
    ensures var sent := states[|states| - 1].sent; forall u :: CountFor(sent, u) <= 11
  {
    var n := |states| - 1;
    if n == 0 {
      var s := Sending(bf, B, R, [], fib, 0, 0, false, [], map[], {}, {});
      DistinctIsNoDuplicates(B);
      DistinctIsNoDuplicates(R);
      SentAllCounted(s, B);
      SentAllCounted(s, R);
    } else {
      assert Run(states[..n], bf, B, R, fib);
      RunIsCounted(states[..n], bf, B, R, fib);
      RunIsConsistent(states[..n], bf, B, R, fib);
      assert Answers(states[n - 1], states[n - 1 + 1]);
      var k: nat, r :| k < |states[n - 1].outstanding| && states[n] == Responded(states[n - 1], k, r);
      RespondedCounted(states[n - 1], k, r, bf, B, R);
    }
  }

  // ---- The forwarder's FIB ----

  /** The next hop an accepted command leaves: a remove that timed out once was retried as an add of cost 0. */
  function Outcome(u: FibUpdate, nTimeouts: nat): Option<nat> {
    if u.action == AddNextHop || nTimeouts > 0 then Some(u.cost) else None
  }

  ghost predicate Targets(u: FibUpdate, n: Name, f: FaceId) {
    u.name == n && u.faceId == f
  }

  ghost predicate FibTracks(s: Sending, B: seq<FibUpdate>, R: seq<FibUpdate>, fib: Fib) {
    && (forall u :: u in s.accepted ==> Lookup(s.fib, u.name, u.faceId) == Outcome(u, s.accepted[u]))
    && (forall n, f :: (forall u :: u in B + R ==> !Targets(u, n, f)) ==> Lookup(s.fib, n, f) == Lookup(fib, n, f))
  }

  lemma TargetsApart(B: seq<FibUpdate>, R: seq<FibUpdate>, bf: FaceId, u: FibUpdate, v: FibUpdate)
    requires Split(bf, B, R) && u in B + R && v in B + R && SameTarget(u, v)
    ensures u == v
  {
  }

  lemma ExecutedByAt(fib: Fib, c: Command)
    ensures forall n, f :: Lookup(ExecutedBy(fib, c), n, f) ==
              if Targets(c.update, n, f) then (if c.adds then Some(c.update.cost) else None) else Lookup(fib, n, f)
  {
  }

  lemma RespondedTracks(s: Sending, k: nat, r: Response, bf: FaceId, B: seq<FibUpdate>, R: seq<FibUpdate>, fib: Fib)
    requires Consistent(s, bf, B, R) && !s.threw && Split(bf, B, R) && k < |s.outstanding| && FibTracks(s, B, R, fib)
    ensures FibTracks(Responded(s, k, r), B, R, fib)
  {
    hide Responded, ExecutedBy, Lookup;
    var c := s.outstanding[k];
    var s' := Responded(s, k, r);
    assert Waiting(s, c.update);
    assert c.update in B + R && c.update !in s.accepted;
    RespondedFrame(s, k, r);
    ExecutedByAt(s.fib, c);
    forall u | u in s.accepted
      ensures Lookup(s'.fib, u.name, u.faceId) == Lookup(s.fib, u.name, u.faceId)
    {
      assert u in B + R;
      if SameTarget(u, c.update) {
        TargetsApart(B, R, bf, u, c.update);
      }
    }
    forall n, f | forall u :: u in B + R ==> !Targets(u, n, f)
      ensures Lookup(s'.fib, n, f) == Lookup(s.fib, n, f)
    {
      assert !Targets(c.update, n, f);
    }
  }

  lemma {:induction false} RunTracks(states: seq<Sending>, bf: FaceId, B: seq<FibUpdate>, R: seq<FibUpdate>, fib: Fib)
    requires Split(bf, B, R) && Run(states, bf, B, R, fib)
    ensures FibTracks(states[|states| - 1], B, R, fib)
  {
    var n := |states| - 1;
    if n == 0 {
      var s := Sending(bf, B, R, [], fib, 0, 0, false, [], map[], {}, {});
      SentAllIs(s, B);
      SentAllIs(s, R);
    } else {
      assert Run(states[..n], bf, B, R, fib);
      RunTracks(states[..n], bf, B, R, fib);
      RunIsConsistent(states[..n], bf, B, R, fib);
      assert Answers(states[n - 1], states[n - 1 + 1]);
      var k: nat, r :| k < |states[n - 1].outstanding| && states[n] == Responded(states[n - 1], k, r);
      RespondedTracks(states[n - 1], k, r, bf, B, R, fib);
    }
  }

  /** No remove command for (n, f) timed out before it was accepted. */
  ghost predicate RemovedInTime(s: Sending, n: Name, f: FaceId) {
    forall u :: u in s.accepted && Targets(u, n, f) && u.action == RemoveNextHop ==> s.accepted[u] == 0
  }

  /**
   A run that reports success leaves, at every name and face for which no update was skipped, the next hop the pending
   lists call for if and only if no remove command for it timed out on the way.
   */
  lemma SuccessIsExactAt(states: seq<Sending>, bf: FaceId, B: seq<FibUpdate>, R: seq<FibUpdate>, fib: Fib, n: Name,
                         f: FaceId)
    requires Split(bf, B, R) && Run(states, bf, B, R, fib) && states[|states| - 1].successes == 1
    requires forall u :: u in states[|states| - 1].skipped ==> !Targets(u, n, f)
    ensures var s := states[|states| - 1];
            Lookup(s.fib, n, f) == Lookup(FibAfter(FibAfter(fib, B), R), n, f) <==> RemovedInTime(s, n, f)
  {
    RunOutcomes(states, bf, B, R, fib);
    RunIsConsistent(states, bf, B, R, fib);
    RunTracks(states, bf, B, R, fib);
    var s := states[|states| - 1];
    assert forall u :: u in s.accepted ==> u in B + R;
    assert forall u :: u in B + R ==> u in s.accepted || u in s.skipped;
    hide Run, Consistent, Lookup, FibAfter;
    if u :| u in B + R && Targets(u, n, f) {
      assert u in s.accepted;
      WantedAt(fib, bf, B, R, u);
      OnlyTarget(s, B, R, bf, u, n, f);
    } else {
      UnwantedAt(fib, B, R, n, f);
    }
  }

  lemma OnlyTarget(s: Sending, B: seq<FibUpdate>, R: seq<FibUpdate>, bf: FaceId, u: FibUpdate, n: Name, f: FaceId)
    requires Split(bf, B, R) && u in s.accepted && u in B + R && Targets(u, n, f) && forall v :: v in s.accepted ==>
            v in B + R
    ensures RemovedInTime(s, n, f) <==> (u.action == RemoveNextHop ==> s.accepted[u] == 0)
  {
    forall v | v in s.accepted && Targets(v, n, f)
      ensures v == u
    {
      TargetsApart(B, R, bf, u, v);
    }
  }

  /** With every update accepted the FIB is the wanted one if and only if no remove command ever timed out. */
  lemma SuccessIsExact(states: seq<Sending>, bf: FaceId, B: seq<FibUpdate>, R: seq<FibUpdate>, fib: Fib)
    requires Split(bf, B, R) && Run(states, bf, B, R, fib)
    requires states[|states| - 1].successes == 1 && states[|states| - 1].skipped == {}
    ensures var s := states[|states| - 1];
            s.fib == FibAfter(FibAfter(fib, B), R)
            <==> forall u :: u in s.accepted && u.action == RemoveNextHop ==> s.accepted[u] == 0
  {
    var s := states[|states| - 1];
    AllRemovedInTime(s);
    hide Run, Split, FibAfter, Lookup, RemovedInTime;
    var want := FibAfter(FibAfter(fib, B), R);
    if s.fib == want {
      forall n, f
        ensures RemovedInTime(s, n, f)
      {
        SuccessIsExactAt(states, bf, B, R, fib, n, f);
      }
    } else if forall n, f :: RemovedInTime(s, n, f) {
      forall n, f
        ensures Lookup(s.fib, n, f) == Lookup(want, n, f)
      {
        SuccessIsExactAt(states, bf, B, R, fib, n, f);
      }
      SameLookups(s.fib, want);
    }
  }

  lemma AllRemovedInTime(s: Sending)
    ensures (forall n, f :: RemovedInTime(s, n, f)) <==>
            forall u :: u in s.accepted && u.action == RemoveNextHop ==> s.accepted[u] == 0
  {
    if forall n, f :: RemovedInTime(s, n, f) {
      forall u | u in s.accepted && u.action == RemoveNextHop
        ensures s.accepted[u] == 0
      {
        assert RemovedInTime(s, u.name, u.faceId) && Targets(u, u.name, u.faceId);
      }
    }
  }

  /** A batch of one update, its command still without a response. */
  function OneSent(u: FibUpdate, fib: Fib, c: Command, sent: seq<Command>): Sending {
    Sending(u.faceId, [u], [], [c], fib, 0, 0, false, sent, map[], {}, {})
  }

  lemma OneStarted(u: FibUpdate, fib: Fib)
    ensures Started(u.faceId, [u], [], fib) == OneSent(u, fib, FirstCommand(u), [FirstCommand(u)])
  {
    SentAllIs(Sending(u.faceId, [u], [], [], fib, 0, 0, false, [], map[], {}, {}), [u]);
    assert FirstCommands([u]) == [FirstCommand(u)];
  }

  lemma OneTimedOut(u: FibUpdate, fib: Fib, c: Command, sent: seq<Command>)
    requires c.update == u && c.nTimeouts < MAX_NUM_TIMEOUTS
    ensures var retry := Command(u, true, c.nTimeouts + 1);
            Responded(OneSent(u, fib, c, sent), 0, Refused(ERROR_TIMEOUT, false)) ==
                OneSent(u, fib, retry, sent + [retry])
  {
    assert WithoutAt([c], 0) == [];
  }

  // The command for u after k timeouts, and all commands up to it.
  function AfterTimeouts(u: FibUpdate, k: nat): Command {
    if k == 0 then FirstCommand(u) else Command(u, true, k)
  }

  function UpToTimeouts(u: FibUpdate, k: nat): (sent: seq<Command>)
    ensures |sent| == k + 1
  {
    if k == 0 then [FirstCommand(u)] else UpToTimeouts(u, k - 1) + [AfterTimeouts(u, k)]
  }

  lemma {:induction false} TimeoutsSoFar(u: FibUpdate, fib: Fib, k: nat) returns (states: seq<Sending>)
    requires k <= 10
    ensures |states| == k + 1 && Run(states, u.faceId, [u], [], fib)
    ensures forall i :: 0 <= i <= k ==>
            states[i] == OneSent(u, fib, AfterTimeouts(u, i), UpToTimeouts(u, i))
  {
    hide Responded, Started;
    if k == 0 {
      states := [OneSent(u, fib, FirstCommand(u), [FirstCommand(u)])];
      OneStarted(u, fib);
    } else {
      states := TimeoutsSoFar(u, fib, k - 1);
      var s := states[k - 1];
      OneTimedOut(u, fib, AfterTimeouts(u, k - 1), UpToTimeouts(u, k - 1));
      states := LongerBy(states, u, fib, 0, Refused(ERROR_TIMEOUT, false));
    }
  }

  lemma LongerBy(states: seq<Sending>, u: FibUpdate, fib: Fib, k: nat, r: Response) returns (longer: seq<Sending>)
    requires Run(states, u.faceId, [u], [], fib)
    requires var s := states[|states| - 1]; !s.threw && k < |s.outstanding|
    ensures longer == states + [Responded(states[|states| - 1], k, r)] && Run(longer, u.faceId, [u], [], fib)
  {
    hide Responded, Started;
    var s := states[|states| - 1];
    longer := states + [Responded(s, k, r)];
    assert Answers(s, Responded(s, k, r));
  }

  /**
   An update whose commands all time out is sent exactly eleven times, one command after the other, and then the
   exception is thrown.
   */
  lemma ElevenCommandsThenThrow(u: FibUpdate, fib: Fib) returns (states: seq<Sending>)
    ensures |states| == 12 && Run(states, u.faceId, [u], [], fib)
    ensures forall i :: 0 <= i <= 10 ==>
            !states[i].threw && |states[i].sent| == i + 1 && |states[i].outstanding| == 1 && states[i].successes == 0
    ensures states[11].threw && |states[11].sent| == 11 && states[11].outstanding == [] && states[11].successes == 0
  {
    states := TimeoutsSoFar(u, fib, 10);
    var s := states[10];
    LastTimeout(u, fib, UpToTimeouts(u, 10));
    hide Responded, Started;
    states := LongerBy(states, u, fib, 0, Refused(ERROR_TIMEOUT, false));
  }

  lemma LastTimeout(u: FibUpdate, fib: Fib, sent: seq<Command>)
    ensures var s := OneSent(u, fib, Command(u, true, 10), sent);
            Responded(s, 0, Refused(ERROR_TIMEOUT, false)) == s.(outstanding := [], threw := true)
  {
    assert WithoutAt([Command(u, true, 10)], 0) == [];
  }

  /**
   A refusal: code 10060 is retried as an add while the command has seen fewer than ten timeouts; code 410 ends the
   batch for its own face and skips an update for another; anything else throws.
   */
  lemma RefusalOutcomes(s: Sending, k: nat, code: nat, executed: bool)
    requires k < |s.outstanding|
    ensures var c, s' := s.outstanding[k], Responded(s, k, Refused(code, executed));
            var own := c.update.faceId == s.batchFaceId;
            && s'.sent == s.sent + (if code == 10060 && c.nTimeouts < 10
                                    then [Command(c.update, true, c.nTimeouts + 1)] else [])
            && s'.failures == s.failures + (if code == 410 && own then 1 else 0)
            && s'.skipped == s.skipped + (if code == 410 && !own then {c.update} else {})
            && (s'.threw <==> s.threw || (code != 410 && !(code == 10060 && c.nTimeouts < 10)))
            && s'.batch == s.batch && (code != 410 ==> s'.rest == s.rest && s'.successes == s.successes)
            && (code != 10060 || !executed ==> s'.fib == s.fib)
  {
  }

  lemma OneAccepted(u: FibUpdate, fib: Fib, c: Command, sent: seq<Command>)
    requires c.update == u
    ensures Responded(OneSent(u, fib, c, sent), 0, Accepted)
            == Sending(u.faceId, [], [], [], ExecutedBy(fib, c), 1, 0, false, sent, map[u := c.nTimeouts], {}, {})
  {
    assert WithoutAt([c], 0) == [];
    assert Without([u], u) == [];
    assert map[][u := c.nTimeouts] == map[u := c.nTimeouts];
  }

  lemma TwoResponses(s: Sending, k: nat, r: Response, k': nat, r': Response)
    requires !s.threw && k < |s.outstanding|
    requires var s1 := Responded(s, k, r); !s1.threw && k' < |s1.outstanding|
    ensures var s1 := Responded(s, k, r); Answers(s, s1) && Answers(s1, Responded(s1, k', r'))
  {
    hide Responded;
  }

  lemma RetryAddsNextHop(n: Name, f: FaceId, fib: Fib)
    ensures var u := CreateRemoveUpdate(n, f);
            && Lookup(FibAfter(FibAfter(fib, [u]), []), n, f) == None
            && Lookup(ExecutedBy(fib, Command(u, true, 1)), n, f) == Some(0)
  {
    FibAfterAt(fib, [CreateRemoveUpdate(n, f)], n, f);
  }

  /** One remove command that times out once: success is reported and the next hop to be removed is in the FIB. */
  lemma TimedOutRemoveAddsNextHop(n: Name, f: FaceId, fib: Fib) returns (states: seq<Sending>)
    ensures Run(states, f, [CreateRemoveUpdate(n, f)], [], fib) && |states| == 3
    ensures var s := states[2];
            && s.successes == 1 && s.failures == 0 && s.skipped == {} && s.outstanding == []
            && Lookup(FibAfter(FibAfter(fib, [CreateRemoveUpdate(n, f)]), []), n, f) == None
            && Lookup(s.fib, n, f) == Some(0)
  {
    var u := CreateRemoveUpdate(n, f);
    var first, retry := FirstCommand(u), Command(u, true, 1);
    var s0, s1 := OneSent(u, fib, first, [first]), OneSent(u, fib, retry, [first] + [retry]);
    OneStarted(u, fib);
    OneTimedOut(u, fib, first, [first]);
    OneAccepted(u, fib, retry, [first] + [retry]);
    TwoResponses(s0, 0, Refused(ERROR_TIMEOUT, false), 0, Accepted);
    RetryAddsNextHop(n, f, fib);
    states := [s0, s1, Responded(s1, 0, Accepted)];
    hide Started, Responded, Answers, FibAfter, ExecutedBy, Lookup;
  }

  lemma SameLookups(a: Fib, b: Fib)
    requires forall n, f :: Lookup(a, n, f) == Lookup(b, n, f)
    ensures a == b
  {
    forall k
      ensures k in a <==> k in b
      ensures k in a ==> a[k] == b[k]
    {
      assert Lookup(a, k.0, k.1) == Lookup(b, k.0, k.1);
    }
  }

  lemma WantedAt(fib: Fib, bf: FaceId, B: seq<FibUpdate>, R: seq<FibUpdate>, u: FibUpdate)
    requires Split(bf, B, R) && u in B + R
    ensures Lookup(FibAfter(FibAfter(fib, B), R), u.name, u.faceId) == if u.action == AddNextHop then Some(u.cost)
            else None
  {
    FibAfterAt(fib, B, u.name, u.faceId);
    FibAfterAt(FibAfter(fib, B), R, u.name, u.faceId);
    if u in B {
      var i :| 0 <= i < |B| && B[i] == u;
      PendingInAt(B, i);
      PendingInAbsent(R, u.name, u.faceId);
    } else {
      var i :| 0 <= i < |R| && R[i] == u;
      PendingInAt(R, i);
    }
  }

  lemma UnwantedAt(fib: Fib, B: seq<FibUpdate>, R: seq<FibUpdate>, n: Name, f: FaceId)
    requires forall u :: u in B + R ==> !Targets(u, n, f)
    ensures Lookup(FibAfter(FibAfter(fib, B), R), n, f) == Lookup(fib, n, f)
  {
    FibAfterAt(fib, B, n, f);
    FibAfterAt(FibAfter(fib, B), R, n, f);
    PendingInAbsent(B, n, f);
    PendingInAbsent(R, n, f);
    forall i | 0 <= i < |B|
      ensures !(B[i].name == n && B[i].faceId == f)
    {
      assert B[i] in B + R;
    }
    forall i | 0 <= i < |R|
      ensures !(R[i].name == n && R[i].faceId == f)
    {
      assert R[i] in B + R;
    }
  }

  /** The lists a FibUpdater hands over are split as the protocol needs them. */
  lemma UpdaterListsAreSplit(updater: FibUpdater)
    requires updater.Valid()
    ensures Split(updater.batchFaceId, updater.updatesForBatchFaceId, updater.updatesForNonBatchFaceId)
  {
  }
}
