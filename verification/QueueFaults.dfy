/** Runs of several batches in which a command of a failed batch disturbs the next one. */
module QueueFaults {
  import opened Lists
  import opened FibUpdates
  import opened FibRefinement
  import opened SendProtocol
  import opened SendSafety
  import opened BatchQueue

  const U := CreateAddUpdate([], 1, 5)
  const V := CreateAddUpdate(["a"], 1, 5)
  const W := CreateAddUpdate(["b"], 2, 7)

  /** The next hops of U and V, both on the batch's face. */
  const FIRST := Pending(1, [U, V], [])

  const FACE_NOT_FOUND := Refused(ERROR_FACE_NOT_FOUND, false)

  /** A batch whose commands are all still without a response. */
  function Fresh(p: Pending, fib: Fib, cs: seq<Command>): Sending {
    Sending(p.face, p.batch, p.rest, cs, fib, 0, 0, false, cs, map[], {}, {})
  }

  lemma StartedFresh(p: Pending, fib: Fib)
    requires p.batch != []
    ensures Started(p.face, p.batch, p.rest, fib) == Fresh(p, fib, FirstCommands(p.batch))
  {
    SentAllIs(Sending(p.face, p.batch, p.rest, [], fib, 0, 0, false, [], map[], {}, {}), p.batch);
    assert [] + FirstCommands(p.batch) == FirstCommands(p.batch);
  }

  lemma CommandsFor(u: FibUpdate, v: FibUpdate)
    ensures FirstCommands([u]) == [FirstCommand(u)] && FirstCommands([u, v]) == [FirstCommand(u), FirstCommand(v)]
  {
    assert [u, v][..1] == [u];
  }

  // ---- The first batch is in progress, the second one waits ----

  function BothSubmitted(p: Pending, fib: Fib): Queue {
    Queue([p], true, [FIRST], [Fresh(FIRST, fib, [FirstCommand(U), FirstCommand(V)])], fib)
  }

  lemma SubmitFirst(fib: Fib)
    ensures Enabled(EmptyQueue(fib), Submit(FIRST)) && After(EmptyQueue(fib), Submit(FIRST)) == OneSubmitted(fib)
  {
    StartedFresh(FIRST, fib);
    CommandsFor(U, V);
    assert Proper(FIRST);
    hide Started, Proper, FirstCommands;
    var q := Queue([FIRST], false, [], [], fib);
    assert [] + [FIRST] == [FIRST];
    assert Begun(q) == OneSubmitted(fib);
  }

  function OneSubmitted(fib: Fib): Queue {
    BothSubmitted(FIRST, fib).(waiting := [])
  }

  lemma SubmitSecond(p: Pending, fib: Fib)
    requires Proper(p)
    ensures Enabled(OneSubmitted(fib), Submit(p)) && After(OneSubmitted(fib), Submit(p)) == BothSubmitted(p, fib)
  {
    hide Proper;
    assert [] + [p] == [p];
  }

  /** U's command is refused for want of the face: the first batch fails and the second starts. */
  function SecondStarted(p: Pending, fib: Fib, cs: seq<Command>): Queue {
    Queue([], true, [FIRST, p], [Failed(fib), Fresh(p, fib, cs)], fib)
  }

  function Failed(fib: Fib): Sending {
    Fresh(FIRST, fib, [FirstCommand(U), FirstCommand(V)]).(outstanding := [FirstCommand(V)], failures := 1,
                                            refused := {U})
  }

  lemma RefuseFirst(p: Pending, fib: Fib)
    requires p.batch != []
    ensures Answered(BothSubmitted(p, fib), 0, 0, FACE_NOT_FOUND) == SecondStarted(p, fib, FirstCommands(p.batch))
  {
    var s := Fresh(FIRST, fib, [FirstCommand(U), FirstCommand(V)]);
    FailsFirst(fib);
    StartedFresh(p, fib);
    hide Started, FirstCommands, Responded;
    var q := Queue([p], false, [FIRST], [Failed(fib)], fib);
    assert BothSubmitted(p, fib).runs[0 := Failed(fib)] == [Failed(fib)];
    assert Begun(q) == SecondStarted(p, fib, FirstCommands(p.batch));
  }

  lemma FailsFirst(fib: Fib)
    ensures var s := Fresh(FIRST, fib, [FirstCommand(U), FirstCommand(V)]);
            s.(fib := fib) == s && Responded(s, 0, FACE_NOT_FOUND) == Failed(fib)
  {
    assert WithoutAt([FirstCommand(U), FirstCommand(V)], 0) == [FirstCommand(V)];
  }

  // ---- An acceptance that comes late ----

  /** The second batch wants V too, and W afterwards. */
  const AGAIN := Pending(1, [V], [W])

  lemma AgainIsProper()
    ensures Proper(AGAIN) && AGAIN.batch != []
  {
  }

  function ListEmptied(fib: Fib): Queue {
    Queue([], true, [FIRST, AGAIN],
          [Failed(fib).(outstanding := [FirstCommand(W)], sent := [FirstCommand(U), FirstCommand(V), FirstCommand(W)]),
           Fresh(AGAIN, fib, [FirstCommand(V)]).(batch := [])],
          ExecutedBy(fib, FirstCommand(V)))
  }

  /** A response to the first of two batches. */
  lemma AnsweredOfTwo(q: Queue, s: Sending, t: Sending, k: nat, r: Response)
    requires q.runs == [s, t] && k < |s.outstanding|
    ensures var e := Effect(t, s.outstanding[k], r);
            Answered(q, 0, k, r) ==
            Released(q.(runs := [Charged(s, k, e), t.(batch := e.batch, rest := e.rest, threw := t.threw || e.threw)],
                        fib := FibAfterResponse(q.fib, s.outstanding[k], r)), Reported(e))
  {
    hide Effect, Charged, Released, FibAfterResponse;
    var e := Effect(t, s.outstanding[k], r);
    var t' := t.(batch := e.batch, rest := e.rest, threw := t.threw || e.threw);
    assert [s, t][0 := Charged(s, k, e)][1 := t'] == [Charged(s, k, e), t'];
  }

  lemma LateAcceptance(fib: Fib)
    ensures Answered(SecondStarted(AGAIN, fib, [FirstCommand(V)]), 0, 0, Accepted) == ListEmptied(fib)
  {
    var s, t := Failed(fib), Fresh(AGAIN, fib, [FirstCommand(V)]);
    var e := Effect(t, FirstCommand(V), Accepted);
    EmptiesList(t);
    FailedBy(fib);
    hide Effect, ExecutedBy, Failed, Charged, Answered;
    AnsweredOfTwo(SecondStarted(AGAIN, fib, [FirstCommand(V)]), s, t, 0, Accepted);
    ChargedWith(s, FirstCommand(V), e, FirstCommand(W));
    assert [FirstCommand(U), FirstCommand(V)] + [FirstCommand(W)] ==
        [FirstCommand(U), FirstCommand(V), FirstCommand(W)];
  }

  lemma FailedBy(fib: Fib)
    ensures var s := Failed(fib);
            s.outstanding == [FirstCommand(V)] && s.sent == [FirstCommand(U), FirstCommand(V)] && s.successes == 0
                && s.failures == 1
  {
  }

  lemma EmptiesList(t: Sending)
    requires t.batch == [V] && t.rest == [W] && t.batchFaceId == 1
    ensures Effect(t, FirstCommand(V), Accepted) ==
            t.(batch := [], outstanding := [FirstCommand(W)], sent := [FirstCommand(W)], successes := 0, failures := 0,
               threw := false)
  {
    var probe := t.(outstanding := [], sent := [], successes := 0, failures := 0, threw := false);
    assert Without([V], V) == [];
    SentAllIs(probe.(batch := []), [W]);
    CommandsFor(W, W);
    hide SentAll, Without;
  }

  lemma ChargedWith(s: Sending, c: Command, e: Sending, d: Command)
    requires s.outstanding == [c] && e.outstanding == [d] && e.sent == [d]
    ensures Charged(s, 0, e) == s.(outstanding := [d], sent := s.sent + [d], successes := s.successes + e.successes,
                                   failures := s.failures + e.failures)
  {
    assert WithoutAt([c], 0) + [d] == [d];
  }

  function SuccessAfterFailure(fib: Fib): Queue {
    Queue([], false, [FIRST, AGAIN],
          [Failed(fib).(outstanding := [], sent := [FirstCommand(U), FirstCommand(V), FirstCommand(W)], successes := 1),
           Fresh(AGAIN, fib, [FirstCommand(V)]).(batch := [], rest := [])],
          ExecutedBy(ExecutedBy(fib, FirstCommand(V)), FirstCommand(W)))
  }

  lemma LastAcceptance(fib: Fib)
    ensures Answered(ListEmptied(fib), 0, 0, Accepted) == SuccessAfterFailure(fib)
  {
    var q, q' := ListEmptied(fib), SuccessAfterFailure(fib);
    var s, t := q.runs[0], q.runs[1];
    assert Without([W], W) == [];
    var e := Effect(t, FirstCommand(W), Accepted);
    assert e == t.(outstanding := [], sent := [], rest := [], successes := 1);
    assert WithoutAt([FirstCommand(W)], 0) + [] == [] && s.sent + [] == s.sent;
    assert Charged(s, 0, e) == q'.runs[0];
    hide Effect, ExecutedBy, Charged, Answered;
    AnsweredOfTwo(q, s, t, 0, Accepted);
  }

  /** The first batch was reported to have failed and then to have succeeded; nothing was accepted for the second. */
  ghost predicate SucceededAfterFailing(q: Queue) {
    && |q.runs| == 2 && q.runs[0].failures == 1 && q.runs[0].successes == 1
    && q.runs[1].accepted == map[] && q.runs[1].outstanding != []
  }

  /**
   Both batches want V. The first fails on U, and V's acceptance for the first one empties the list of the second: its
   second phase starts while its own command for V has no response, and ends by reporting the success of the first.
   */
  lemma LateAcceptanceSwapsPhases(fib: Fib) returns (qs: seq<Queue>, es: seq<Event>)
    ensures |qs| == 6 && SucceededAfterFailing(qs[5]) && SendsEarly(qs[3], qs[4]) && InOrder(qs[3])
    ensures QueueRun(qs, es, fib)
  {
    var q3, q4, q5 := SecondStarted(AGAIN, fib, [FirstCommand(V)]), ListEmptied(fib), SuccessAfterFailure(fib);
    var accept := Answer(0, 0, Accepted);
    AgainIsProper();
    hide Proper, FirstCommands, After;
    qs, es := UpToSecond(AGAIN, fib);
    CommandsFor(V, V);
    LateAcceptance(fib);
    LastAcceptance(fib);
    LateFacts(fib);
    hide InOrder, SendsEarly, Answered, QueueRun, Enabled, TakesLast, SucceededAfterFailing, SecondStarted, ListEmptied,
        SuccessAfterFailure;
    PhasesSwapExactly(q3, accept);
    qs, es := OneMore(qs, es, fib, accept);
    qs, es := OneMore(qs, es, fib, accept);
  }

  lemma LateFacts(fib: Fib)
    ensures var q3, q4, accept := SecondStarted(AGAIN, fib, [FirstCommand(V)]), ListEmptied(fib),
            Answer(0, 0, Accepted);
            && Enabled(q3, accept) && TakesLast(q3, accept) && Enabled(q4, accept)
                 && SucceededAfterFailing(SuccessAfterFailure(fib))
            && After(q3, accept) == Answered(q3, 0, 0, Accepted) && After(q4, accept) == Answered(q4, 0, 0, Accepted)
  {
    hide Answered, ExecutedBy;
  }

  lemma BothAreInOrder(p: Pending, fib: Fib)
    requires Proper(p)
    ensures InOrder(BothSubmitted(p, fib))
  {
    EmptyIsInOrder(fib);
    hide InOrder, Submitted, Proper, BothSubmitted, OneSubmitted, EmptyQueue;
    SubmitFirst(fib);
    SubmitSecond(p, fib);
    StaysInOrderExactly(EmptyQueue(fib), Submit(FIRST));
    StaysInOrderExactly(OneSubmitted(fib), Submit(p));
  }

  lemma SecondIsInOrder(p: Pending, fib: Fib)
    requires Proper(p) && p.batch != []
    ensures InOrder(SecondStarted(p, fib, FirstCommands(p.batch)))
  {
    var refuse := Answer(0, 0, FACE_NOT_FOUND);
    assert Enabled(BothSubmitted(p, fib), refuse) && !Disturbs(BothSubmitted(p, fib), refuse);
    hide InOrder, Answered, Proper, SecondStarted, BothSubmitted, Enabled, Disturbs;
    BothAreInOrder(p, fib);
    RefuseFirst(p, fib);
    StaysInOrderExactly(BothSubmitted(p, fib), refuse);
  }

  lemma UpToSecond(p: Pending, fib: Fib) returns (qs: seq<Queue>, es: seq<Event>)
    requires Proper(p) && p.batch != []
    ensures |es| == 3 && |qs| == 4 && qs[3] == SecondStarted(p, fib, FirstCommands(p.batch)) && InOrder(qs[3])
    ensures QueueRun(qs, es, fib)
  {
    var refuse := Answer(0, 0, FACE_NOT_FOUND);
    SubmitFirst(fib);
    SubmitSecond(p, fib);
    RefuseFirst(p, fib);
    assert Enabled(BothSubmitted(p, fib), refuse);
    qs, es := [EmptyQueue(fib)], [];
    assert QueueRun(qs, es, fib);
    hide Proper, InOrder, Answered, Submitted, SecondStarted, OneSubmitted, BothSubmitted, EmptyQueue, Enabled,
        QueueRun, FirstCommands;
    qs, es := OneMore(qs, es, fib, Submit(FIRST));
    qs, es := OneMore(qs, es, fib, Submit(p));
    qs, es := OneMore(qs, es, fib, refuse);
    SecondIsInOrder(p, fib);
  }

  lemma OneMore(qs: seq<Queue>, es: seq<Event>, fib: Fib, e: Event) returns (qs': seq<Queue>, es': seq<Event>)
    requires QueueRun(qs, es, fib) && |qs| == |es| + 1 && Enabled(qs[|es|], e)
    ensures QueueRun(qs', es', fib) && |qs'| == |es'| + 1 == |es| + 2
    ensures qs' == qs + [After(qs[|es|], e)]
  {
    hide After;
    qs', es' := qs + [After(qs[|es|], e)], es + [e];
  }

  // ---- A second refusal ----

  /** The second batch is for another face, with nothing beyond it. */
  const OTHER := Pending(2, [W], [])

  function BothReported(fib: Fib): Queue {
    Queue([], false, [FIRST, OTHER],
          [Failed(fib).(outstanding := [], successes := 1), Fresh(OTHER, fib, [FirstCommand(W)])], fib)
  }

  lemma SecondRefusal(fib: Fib)
    ensures Answered(SecondStarted(OTHER, fib, [FirstCommand(W)]), 0, 0, FACE_NOT_FOUND) == BothReported(fib)
  {
    var s, t := Failed(fib), Fresh(OTHER, fib, [FirstCommand(W)]);
    var e := Effect(t, FirstCommand(V), FACE_NOT_FOUND);
    assert Without([], V) == [];
    assert e == t.(outstanding := [], sent := [], skipped := {V}, successes := 1);
    assert WithoutAt([FirstCommand(V)], 0) + [] == [] && s.sent + [] == s.sent;
    assert Charged(s, 0, e) == BothReported(fib).runs[0];
    hide Effect, Charged, Answered;
    AnsweredOfTwo(SecondStarted(OTHER, fib, [FirstCommand(W)]), s, t, 0, FACE_NOT_FOUND);
  }

  /**
   The first batch's face is gone, so both its commands are refused. The first refusal reports its failure and starts a
   batch for another face; the second one finds no update beyond that face and reports the success of the first batch,
   with the second batch's command still without a response.
   */
  lemma SecondRefusalReportsSuccess(fib: Fib) returns (qs: seq<Queue>, es: seq<Event>)
    ensures |qs| == 5 && SucceededAfterFailing(qs[4]) && !qs[4].busy && !Reported(qs[4].runs[1]) && InOrder(qs[3])
    ensures QueueRun(qs, es, fib)
  {
    var q3, q4 := SecondStarted(OTHER, fib, [FirstCommand(W)]), BothReported(fib);
    var refuse := Answer(0, 0, FACE_NOT_FOUND);
    assert Proper(OTHER);
    qs, es := UpToSecond(OTHER, fib);
    CommandsFor(W, W);
    SecondRefusal(fib);
    assert Enabled(q3, refuse);
    assert SucceededAfterFailing(q4) && !q4.busy && !Reported(q4.runs[1]);
    hide InOrder, Answered, QueueRun, Enabled, SecondStarted, BothReported;
    qs, es := OneMore(qs, es, fib, refuse);
  }
}
