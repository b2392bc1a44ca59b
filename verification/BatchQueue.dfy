/**
 Several batches through one FibUpdater (rib/rib.cpp:376-470). A batch that fails lets the next one start while commands
 of its own may still be without a response; their callbacks then act on the lists of the batch in progress.
 */
module BatchQueue {
  import opened Lists
  import opened Routes
  import opened FibDeltas
  import opened FibUpdates
  import opened FibRefinement
  import opened Forwarder
  import opened SendProtocol
  import opened SendSafety

  /** What the computation leaves behind for one batch. */
  datatype Pending = Pending(face: FaceId, batch: seq<FibUpdate>, rest: seq<FibUpdate>)

  datatype Queue = Queue(
    waiting: seq<Pending>,  // m_updateBatches
    busy: bool,             // m_isUpdateInProgress
    started: seq<Pending>,  // the batches taken from the queue so far
    runs: seq<Sending>,     // their commands and callbacks; the last one holds the updater's lists
    fib: Fib)

  function EmptyQueue(fib: Fib): Queue {
    Queue([], false, [], [], fib)
  }

  predicate Reported(s: Sending) {
    s.successes > 0 || s.failures > 0
  }

  // ---- What the methods do to a queue ----

  function Begun(q: Queue): Queue
    requires q.waiting != []
  {
    var p := q.waiting[0];
    q.(waiting := q.waiting[1..], busy := true, started := q.started + [p],
       runs := q.runs + [Started(p.face, p.batch, p.rest, q.fib)])
  }

  /** Rib::sendBatchFromQueue; a batch without commands succeeds at once. */
  function Advanced(q: Queue): Queue
    decreases |q.waiting|
  {
    if q.busy || q.waiting == [] then q
    else
      var q1 := Begun(q);
      if Reported(q1.runs[|q.runs|]) then Advanced(q1.(busy := false)) else q1
  }

  function Submitted(q: Queue, p: Pending): Queue {
    Advanced(q.(waiting := q.waiting + [p]))
  }

  /** What the callback of command c does to the lists of t, whatever batch c belongs to. */
  function Effect(t: Sending, c: Command, r: Response): Sending {
    var s := t.(outstanding := [], sent := [], successes := 0, failures := 0, threw := false);
    match r
    case Accepted => AfterSuccess(s, c.update)
    case Refused(code, _) => AfterError(s, c.update, code, c.nTimeouts)
  }

  function FibAfterResponse(fib: Fib, c: Command, r: Response): Fib {
    if r == Accepted || (r.Refused? && r.code == ERROR_TIMEOUT && r.executed) then ExecutedBy(fib, c) else fib
  }

  /** The batch of the command: new commands and the callbacks are its own. */
  function Charged(s: Sending, k: nat, e: Sending): Sending
    requires k < |s.outstanding|
  {
    s.(outstanding := WithoutAt(s.outstanding, k) + e.outstanding, sent := s.sent + e.sent,
       successes := s.successes + e.successes, failures := s.failures + e.failures)
  }

  function Released(q: Queue, called: bool): Queue {
    if called then Advanced(q.(busy := false)) else q
  }

  /** The response r to the k-th outstanding command of batch m. */
  function Answered(q: Queue, m: nat, k: nat, r: Response): Queue
    requires m < |q.runs| && k < |q.runs[m].outstanding|
  {
    var s, n := q.runs[m], |q.runs| - 1;
    if m == n then
      var s' := Responded(s.(fib := q.fib), k, r);
      Released(q.(runs := q.runs[m := s'], fib := s'.fib), s'.successes > s.successes || s'.failures > s.failures)
    else
      var t := q.runs[n];
      var e := Effect(t, s.outstanding[k], r);
      var t' := t.(batch := e.batch, rest := e.rest, threw := t.threw || e.threw);
      Released(q.(runs := q.runs[m := Charged(s, k, e)][n := t'], fib := FibAfterResponse(q.fib, s.outstanding[k], r)),
               Reported(e))
  }

  // ---- The class ----

  /** The members of class Rib that concern the queue, with the responses of all its batches. */
  class UpdateQueue {
    var waiting: seq<Pending>
    var busy: bool
    var started: seq<Pending>
    var runs: seq<Sending>
    var fib: Fib

    function View(): Queue
      reads this
    {
      Queue(waiting, busy, started, runs, fib)
    }

    constructor (fib: Fib)
      ensures View() == EmptyQueue(fib)
    {
      waiting, busy, started, runs, this.fib := [], false, [], [], fib;
    }

    // Rib::beginApplyUpdate, with the lists that the computation is going to leave behind.
    method BeginApplyUpdate(p: Pending)
      modifies this
      ensures View() == Submitted(old(View()), p)
    {
      waiting := waiting + [p];
      SendBatchFromQueue();
    }

    method SendBatchFromQueue()
      modifies this
      ensures View() == Advanced(old(View()))
      decreases |waiting|, 1
    {
      if busy || waiting == [] {
        return;
      }
      busy := true;
      var p := waiting[0];
      waiting := waiting[1..];
      started, runs := started + [p], runs + [Started(p.face, p.batch, p.rest, fib)];
      if Reported(runs[|runs| - 1]) {
        OnFibUpdateReported();
      }
    }

    // What Rib::onFibUpdateSuccess and Rib::onFibUpdateFailure both end with.
    method OnFibUpdateReported()
      modifies this
      ensures View() == Advanced(old(View()).(busy := false))
      decreases |waiting|, 2
    {
      busy := false;
      SendBatchFromQueue();
    }

    // The response to the k-th outstanding command of batch m reaches the callback bound to it.
    method Respond(m: nat, k: nat, r: Response)
      requires m < |runs| && k < |runs[m].outstanding|
      modifies this
      ensures View() == Answered(old(View()), m, k, r)
    {
      var s, n := runs[m], |runs| - 1;
      if m == n {
        var s' := Responded(s.(fib := fib), k, r);
        runs, fib := runs[m := s'], s'.fib;
        if s'.successes > s.successes || s'.failures > s.failures {
          OnFibUpdateReported();
        }
      } else {
        var t, c := runs[n], s.outstanding[k];
        var e := Effect(t, c, r);
        runs := runs[m := Charged(s, k, e)][n := t.(batch := e.batch, rest := e.rest, threw := t.threw || e.threw)];
        fib := FibAfterResponse(fib, c, r);
        if Reported(e) {
          OnFibUpdateReported();
        }
      }
    }
  }

  // ---- Runs ----

  datatype Event = Submit(p: Pending) | Answer(m: nat, k: nat, r: Response)

  ghost predicate Proper(p: Pending) {
    Split(p.face, p.batch, p.rest)
  }

  predicate Threw(q: Queue) {
    q.runs != [] && q.runs[|q.runs| - 1].threw
  }

  /** A batch is added, or some command gets its response; nothing happens after the exception. */
  ghost predicate Enabled(q: Queue, e: Event) {
    && !Threw(q)
    && match e
       case Submit(p) => Proper(p)
       case Answer(m, k, _) => m < |q.runs| && k < |q.runs[m].outstanding|
  }

  function After(q: Queue, e: Event): Queue
    requires e.Answer? ==> e.m < |q.runs| && e.k < |q.runs[e.m].outstanding|
  {
    match e
    case Submit(p) => Submitted(q, p)
    case Answer(m, k, r) => Answered(q, m, k, r)
  }

  ghost predicate QueueRun(qs: seq<Queue>, es: seq<Event>, fib: Fib) {
    && |qs| == |es| + 1 && qs[0] == EmptyQueue(fib)
    && forall i :: 0 <= i < |es| ==> Enabled(qs[i], es[i]) && qs[i + 1] == After(qs[i], es[i])
  }

  // ---- First in, first out ----

  /** The batches of the Submit events, in their order. */
  function SubmittedBatches(es: seq<Event>): seq<Pending> {
    if es == [] then []
    else
      var k := |es| - 1;
      SubmittedBatches(es[..k]) + if es[k].Submit? then [es[k].p] else []
  }

  lemma {:induction false} AdvancedTakesFirst(q: Queue)
    ensures var q1 := Advanced(q);
            q1.started + q1.waiting == q.started + q.waiting && q.started <= q1.started && (q1.busy || q1.waiting == [])
    ensures |q.started| == |q.runs| ==> |Advanced(q).started| == |Advanced(q).runs|
    decreases |q.waiting|
  {
    if !q.busy && q.waiting != [] {
      var q1 := Begun(q);
      assert q1.started + q1.waiting == q.started + q.waiting;
      hide Started;
      AdvancedTakesFirst(q1.(busy := false));
    }
  }

  lemma AnswerTakesFirst(q: Queue, m: nat, k: nat, r: Response)
    requires m < |q.runs| && k < |q.runs[m].outstanding| && |q.started| == |q.runs|
    requires q.waiting == [] || q.busy
    ensures var q1 := Answered(q, m, k, r);
            q1.started + q1.waiting == q.started + q.waiting && q.started <= q1.started && |q1.started| == |q1.runs|
            && (q1.busy || q1.waiting == [])
  {
    hide Responded, Effect, Charged, FibAfterResponse, Advanced;
    var s, n := q.runs[m], |q.runs| - 1;
    if m == n {
      var s' := Responded(s.(fib := q.fib), k, r);
      AdvancedTakesFirst(q.(runs := q.runs[m := s'], fib := s'.fib, busy := false));
    } else {
      var t := q.runs[n];
      var e := Effect(t, s.outstanding[k], r);
      var t' := t.(batch := e.batch, rest := e.rest, threw := t.threw || e.threw);
      AdvancedTakesFirst(q.(runs := q.runs[m := Charged(s, k, e)][n := t'],
                            fib := FibAfterResponse(q.fib, s.outstanding[k], r), busy := false));
    }
  }

  /**
   In every run, whatever is refused and whichever batches disturb each other, the batches started so far followed by
   those that wait are the submitted ones in the order of their submission, and none waits unless one is in progress.
   */
  lemma {:induction false} FirstInFirstOut(qs: seq<Queue>, es: seq<Event>, fib: Fib, i: nat)
    requires QueueRun(qs, es, fib) && i <= |es|
    ensures qs[i].started + qs[i].waiting == SubmittedBatches(es[..i])
    ensures |qs[i].started| == |qs[i].runs| && (qs[i].waiting == [] || qs[i].busy)
  {
    hide Submitted, Answered;
    if i > 0 {
      FirstInFirstOut(qs, es, fib, i - 1);
      var q, e := qs[i - 1], es[i - 1];
      assert es[..i][..i - 1] == es[..i - 1];
      assert Enabled(q, e) && qs[i - 1 + 1] == After(q, e);
      hide After, Enabled;
      EventTakesFirst(q, e);
    }
  }

  lemma EventTakesFirst(q: Queue, e: Event)
    requires Enabled(q, e) && |q.started| == |q.runs| && (q.waiting == [] || q.busy)
    ensures var q1 := After(q, e);
            q1.started + q1.waiting == q.started + q.waiting + (if e.Submit? then [e.p] else [])
            && q.started <= q1.started && |q1.started| == |q1.runs| && (q1.waiting == [] || q1.busy)
  {
    match e
    case Submit(p) =>
      AdvancedTakesFirst(q.(waiting := q.waiting + [p]));
      assert q.started + (q.waiting + [p]) == q.started + q.waiting + [p];
    case Answer(m, k, r) =>
      hide Answered;
      AnswerTakesFirst(q, m, k, r);
  }

  /** Batches are never taken back: those started before an event are started after it, in the same places. */
  lemma StartedStays(qs: seq<Queue>, es: seq<Event>, fib: Fib, i: nat)
    requires QueueRun(qs, es, fib) && i < |es|
    ensures qs[i].started <= qs[i + 1].started
  {
    FirstInFirstOut(qs, es, fib, i);
    assert Enabled(qs[i], es[i]) && qs[i + 1] == After(qs[i], es[i]);
    hide After, Enabled;
    EventTakesFirst(qs[i], es[i]);
  }

  // ---- The forwarder's FIB ----

  lemma {:induction false} AdvancedKeepsFib(q: Queue)
    ensures Advanced(q).fib == q.fib
    decreases |q.waiting|
  {
    if !q.busy && q.waiting != [] {
      hide Started;
      AdvancedKeepsFib(Begun(q).(busy := false));
    }
  }

  /**
   Whichever batch a command belongs to, in progress or long reported, its response means the same for the FIB: an
   accepted command, or one carried out before it timed out, has added or removed its next hop, and nothing else has.
   */
  lemma ResponseMeansExecution(q: Queue, m: nat, k: nat, r: Response)
    requires m < |q.runs| && k < |q.runs[m].outstanding|
    ensures var c := q.runs[m].outstanding[k];
            Answered(q, m, k, r).fib ==
                if r.Accepted? || (r.code == 10060 && r.executed) then
                    Executed(q.fib, c.update.name, c.update.faceId, if c.adds then Add(c.update.cost) else Remove)
                else q.fib
  {
    hide Advanced, Effect, Charged, SentAll;
    var s, n := q.runs[m], |q.runs| - 1;
    if m == n {
      var s' := Responded(s.(fib := q.fib), k, r);
      RespondedFib(s.(fib := q.fib), k, r);
      hide Responded;
      AdvancedKeepsFib(q.(runs := q.runs[m := s'], fib := s'.fib, busy := false));
    } else {
      var t := q.runs[n];
      var e := Effect(t, s.outstanding[k], r);
      var t' := t.(batch := e.batch, rest := e.rest, threw := t.threw || e.threw);
      AdvancedKeepsFib(q.(runs := q.runs[m := Charged(s, k, e)][n := t'],
                          fib := FibAfterResponse(q.fib, s.outstanding[k], r), busy := false));
    }
  }

  lemma RespondedFib(s: Sending, k: nat, r: Response)
    requires k < |s.outstanding|
    ensures Responded(s, k, r).fib == FibAfterResponse(s.fib, s.outstanding[k], r)
  {
    var c := s.outstanding[k];
    if r.Accepted? {
      var s1 := s.(outstanding := WithoutAt(s.outstanding, k), fib := ExecutedBy(s.fib, c),
                   accepted := s.accepted[c.update := c.nTimeouts]);
      SentAllKeepsFib(s1.(batch := Without(s1.batch, c.update)), s1.rest);
    }
    hide ExecutedBy, SentAll;
  }

  lemma {:induction false} SentAllKeepsFib(s: Sending, l: seq<FibUpdate>)
    ensures SentAll(s, l).fib == s.fib
  {
    if |l| > 0 {
      SentAllKeepsFib(s, l[..|l| - 1]);
    }
  }

  // ---- Order ----

  /** A batch that has been reported: as it was then, but for responses that came later. */
  ghost predicate Past(s: Sending, p: Pending) {
    && Accounted(s, p.face, p.batch, p.rest)
    && s.successes == (if s.batch == [] && s.rest == [] then 1 else 0)
    && (s.successes == 1 ==> s.outstanding == [])
    && (s.successes == 0 ==>
          && s.failures > 0 && s.batch != []
          && (forall i :: 0 <= i < |s.outstanding| ==> s.outstanding[i].update.faceId == p.face)
          && (forall i :: 0 <= i < |s.sent| ==> s.sent[i].update.faceId == p.face))
  }

  ghost predicate AllPast(runs: seq<Sending>, started: seq<Pending>, n: int) {
    n <= |runs| && n <= |started| && forall m :: 0 <= m < n ==> Past(runs[m], started[m])
  }

  /** Each batch starts when the one before has been reported, and keeps what SendSafety says of a batch alone. */
  ghost predicate InOrder(q: Queue) {
    var n := |q.runs| - 1;
    && |q.started| == |q.runs|
    && (forall p :: p in q.started || p in q.waiting ==> Proper(p))
    && AllPast(q.runs, q.started, n)
    && (n >= 0 ==> Consistent(q.runs[n], q.started[n].face, q.started[n].batch, q.started[n].rest))
    && (q.busy ==> n >= 0 && !Reported(q.runs[n]))
    && (!q.busy ==> q.waiting == [] && (n >= 0 ==> Reported(q.runs[n])))
  }

  /**
   A response to a command of an earlier batch that changes the lists of the last one, finds one of them empty, or
   reports the earlier batch once more while the last one is in progress.
   */
  ghost predicate Disturbs(q: Queue, e: Event)
    requires Enabled(q, e)
  {
    && e.Answer? && e.m < |q.runs| - 1
    && var u, nTimeouts, t := q.runs[e.m].outstanding[e.k].update, q.runs[e.m].outstanding[e.k].nTimeouts,
         q.runs[|q.runs| - 1];
       var listed := if u.faceId == t.batchFaceId then u in t.batch || t.batch == [] else u in t.rest || t.rest == [];
       match e.r
       case Accepted => listed
       case Refused(code, _) =>
         code == ERROR_FACE_NOT_FOUND && if u.faceId == t.batchFaceId then q.busy else listed
  }

  // ---- A batch that is reported becomes past ----

  lemma ReportedIsPast(s: Sending, p: Pending)
    requires Consistent(s, p.face, p.batch, p.rest) && Reported(s) && Proper(p)
    ensures Past(s, p)
  {
    if s.successes == 1 {
      LastIsAlone(s);
    } else {
      var u :| u in s.refused;
      assert s.batch != [];
      forall i | 0 <= i < |s.outstanding|
        ensures s.outstanding[i].update.faceId == p.face
      {
        assert Waiting(s, s.outstanding[i].update);
      }
    }
  }

  /** What Advanced asks of a queue that is not busy. */
  ghost predicate Free(q: Queue) {
    var n := |q.runs| - 1;
    && |q.started| == |q.runs| && !q.busy
    && (forall p :: p in q.started || p in q.waiting ==> Proper(p))
    && AllPast(q.runs, q.started, n)
    && (n >= 0 ==>
          Consistent(q.runs[n], q.started[n].face, q.started[n].batch, q.started[n].rest) && Reported(q.runs[n]))
  }

  lemma OneMorePast(runs: seq<Sending>, started: seq<Pending>, s: Sending, p: Pending)
    requires |runs| == |started| && AllPast(runs, started, |runs| - 1)
    requires runs != [] ==> Past(runs[|runs| - 1], started[|runs| - 1])
    ensures AllPast(runs + [s], started + [p], |runs|)
  {
    hide Past;
  }

  lemma BegunIsOrderly(q: Queue)
    requires Free(q) && q.waiting != []
    ensures var q1 := Begun(q);
            && |q1.runs| == |q.runs| + 1
            && if Reported(q1.runs[|q.runs|]) then Free(q1.(busy := false)) else InOrder(q1)
  {
    var p, n := q.waiting[0], |q.runs| - 1;
    assert Proper(p);
    StartedIsConsistent(p.face, p.batch, p.rest, q.fib);
    hide Consistent, Past, Started, Reported, AllPast, Split;
    if n >= 0 {
      assert Proper(q.started[n]);
      ReportedIsPast(q.runs[n], q.started[n]);
    }
    OneMorePast(q.runs, q.started, Started(p.face, p.batch, p.rest, q.fib), p);
    assert forall x :: x in q.waiting[1..] ==> x in q.waiting;
  }

  lemma {:induction false} AdvancedIsOrderly(q: Queue)
    requires Free(q)
    ensures InOrder(Advanced(q))
    decreases |q.waiting|
  {
    if q.waiting != [] {
      BegunIsOrderly(q);
      hide Past, Consistent, Proper, Reported, Free, InOrder;
      if Reported(Begun(q).runs[|q.runs|]) {
        AdvancedIsOrderly(Begun(q).(busy := false));
      }
    } else {
      hide Past, Consistent, Proper, Reported;
    }
  }

  // ---- Responses to the batch in progress ----

  lemma FibDoesNotMatter(s: Sending, fib: Fib, p: Pending)
    ensures Consistent(s.(fib := fib), p.face, p.batch, p.rest) == Consistent(s, p.face, p.batch, p.rest)
  {
    var s' := s.(fib := fib);
    OutstandingDecides(s, s');
    hide Waiting, NoDuplicates, GoodCommands;
    assert Accounted(s', p.face, p.batch, p.rest) == Accounted(s, p.face, p.batch, p.rest);
  }

  lemma OwnStaysInOrder(q: Queue, k: nat, r: Response)
    requires InOrder(q) && q.runs != [] && !Threw(q) && k < |q.runs[|q.runs| - 1].outstanding|
    ensures InOrder(Answered(q, |q.runs| - 1, k, r))
  {
    var n := |q.runs| - 1;
    var s, p := q.runs[n].(fib := q.fib), q.started[n];
    assert Proper(p);
    FibDoesNotMatter(q.runs[n], q.fib, p);
    RespondedIsConsistent(s, k, r, p.face, p.batch, p.rest);
    RespondedFrame(s, k, r);
    hide Consistent, Past, Proper, Responded, AllPast, InOrder;
    LastReplaced(q, Responded(s, k, r));
  }

  lemma LastReplaced(q: Queue, s': Sending)
    requires InOrder(q) && q.runs != []
    requires var n := |q.runs| - 1;
             && Consistent(s', q.started[n].face, q.started[n].batch, q.started[n].rest)
             && s'.successes >= q.runs[n].successes && s'.failures >= q.runs[n].failures
    ensures var n := |q.runs| - 1;
            InOrder(Released(q.(runs := q.runs[n := s'], fib := s'.fib),
                             s'.successes > q.runs[n].successes || s'.failures > q.runs[n].failures))
  {
    var n := |q.runs| - 1;
    var q1 := q.(runs := q.runs[n := s'], fib := s'.fib);
    SamePast(q.runs, q1.runs, q.started, n);
    hide Consistent, Past, Proper, AllPast;
    if s'.successes > q.runs[n].successes || s'.failures > q.runs[n].failures {
      assert Free(q1.(busy := false));
      AdvancedIsOrderly(q1.(busy := false));
      hide Free, InOrder, Advanced;
    }
  }

  lemma SamePast(runs: seq<Sending>, runs': seq<Sending>, started: seq<Pending>, n: int)
    requires AllPast(runs, started, n) && n <= |runs'| && forall m :: 0 <= m < n ==> runs'[m] == runs[m]
    ensures AllPast(runs', started, n)
  {
    hide Past;
  }

  // ---- Responses to earlier batches ----

  lemma OwnFace(q: Queue, m: nat, k: nat)
    requires InOrder(q) && m < |q.runs| - 1 && k < |q.runs[m].outstanding|
    ensures Past(q.runs[m], q.started[m]) && q.runs[m].outstanding[k].update.faceId == q.started[m].face
  {
    assert Past(q.runs[m], q.started[m]);
  }

  lemma {:induction false} UnlistedStays(s: seq<FibUpdate>, u: FibUpdate)
    requires u !in s
    ensures Without(s, u) == s
  {
    if s != [] {
      var n := |s| - 1;
      assert s == s[..n] + [s[n]];
      UnlistedStays(s[..n], u);
    }
  }

  lemma QuietAccepted(t: Sending, u: FibUpdate)
    requires if u.faceId == t.batchFaceId then u !in t.batch && t.batch != [] else u !in t.rest && t.rest != []
    ensures AfterSuccess(t, u) == t
  {
    if u.faceId == t.batchFaceId {
      UnlistedStays(t.batch, u);
    } else {
      UnlistedStays(t.rest, u);
    }
    hide Without, SentAll;
  }

  lemma QuietRefused(t: Sending, u: FibUpdate, nTimeouts: nat)
    requires u.faceId != t.batchFaceId && u !in t.rest && t.rest != []
    ensures AfterError(t, u, ERROR_FACE_NOT_FOUND, nTimeouts) == t.(skipped := t.skipped + {u})
  {
    UnlistedStays(t.rest, u);
    hide Without;
  }

  /**
   A response that does not disturb leaves the lists alone; it may cause a retry, a further report of failure, or the
   exception.
   */
  lemma QuietEffect(q: Queue, e: Event)
    requires Enabled(q, e) && e.Answer? && e.m < |q.runs| - 1 && !Disturbs(q, e)
    ensures var c, t := q.runs[e.m].outstanding[e.k], q.runs[|q.runs| - 1];
            var f := Effect(t, c, e.r);
            && f.batch == t.batch && f.rest == t.rest && f.successes == 0 && (f.failures > 0 ==> !q.busy)
            && (f.outstanding == [] || f.outstanding == [Command(c.update, true, c.nTimeouts + 1)])
                 && f.sent == f.outstanding
  {
    var c, t := q.runs[e.m].outstanding[e.k], q.runs[|q.runs| - 1];
    var s := t.(outstanding := [], sent := [], successes := 0, failures := 0, threw := false);
    match e.r
    case Accepted =>
      QuietAccepted(s, c.update);
      hide AfterSuccess;
    case Refused(code, _) =>
      if code == ERROR_FACE_NOT_FOUND && c.update.faceId != t.batchFaceId {
        QuietRefused(s, c.update, c.nTimeouts);
      }
      hide Without;
  }

  /** A past batch stays past when one of its commands is answered without effect on any list. */
  lemma QuietStaysPast(s: Sending, p: Pending, k: nat, e: Sending)
    requires Past(s, p) && k < |s.outstanding| && e.successes == 0
    requires e.sent == e.outstanding && forall i :: 0 <= i < |e.outstanding| ==>
            e.outstanding[i].update == s.outstanding[k].update
    ensures Past(Charged(s, k, e), p)
  {
    var s' := Charged(s, k, e);
    assert Accounted(s', p.face, p.batch, p.rest);
    hide Accounted;
  }

  lemma ThrowStaysConsistent(t: Sending, threw: bool, p: Pending)
    requires Consistent(t, p.face, p.batch, p.rest)
    ensures Consistent(t.(threw := t.threw || threw), p.face, p.batch, p.rest)
  {
    var t' := t.(threw := t.threw || threw);
    OutstandingDecides(t, t');
    hide Waiting, NoDuplicates, GoodCommands;
    assert Accounted(t', p.face, p.batch, p.rest);
  }

  lemma QuietStaysInOrder(q: Queue, e: Event)
    requires InOrder(q) && Enabled(q, e) && e.Answer? && e.m < |q.runs| - 1 && !Disturbs(q, e)
    ensures InOrder(Answered(q, e.m, e.k, e.r))
  {
    var n := |q.runs| - 1;
    var s, t := q.runs[e.m], q.runs[n];
    var c := s.outstanding[e.k];
    var f := Effect(t, c, e.r);
    QuietEffect(q, e);
    OwnFace(q, e.m, e.k);
    hide AllPast, Effect, Disturbs, Enabled;
    QuietStaysPast(s, q.started[e.m], e.k, f);
    ThrowStaysConsistent(t, f.threw, q.started[n]);
    hide Consistent, Past, Proper, Charged, InOrder, FibAfterResponse;
    var t' := t.(batch := f.batch, rest := f.rest, threw := t.threw || f.threw);
    assert t' == t.(threw := t.threw || f.threw);
    OneEachReplaced(q, e.m, Charged(s, e.k, f), t', FibAfterResponse(q.fib, c, e.r), Reported(f));
  }

  lemma OneEachReplaced(q: Queue, m: nat, s: Sending, t: Sending, fib: Fib, called: bool)
    requires InOrder(q) && m < |q.runs| - 1 && Past(s, q.started[m]) && (called ==> !q.busy)
    requires var n := |q.runs| - 1;
             && Consistent(t, q.started[n].face, q.started[n].batch, q.started[n].rest)
             && t.successes == q.runs[n].successes && t.failures == q.runs[n].failures
    ensures InOrder(Released(q.(runs := q.runs[m := s][|q.runs| - 1 := t], fib := fib), called))
  {
    OnePastReplaced(q.runs, q.started, |q.runs| - 1, m, s, t);
    assert Reported(t) == Reported(q.runs[|q.runs| - 1]);
    hide Consistent, Past, Proper, AllPast, Started, Begun, Reported;
    var q1 := q.(runs := q.runs[m := s][|q.runs| - 1 := t], fib := fib);
    assert InOrder(q1);
    assert called ==> q1.(busy := false) == q1;
    hide InOrder;
  }

  lemma OnePastReplaced(runs: seq<Sending>, started: seq<Pending>, n: nat, m: nat, s: Sending, t: Sending)
    requires AllPast(runs, started, n) && m < n < |runs| && Past(s, started[m])
    ensures AllPast(runs[m := s][n := t], started, n)
  {
    hide Past;
  }

  // ---- A disturbance is never mended ----

  /** What has been done to a batch is not undone by starting others. */
  lemma {:induction false} AdvancedKeepsRuns(q: Queue)
    requires |q.started| == |q.runs|
    ensures var q' := Advanced(q);
            && q.runs <= q'.runs && q.started <= q'.started && |q'.started| == |q'.runs|
            && (!q.busy && q.waiting != [] ==> |q'.runs| > |q.runs|)
    decreases |q.waiting|
  {
    if !q.busy && q.waiting != [] {
      if Reported(Begun(q).runs[|q.runs|]) {
        hide Started;
        AdvancedKeepsRuns(Begun(q).(busy := false));
      }
    }
  }

  /** Neither past nor consistent. */
  ghost predicate Spoilt(s: Sending, p: Pending) {
    !Past(s, p) && !Consistent(s, p.face, p.batch, p.rest)
  }

  lemma SpoiltIsOutOfOrder(q: Queue, m: nat)
    requires |q.started| == |q.runs| && m < |q.runs| && Spoilt(q.runs[m], q.started[m])
    ensures !InOrder(Advanced(q)) && !InOrder(q)
  {
    AdvancedKeepsRuns(q);
    hide Past, Consistent;
  }

  /** An update leaves the lists without being accepted or skipped by its own batch. */
  lemma LostUpdateSpoils(t: Sending, t': Sending, p: Pending, u: FibUpdate)
    requires Accounted(t, p.face, p.batch, p.rest) && t' == t.(batch := t'.batch, rest := t'.rest, threw := t'.threw)
    requires (u in t.batch && u !in t'.batch) || (u in t.rest && u !in t'.rest)
    ensures Spoilt(t', p)
  {
  }

  /** A failed batch is charged with a success, or with a command for another face. */
  lemma ChargeSpoils(s: Sending, p: Pending, k: nat, e: Sending)
    requires Past(s, p) && k < |s.outstanding|
    requires e.successes > 0
            || (e.outstanding != [] && e.outstanding[0].update.faceId != p.face && e.sent == e.outstanding)
    ensures !Past(Charged(s, k, e), p)
  {
    var s' := Charged(s, k, e);
    if e.successes == 0 {
      var j := |s.sent|;
      assert s'.sent[j] == e.sent[0];
    }
    hide Accounted;
  }

  lemma PastIsMissing(q: Queue, m: nat)
    requires |q.started| == |q.runs| && m < |q.runs| - 1 && !Past(q.runs[m], q.started[m])
    ensures !InOrder(Advanced(q)) && !InOrder(q)
  {
    AdvancedKeepsRuns(q);
    hide Past, Consistent;
  }

  /** With an empty first list, an acceptance for the batch's face starts the second phase once more. */
  lemma PhaseStartsAgain(t: Sending, u: FibUpdate)
    requires u.faceId == t.batchFaceId && t.batch == [] && t.outstanding == [] && t.sent == []
    ensures var f := AfterSuccess(t, u);
            if t.rest == [] then f.successes > t.successes
            else f.outstanding != [] && f.outstanding[0].update == t.rest[0] && f.sent == f.outstanding
  {
    UnlistedStays(t.batch, u);
    SentAllIs(t, t.rest);
    assert [] + FirstCommands(t.rest) == FirstCommands(t.rest);
    hide SentAll, Without;
  }

  /** With an empty second list, an acceptance or a 410 for another face reports success. */
  lemma EmptyRestSucceeds(t: Sending, u: FibUpdate, nTimeouts: nat)
    requires u.faceId != t.batchFaceId && t.rest == []
    ensures AfterSuccess(t, u).successes > t.successes
            && AfterError(t, u, ERROR_FACE_NOT_FOUND, nTimeouts).successes > t.successes
  {
    UnlistedStays(t.rest, u);
    hide Without;
  }

  /** What a disturbing response does: it takes an update off a list, starts a phase, or calls a callback. */
  lemma DisturbingEffect(q: Queue, e: Event)
    requires InOrder(q) && Enabled(q, e) && Disturbs(q, e)
    ensures var c, t, p := q.runs[e.m].outstanding[e.k], q.runs[|q.runs| - 1], q.started[e.m];
            Spoiling(t, Effect(t, c, e.r), c.update, p.face, q.busy)
  {
    var c, t, p := q.runs[e.m].outstanding[e.k], q.runs[|q.runs| - 1], q.started[|q.runs| - 1];
    var s := t.(outstanding := [], sent := [], successes := 0, failures := 0, threw := false);
    OwnFace(q, e.m, e.k);
    assert Proper(p);
    RestIsElsewhere(t, p);
    hide Consistent, Past, AllPast, Split;
    match e.r
    case Accepted =>
      if c.update.faceId == t.batchFaceId && t.batch == [] {
        PhaseStartsAgain(s, c.update);
        hide AfterSuccess;
      } else if c.update.faceId != t.batchFaceId && t.rest == [] {
        EmptyRestSucceeds(s, c.update, c.nTimeouts);
        hide AfterSuccess;
      } else {
        TakenOffList(s, c.update);
      }
    case Refused(code, _) =>
      if c.update.faceId != t.batchFaceId && t.rest == [] {
        EmptyRestSucceeds(s, c.update, c.nTimeouts);
      }
      hide Without;
  }

  ghost predicate Spoiling(t: Sending, f: Sending, u: FibUpdate, face: FaceId, busy: bool) {
    || (u in t.batch && u !in f.batch) || (u in t.rest && u !in f.rest)
    || f.successes > 0
    || (f.outstanding != [] && f.outstanding[0].update.faceId != face && f.sent == f.outstanding)
    || (busy && f.failures > 0 && f.batch == t.batch && f.rest == t.rest)
  }

  lemma TakenOffList(t: Sending, u: FibUpdate)
    ensures u.faceId == t.batchFaceId ==> u !in AfterSuccess(t, u).batch
    ensures u.faceId != t.batchFaceId ==> u !in AfterSuccess(t, u).rest
  {
    SentAllIs(t.(batch := Without(t.batch, u)), t.rest);
    hide SentAll, FirstCommands;
  }

  lemma RestIsElsewhere(t: Sending, p: Pending)
    requires Accounted(t, p.face, p.batch, p.rest) && Proper(p)
    ensures t.batchFaceId == p.face && forall u :: u in t.rest ==> u.faceId != p.face
  {
  }

  lemma DisturbedIsOutOfOrder(q: Queue, e: Event)
    requires InOrder(q) && Enabled(q, e) && Disturbs(q, e)
    ensures !InOrder(Answered(q, e.m, e.k, e.r))
  {
    var n := |q.runs| - 1;
    var s, t := q.runs[e.m], q.runs[n];
    var c := s.outstanding[e.k];
    var f := Effect(t, c, e.r);
    DisturbingEffect(q, e);
    OwnFace(q, e.m, e.k);
    var t' := t.(batch := f.batch, rest := f.rest, threw := t.threw || f.threw);
    var q1 := q.(runs := q.runs[e.m := Charged(s, e.k, f)][n := t'], fib := FibAfterResponse(q.fib, c, e.r));
    assert Accounted(t, q.started[n].face, q.started[n].batch, q.started[n].rest);
    assert q.busy ==> !Reported(t);
    hide Consistent, Past, AllPast, Accounted, Effect, InOrder, Disturbs, Enabled, Charged, Advanced, FibAfterResponse;
    SpoilingIsOutOfOrder(q1, Released(q1, Reported(f)), s, t, e.m, e.k, f, c.update, q.busy);
  }

  lemma SpoilingIsOutOfOrder(q: Queue, q': Queue, s: Sending, t: Sending, m: nat, k: nat, f: Sending, u: FibUpdate,
                             busy: bool)
    requires |q.started| == |q.runs| && m < |q.runs| - 1 && k < |s.outstanding| && q' == Released(q, Reported(f))
    requires Past(s, q.started[m]) && q.runs[m] == Charged(s, k, f) && (busy ==> !Reported(t))
    requires var n := |q.runs| - 1;
             && Accounted(t, q.started[n].face, q.started[n].batch, q.started[n].rest)
             && q.runs[n] == t.(batch := f.batch, rest := f.rest, threw := t.threw || f.threw)
    requires Spoiling(t, f, u, q.started[m].face, busy)
    ensures !InOrder(q')
  {
    var n := |q.runs| - 1;
    hide Consistent, Past, AllPast, Accounted, InOrder, Charged, Advanced;
    if (u in t.batch && u !in f.batch) || (u in t.rest && u !in f.rest) {
      LostUpdateSpoils(t, q.runs[n], q.started[n], u);
      SpoiltIsOutOfOrder(q, n);
      SpoiltIsOutOfOrder(q.(busy := false), n);
    } else if f.successes > 0
        || (f.outstanding != [] && f.outstanding[0].update.faceId != q.started[m].face && f.sent == f.outstanding) {
      ChargeSpoils(s, q.started[m], k, f);
      PastIsMissing(q, m);
      PastIsMissing(q.(busy := false), m);
    } else {
      UnreportedIsOvertaken(q.(busy := false));
    }
  }

  lemma UnreportedIsNotPast(s: Sending, p: Pending)
    requires !Reported(s)
    ensures !Past(s, p)
  {
    hide Accounted;
  }

  lemma UnreportedIsOvertaken(q: Queue)
    requires |q.started| == |q.runs| && q.runs != [] && !q.busy && !Reported(q.runs[|q.runs| - 1])
    ensures !InOrder(Advanced(q))
  {
    AdvancedKeepsRuns(q);
    UnreportedIsNotPast(q.runs[|q.runs| - 1], q.started[|q.runs| - 1]);
    hide Consistent, Past;
  }

  lemma EmptyIsInOrder(fib: Fib)
    ensures InOrder(EmptyQueue(fib))
  {
  }

  /**
   Main theorem: from a queue in order, every event leaves it in order except a response to a command of an earlier
   batch that disturbs the last one; and that never does.
   */
  lemma StaysInOrderExactly(q: Queue, e: Event)
    requires InOrder(q) && Enabled(q, e)
    ensures InOrder(After(q, e)) <==> !Disturbs(q, e)
  {
    hide InOrder, Answered, Submitted, Advanced, Proper;
    match e
    case Submit(p) =>
      SubmittedStaysInOrder(q, p);
    case Answer(m, k, r) =>
      if m == |q.runs| - 1 {
        OwnStaysInOrder(q, k, r);
      } else if Disturbs(q, e) {
        DisturbedIsOutOfOrder(q, e);
      } else {
        QuietStaysInOrder(q, e);
      }
      hide Disturbs;
  }

  lemma SubmittedStaysInOrder(q: Queue, p: Pending)
    requires InOrder(q) && Proper(p)
    ensures InOrder(Submitted(q, p))
  {
    hide Consistent, Past, Proper, AllPast, Reported;
    if !q.busy {
      AdvancedIsOrderly(q.(waiting := q.waiting + [p]));
    }
  }

  /** Whole runs: every state is in order if and only if no response ever disturbs. */
  lemma QueueRunIsInOrderExactly(qs: seq<Queue>, es: seq<Event>, fib: Fib)
    requires QueueRun(qs, es, fib)
    ensures (forall i :: 0 <= i < |qs| ==> InOrder(qs[i])) <==> (forall i :: 0 <= i < |es| ==> !Disturbs(qs[i], es[i]))
  {
    hide InOrder, Disturbs, After, Enabled;
    if forall i :: 0 <= i < |qs| ==> InOrder(qs[i]) {
      forall i | 0 <= i < |es|
        ensures !Disturbs(qs[i], es[i])
      {
        assert InOrder(qs[i]) && InOrder(qs[i + 1]);
        StaysInOrderExactly(qs[i], es[i]);
      }
    }
    if forall i :: 0 <= i < |es| ==> !Disturbs(qs[i], es[i]) {
      forall i | 0 <= i < |qs|
        ensures InOrder(qs[i])
      {
        UndisturbedIsInOrder(qs, es, fib, i);
      }
    }
  }

  lemma {:induction false} UndisturbedIsInOrder(qs: seq<Queue>, es: seq<Event>, fib: Fib, i: nat)
    requires QueueRun(qs, es, fib) && i <= |es|
    requires forall j :: 0 <= j < i ==> !Disturbs(qs[j], es[j])
    ensures InOrder(qs[i])
  {
    if i > 0 {
      UndisturbedIsInOrder(qs, es, fib, i - 1);
      hide InOrder, Disturbs, After;
      StaysInOrderExactly(qs[i - 1], es[i - 1]);
    }
  }

  // ---- What order means for each batch ----

  lemma PastOutcomes(s: Sending, p: Pending)
    requires Past(s, p)
    ensures Outcomes(s, p.face, p.batch, p.rest) && Reported(s)
  {
  }

  /** In a queue in order every batch meets the guarantees of one alone, and all but the last have been reported. */
  lemma InOrderOutcomes(q: Queue, m: nat)
    requires InOrder(q) && m < |q.runs|
    ensures Outcomes(q.runs[m], q.started[m].face, q.started[m].batch, q.started[m].rest)
    ensures m < |q.runs| - 1 ==> Reported(q.runs[m])
  {
    var p := q.started[m];
    if m < |q.runs| - 1 {
      assert Past(q.runs[m], p);
      PastOutcomes(q.runs[m], p);
    } else {
      ConsistentOutcomes(q.runs[m], p.face, p.batch, p.rest);
    }
    hide Past, Consistent, Outcomes;
  }

  /**
   The event sends the first command for another face of the batch in progress before that batch's own face is done.
   */
  ghost predicate SendsEarly(q: Queue, q': Queue) {
    var n := |q.runs| - 1;
    && |q.started| == |q.runs| <= |q'.runs|
    && (exists m :: 0 <= m <= n && NewFirst(q.runs[m].sent, q'.runs[m].sent, q.started[n].rest))
    && (n >= 0 ==> exists u :: u in q.started[n].batch && u !in q'.runs[n].accepted)
  }

  /** sent' goes beyond sent with the first command of one of these updates. */
  ghost predicate NewFirst(sent: seq<Command>, sent': seq<Command>, rest: seq<FibUpdate>) {
    exists i :: |sent| <= i < |sent'| && First(sent'[i], rest)
  }

  predicate First(c: Command, rest: seq<FibUpdate>) {
    c.nTimeouts == 0 && c.update in rest
  }

  /** An earlier batch's command is accepted for the only update left on the first list. */
  ghost predicate TakesLast(q: Queue, e: Event)
    requires Enabled(q, e)
  {
    && e.Answer? && e.m < |q.runs| - 1 && e.r == Accepted
    && var t := q.runs[|q.runs| - 1];
       t.batch == [q.runs[e.m].outstanding[e.k].update] && t.rest != [] && t.batch[0].faceId == t.batchFaceId
  }

  /** Which first commands a response makes the updater send. */
  lemma EffectSends(t: Sending, c: Command, r: Response)
    ensures var f := Effect(t, c, r);
            if r == Accepted && c.update.faceId == t.batchFaceId && Without(t.batch, c.update) == []
            then f.sent == FirstCommands(t.rest)
            else forall i :: 0 <= i < |f.sent| ==> f.sent[i].nTimeouts > 0
  {
    var s := t.(outstanding := [], sent := [], successes := 0, failures := 0, threw := false);
    match r
    case Accepted =>
      SuccessSends(s, c.update);
      hide AfterSuccess, Without, FirstCommands;
    case Refused(_, _) =>
      hide Without;
  }

  lemma SuccessSends(t: Sending, u: FibUpdate)
    requires t.sent == []
    ensures AfterSuccess(t, u).sent ==
            if u.faceId == t.batchFaceId && Without(t.batch, u) == [] then FirstCommands(t.rest) else []
  {
    if u.faceId == t.batchFaceId && Without(t.batch, u) == [] {
      SentAllIs(t.(batch := []), t.rest);
      assert [] + FirstCommands(t.rest) == FirstCommands(t.rest);
    }
    hide SentAll, Without, FirstCommands;
  }

  lemma OnlyOneListed(l: seq<FibUpdate>, u: FibUpdate)
    requires NoDuplicates(l) && Without(l, u) == [] && l != []
    ensures l == [u]
  {
    assert forall x :: x in l && x != u ==> x in Without(l, u);
    forall i | 0 <= i < |l|
      ensures l[i] == u
    {
      assert l[i] in l;
    }
  }

  /** What an answer leaves as it was, and what it makes the batch of its command send. */
  lemma AfterAnswer(q: Queue, e: Event)
    requires Enabled(q, e) && e.Answer? && |q.started| == |q.runs|
    ensures var n, s := |q.runs| - 1, q.runs[e.m];
            var q' := After(q, e);
            && |q.runs| <= |q'.runs| && q.started <= q'.started && |q'.started| == |q'.runs|
            && (forall m :: 0 <= m <= n && m != e.m ==> q'.runs[m].sent == q.runs[m].sent)
            && (e.m < n ==> q'.runs[n].accepted == q.runs[n].accepted
                            && q'.runs[e.m].sent == s.sent + Effect(q.runs[n], s.outstanding[e.k], e.r).sent)
  {
    var n, s := |q.runs| - 1, q.runs[e.m];
    if e.m == n {
      var s' := Responded(s.(fib := q.fib), e.k, e.r);
      AdvancedKeepsRuns(q.(runs := q.runs[n := s'], fib := s'.fib, busy := false));
      hide Responded, Advanced;
    } else {
      var f := Effect(q.runs[n], s.outstanding[e.k], e.r);
      hide Effect, Advanced, FibAfterResponse, Reported;
      var t' := q.runs[n].(batch := f.batch, rest := f.rest, threw := q.runs[n].threw || f.threw);
      var q1 := q.(runs := q.runs[e.m := Charged(s, e.k, f)][n := t'],
                   fib := FibAfterResponse(q.fib, s.outstanding[e.k], e.r));
      ReleasedKeepsRuns(q1, Reported(f));
      assert q1.runs[e.m].sent == s.sent + f.sent && q1.runs[n].accepted == q.runs[n].accepted;
    }
  }

  lemma ReleasedKeepsRuns(q: Queue, called: bool)
    requires |q.started| == |q.runs|
    ensures var q' := Released(q, called); q.runs <= q'.runs && q.started <= q'.started && |q'.started| == |q'.runs|
  {
    AdvancedKeepsRuns(q.(busy := false));
    hide Advanced;
  }

  /** The phases of the batch in progress are swapped by exactly those responses. */
  lemma PhasesSwapExactly(q: Queue, e: Event)
    requires InOrder(q) && Enabled(q, e) && e.Answer?
    ensures SendsEarly(q, After(q, e)) <==> TakesLast(q, e)
  {
    hide After, SendsEarly;
    if e.m == |q.runs| - 1 {
      OwnNeverSendsEarly(q, e);
    } else {
      EarlierAnswerSendsEarly(q, e);
    }
    AfterAnswer(q, e);
    hide InOrder;
  }

  lemma EarlierAnswerSendsEarly(q: Queue, e: Event)
    requires InOrder(q) && Enabled(q, e) && e.Answer? && e.m < |q.runs| - 1
    ensures SendsEarly(q, After(q, e)) <==> TakesLast(q, e)
  {
    var n := |q.runs| - 1;
    var c, p := q.runs[e.m].outstanding[e.k], q.started[n];
    assert Accounted(q.runs[n], p.face, p.batch, p.rest);
    hide Effect, FirstCommands, After, Accounted, InOrder, SendsEarly;
    AfterAnswer(q, e);
    EffectSends(q.runs[n], c, e.r);
    EarlierSendsEarly(q, After(q, e), e.m, c, e.r == Accepted, Effect(q.runs[n], c, e.r).sent);
  }

  lemma OwnNeverSendsEarly(q: Queue, e: Event)
    requires InOrder(q) && Enabled(q, e) && e.Answer? && e.m == |q.runs| - 1
    ensures !SendsEarly(q, After(q, e))
  {
    var n, q' := |q.runs| - 1, After(q, e);
    OwnStaysInOrder(q, e.k, e.r);
    assert InOrder(q');
    assert Proper(q.started[n]);
    hide InOrder, After, Enabled, Outcomes;
    AfterAnswer(q, e);
    InOrderOutcomes(q', n);
    NothingEarly(q, q');
  }

  lemma NothingEarly(q: Queue, q': Queue)
    requires |q.started| == |q.runs| <= |q'.runs| && q.runs != []
    requires var n := |q.runs| - 1;
             && (forall m :: 0 <= m < n ==> q'.runs[m].sent == q.runs[m].sent) && Proper(q.started[n])
             && Outcomes(q'.runs[n], q.started[n].face, q.started[n].batch, q.started[n].rest)
    ensures !SendsEarly(q, q')
  {
    var n := |q.runs| - 1;
    forall m | 0 <= m <= n && NewFirst(q.runs[m].sent, q'.runs[m].sent, q.started[n].rest)
      ensures forall u :: u in q.started[n].batch ==> u in q'.runs[n].accepted
    {
      var i :| |q.runs[m].sent| <= i < |q'.runs[m].sent| && First(q'.runs[m].sent[i], q.started[n].rest);
      assert m == n && q'.runs[n].sent[i].update.faceId != q.started[n].face;
    }
  }

  /** A response to a command of an earlier batch m makes the updater send `sent`. */
  lemma EarlierSendsEarly(q: Queue, q': Queue, m: nat, c: Command, accepted: bool, sent: seq<Command>)
    requires |q.started| == |q.runs| <= |q'.runs| && m < |q.runs| - 1
    requires var n := |q.runs| - 1;
             && Accounted(q.runs[n], q.started[n].face, q.started[n].batch, q.started[n].rest)
             && (forall x :: 0 <= x <= n && x != m ==> q'.runs[x].sent == q.runs[x].sent)
             && q'.runs[n].accepted == q.runs[n].accepted && q'.runs[m].sent == q.runs[m].sent + sent
             && SentBy(q.runs[n], c, accepted, sent)
    ensures var t := q.runs[|q.runs| - 1];
            SendsEarly(q, q')
            <==> accepted && t.batch == [c.update] && t.rest != [] && t.batch[0].faceId == t.batchFaceId
  {
    var n, s := |q.runs| - 1, q.runs[m];
    var t, p := q.runs[n], q.started[n];
    EarlyMeansLast(t, p, c, accepted, sent);
    NewAmong(s.sent, sent, p.rest);
    hide Accounted, SentBy, NewFirst;
    assert forall x :: 0 <= x <= n && x != m ==> !NewFirst(q.runs[x].sent, q'.runs[x].sent, p.rest) by {
      NothingNew(q, q', m, p.rest);
    }
  }

  lemma NewAmong(sent: seq<Command>, more: seq<Command>, rest: seq<FibUpdate>)
    ensures NewFirst(sent, sent + more, rest) <==> exists j :: 0 <= j < |more| && First(more[j], rest)
  {
    if j :| 0 <= j < |more| && First(more[j], rest) {
      assert (sent + more)[|sent| + j] == more[j];
    }
    hide First;
  }

  lemma NothingNew(q: Queue, q': Queue, m: nat, rest: seq<FibUpdate>)
    requires |q.runs| <= |q'.runs| && forall x :: 0 <= x < |q.runs| && x != m ==> q'.runs[x].sent == q.runs[x].sent
    ensures forall x :: 0 <= x < |q.runs| && x != m ==> !NewFirst(q.runs[x].sent, q'.runs[x].sent, rest)
  {
  }

  ghost predicate SentBy(t: Sending, c: Command, accepted: bool, sent: seq<Command>) {
    if accepted && c.update.faceId == t.batchFaceId && Without(t.batch, c.update) == []
    then sent == FirstCommands(t.rest)
    else forall i :: 0 <= i < |sent| ==> sent[i].nTimeouts > 0
  }

  lemma EarlyMeansLast(t: Sending, p: Pending, c: Command, accepted: bool, sent: seq<Command>)
    requires Accounted(t, p.face, p.batch, p.rest) && SentBy(t, c, accepted, sent)
    ensures (exists j :: 0 <= j < |sent| && First(sent[j], p.rest)) && (exists u :: u in p.batch && u !in t.accepted)
            <==> accepted && t.batch == [c.update] && t.rest != [] && t.batch[0].faceId == t.batchFaceId
  {
    if accepted && t.batch == [c.update] && t.rest != [] && t.batch[0].faceId == t.batchFaceId {
      assert Without([c.update], c.update) == [];
      assert First(sent[0], p.rest);
      assert c.update in p.batch && c.update !in t.accepted;
    }
    if u :| u in p.batch && u !in t.accepted {
      assert u in t.batch;
      if Without(t.batch, c.update) == [] {
        OnlyOneListed(t.batch, c.update);
      }
    }
    hide Without, NoDuplicates;
  }

  // ---- When order is never lost ----

  /** No command of a reported batch is without a response. */
  ghost predicate Settled(q: Queue) {
    forall m :: 0 <= m < |q.runs| - 1 ==> q.runs[m].outstanding == []
  }

  ghost predicate Small(p: Pending) {
    |p.batch| <= 1
  }

  /** A failed batch with one command for its own face has nothing outstanding. */
  lemma SmallFailureSettles(s: Sending, p: Pending)
    requires Consistent(s, p.face, p.batch, p.rest) && Reported(s) && Small(p)
    ensures s.outstanding == []
  {
    if s.failures > 0 {
      var u :| u in s.refused;
      assert p.batch == [u];
      assert forall v :: v in s.batch ==> v == u;
      if s.outstanding != [] {
        assert Waiting(s, s.outstanding[0].update);
      }
    } else {
      LastIsAlone(s);
    }
  }

  ghost predicate AllSmall(q: Queue) {
    forall p :: p in q.started || p in q.waiting ==> Small(p)
  }

  lemma BegunIsSmall(q: Queue)
    requires AllSmall(q) && q.waiting != []
    ensures AllSmall(Begun(q))
  {
    hide Small, Started;
    assert forall p :: p in Begun(q).started ==> p in q.started || p == q.waiting[0];
    assert forall p :: p in q.waiting[1..] ==> p in q.waiting;
  }

  lemma OneMoreSettled(q: Queue)
    requires Settled(q) && q.waiting != [] && (q.runs != [] ==> q.runs[|q.runs| - 1].outstanding == [])
    ensures Settled(Begun(q))
  {
    hide Started;
  }

  lemma BegunIsSettled(q: Queue)
    requires Free(q) && Settled(q) && AllSmall(q) && q.waiting != []
    ensures Settled(Begun(q)) && AllSmall(Begun(q))
  {
    var n := |q.runs| - 1;
    if n >= 0 {
      assert Small(q.started[n]);
      SmallFailureSettles(q.runs[n], q.started[n]);
    }
    hide Past, Consistent, Proper, Reported, AllPast, Started, Small, Settled, AllSmall, Begun;
    BegunIsSmall(q);
    OneMoreSettled(q);
  }

  lemma {:induction false} AdvancedIsSettled(q: Queue)
    requires Free(q) && Settled(q) && AllSmall(q)
    ensures Settled(Advanced(q)) && AllSmall(Advanced(q))
    decreases |q.waiting|
  {
    if q.waiting != [] {
      BegunIsSettled(q);
      BegunIsOrderly(q);
      hide Free, InOrder, Reported, Begun;
      if Reported(Begun(q).runs[|q.runs|]) {
        SettledAnyway(Begun(q), false);
        AdvancedIsSettled(Begun(q).(busy := false));
      }
      hide Settled, AllSmall;
    }
  }

  lemma SettledAnyway(q: Queue, busy: bool)
    requires Settled(q) && AllSmall(q)
    ensures Settled(q.(busy := busy)) && AllSmall(q.(busy := busy))
  {
  }

  lemma OwnStaysSettled(q: Queue, k: nat, r: Response)
    requires InOrder(q) && Settled(q) && AllSmall(q) && q.runs != [] && !Threw(q)
            && k < |q.runs[|q.runs| - 1].outstanding|
    ensures var q' := Answered(q, |q.runs| - 1, k, r); InOrder(q') && Settled(q') && AllSmall(q')
  {
    var n := |q.runs| - 1;
    var s, p := q.runs[n].(fib := q.fib), q.started[n];
    OwnStaysInOrder(q, k, r);
    assert Proper(p);
    FibDoesNotMatter(q.runs[n], q.fib, p);
    RespondedIsConsistent(s, k, r, p.face, p.batch, p.rest);
    RespondedFrame(s, k, r);
    hide Responded, Consistent, Proper;
    var s' := Responded(s, k, r);
    LastStaysSettled(q, s');
    hide InOrder, Settled, AllSmall;
  }

  lemma LastStaysSettled(q: Queue, s': Sending)
    requires InOrder(q) && Settled(q) && AllSmall(q) && q.runs != []
    requires var n := |q.runs| - 1;
             && Consistent(s', q.started[n].face, q.started[n].batch, q.started[n].rest)
             && s'.successes >= q.runs[n].successes && s'.failures >= q.runs[n].failures
    ensures var n := |q.runs| - 1;
            var q' := Released(q.(runs := q.runs[n := s'], fib := s'.fib),
                               s'.successes > q.runs[n].successes || s'.failures > q.runs[n].failures);
            Settled(q') && AllSmall(q')
  {
    var n := |q.runs| - 1;
    var q1 := q.(runs := q.runs[n := s'], fib := s'.fib);
    SamePast(q.runs, q1.runs, q.started, n);
    hide Consistent, Past, Proper, AllPast, Small;
    assert Settled(q1) && AllSmall(q1);
    if s'.successes > q.runs[n].successes || s'.failures > q.runs[n].failures {
      assert Free(q1.(busy := false));
      SettledAnyway(q1, false);
      AdvancedIsSettled(q1.(busy := false));
    }
    hide Free, InOrder, Advanced, Settled, AllSmall;
  }

  lemma SubmittedStaysSettled(q: Queue, p: Pending)
    requires InOrder(q) && Settled(q) && AllSmall(q) && Proper(p) && Small(p)
    ensures Settled(Submitted(q, p)) && AllSmall(Submitted(q, p))
  {
    var q1 := q.(waiting := q.waiting + [p]);
    hide Consistent, Past, Proper, AllPast, Small, Reported;
    assert Settled(q1) && AllSmall(q1);
    if !q.busy {
      assert Free(q1);
      AdvancedIsSettled(q1);
    }
    hide Free, InOrder, Settled, AllSmall;
  }

  lemma {:induction false} SmallPrefix(qs: seq<Queue>, es: seq<Event>, fib: Fib, i: nat)
    requires QueueRun(qs, es, fib) && i <= |es|
    requires forall j :: 0 <= j < |es| && es[j].Submit? ==> Small(es[j].p)
    ensures InOrder(qs[i]) && Settled(qs[i]) && AllSmall(qs[i])
  {
    if i > 0 {
      SmallPrefix(qs, es, fib, i - 1);
      var q, e := qs[i - 1], es[i - 1];
      assert Enabled(q, e) && qs[i - 1 + 1] == After(q, e);
      assert e.Answer? ==> e.m == |q.runs| - 1 by {
        hide InOrder, AllSmall;
      }
      hide InOrder, Settled, AllSmall, Small, Answered, Submitted, QueueRun;
      match e
      case Submit(p) =>
        SubmittedStaysInOrder(q, p);
        SubmittedStaysSettled(q, p);
      case Answer(m, k, r) =>
        OwnStaysSettled(q, k, r);
    }
  }

  /**
   Batches with at most one command for their own face never get in each other's way: in every state of every run each
   of them meets the guarantees of a batch alone.
   */
  lemma SmallBatchesKeepOrder(qs: seq<Queue>, es: seq<Event>, fib: Fib)
    requires QueueRun(qs, es, fib) && forall j :: 0 <= j < |es| && es[j].Submit? ==> |es[j].p.batch| <= 1
    ensures forall i :: 0 <= i < |qs| ==> InOrder(qs[i])
  {
    forall i | 0 <= i < |qs|
      ensures InOrder(qs[i])
    {
      SmallPrefix(qs, es, fib, i);
    }
    hide InOrder;
  }
}
