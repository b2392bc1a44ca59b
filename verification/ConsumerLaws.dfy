/** What single events mean in a run: which number is sent next, what expires and what is measured. */
module ConsumerLaws {
  import opened Wrappers
  import opened Rtt
  import opened Consumers
  import opened ConsumerRuns

  // ---- Sending ----

  lemma RetransmissionsAreNumbers(w: World, start: nat)
    requires Inv(w, start)
    ensures forall q :: q in w.tables.retxSeqs ==> q < UINT32_MAX && q in w.log.sends
    ensures w.tables.seqNo !in w.log.sends && w.tables.seqNo <= UINT32_MAX
  {
    hide Tabulated, Karn, Sampled;
  }

  /**
   While anything awaits retransmission a send of an active consumer takes the least such number, also at the limit.
   Otherwise it takes the next new number, unless the limit is reached: then nothing changes.
   */
  lemma SendPicksLowest(c: Config, w: World, start: nat, seqMax: nat, now: Time) returns (q: Seq)
    requires Inv(w, start) && w.tables.seqNo < UINT32_MAX && w.tables.active
    ensures var t, sends, w' := w.tables, w.log.sends, AfterEvent(c, seqMax, w, Send(now));
            if t.retxSeqs != {} then
              && IsLeast(t.retxSeqs, q) && w'.tables.retxSeqs == t.retxSeqs - {q} && w'.tables.seqNo == t.seqNo
              && q in sends && w'.log.sends == sends[q := sends[q] + 1] && w'.tables.active
            else if seqMax != 0xFFFF_FFFF && t.seqNo >= seqMax then w' == w
            else
              && q == t.seqNo && w'.tables.seqNo == t.seqNo + 1 && w'.tables.retxSeqs == {} && w'.tables.active
              && q !in sends && w'.log.sends == sends[q := 1]
  {
    hide *;
    RetransmissionsAreNumbers(w, start);
    q := PickedLowest(w.tables, seqMax);
    SentWorld(c, w, seqMax, now);
  }

  lemma PickedLowest(t: Tables, seqMax: nat) returns (q: Seq)
    requires t.seqNo < UINT32_MAX && forall x :: x in t.retxSeqs ==> x < UINT32_MAX
    ensures Picked(t, seqMax) ==
            if t.retxSeqs != {} then (t.(retxSeqs := t.retxSeqs - {q}), Some(q))
            else if seqMax != 0xFFFF_FFFF && t.seqNo >= seqMax then (t, None)
            else (t.(seqNo := t.seqNo + 1), Some(q))
    ensures if t.retxSeqs != {} then IsLeast(t.retxSeqs, q) else q == t.seqNo
  {
    q := if t.retxSeqs != {} then Least(t.retxSeqs) else t.seqNo;
  }

  lemma SentWorld(c: Config, w: World, seqMax: nat, now: Time)
    requires w.tables.active
    ensures var (t1, q) := Picked(w.tables, seqMax);
            var w' := AfterEvent(c, seqMax, w, Send(now));
            if q.None? then w'.tables == t1 && w'.log == w.log
            else
              && w'.tables.retxSeqs == t1.retxSeqs && w'.tables.seqNo == t1.seqNo && w'.tables.active == t1.active
              && w'.log.sends ==
                 w.log.sends[q.value := 1 + if q.value in w.log.sends then w.log.sends[q.value] else 0]
  {
    hide Picked, Noted, Inserted;
  }

  /**
   k sends in a row, while k numbers or more await retransmission: the k lowest of them have been sent once more, and
   nothing else has been sent.
   */
  lemma {:induction false} LowestAreResent(c: Config, w: World, start: nat, seqMax: nat, es: seq<Event>)
    returns (low: set<Seq>)
    requires Inv(w, start) && w.tables.seqNo < UINT32_MAX && w.tables.active
    requires |es| <= |w.tables.retxSeqs| && forall e :: e in es ==> e.Send?
    ensures low <= w.tables.retxSeqs && |low| == |es|
    ensures forall x, y :: x in low && y in w.tables.retxSeqs - low ==> x < y
    ensures var w' := AfterEvents(c, seqMax, w, es);
            && w'.tables.retxSeqs == w.tables.retxSeqs - low && w'.tables.seqNo == w.tables.seqNo && w'.tables.active
            && w'.log.sends.Keys == w.log.sends.Keys
            && forall q :: q in w.log.sends ==> w'.log.sends[q] == w.log.sends[q] + if q in low then 1 else 0
    ensures Inv(AfterEvents(c, seqMax, w, es), start)
  {
    hide Inv, AfterEvent;
    var k := |es| - 1;
    if k < 0 {
      low := {};
    } else {
      low := LowestAreResent(c, w, start, seqMax, es[..k]);
      var w1 := AfterEvents(c, seqMax, w, es[..k]);
      assert es[k] in es && es[k].Send?;
      EventKeepsInv(c, w1, start, seqMax, es[k]);
      var q := SendPicksLowest(c, w1, start, seqMax, es[k].now);
      SmallerLeavesSome(low, w.tables.retxSeqs);
      assert w1.tables.retxSeqs == w.tables.retxSeqs - low;
      forall x, y | x in low + {q} && y in w.tables.retxSeqs - (low + {q})
        ensures x < y
      {
        assert y in w1.tables.retxSeqs;
      }
      low := low + {q};
    }
  }

  lemma SmallerLeavesSome(a: set<Seq>, b: set<Seq>)
    requires a <= b && |a| < |b|
    ensures b - a != {}
  {
    assert b == a + (b - a);
  }

  // ---- The time of the last send ----

  /** The timer table and the last-delay table hold the time of the last send. */
  ghost predicate TimedByLast(w: World) {
    && (forall q :: q in w.tables.seqTimeouts ==> q in w.log.lastSent && w.tables.seqTimeouts[q] == w.log.lastSent[q])
    && (forall q :: q in w.tables.seqLastDelay ==>
          q in w.log.lastSent && w.tables.seqLastDelay[q] == w.log.lastSent[q])
  }

  lemma SendKeepsTimes(c: Config, w: World, start: nat, seqMax: nat, now: Time)
    requires Inv(w, start) && TimedByLast(w) && w.tables.seqNo < UINT32_MAX
    ensures TimedByLast(AfterEvent(c, seqMax, w, Send(now)))
  {
    PickedPending(w, start, seqMax);
    hide Inv, Noted, Picked, Inserted, TimedByLast;
    var t, q := w.tables, Picked(w.tables, seqMax).1;
    if t.active && q.Some? {
      RecordedTimes(w, Picked(t, seqMax).0, q.value, now);
    }
  }

  lemma RecordedTimes(w: World, t: Tables, q: Seq, now: Time)
    requires TimedByLast(w) && q !in w.tables.seqTimeouts
    requires t.seqTimeouts == w.tables.seqTimeouts && t.seqLastDelay == w.tables.seqLastDelay
    ensures TimedByLast(World(Recorded(t, q, now), LogSend(w.log, q, now)))
  {
    hide Noted;
  }

  lemma DataKeepsTimes(c: Config, w: World, seqMax: nat, q: Seq, now: Time)
    requires TimedByLast(w)
    ensures TimedByLast(AfterEvent(c, seqMax, w, Data(q, now)))
  {
    hide Sample, Measured, Dropped;
  }

  lemma SweepKeepsTimes(c: Config, w: World, seqMax: nat, now: Time)
    requires TimedByLast(w)
    ensures TimedByLast(AfterEvent(c, seqMax, w, Sweep(now)))
  {
    hide Marked, BackoffTimes, Expired, Rto;
  }

  lemma EventKeepsTimes(c: Config, w: World, start: nat, seqMax: nat, e: Event)
    requires Inv(w, start) && TimedByLast(w) && (e.Send? ==> w.tables.seqNo < UINT32_MAX)
    ensures TimedByLast(AfterEvent(c, seqMax, w, e))
  {
    match e
    case Send(now) => SendKeepsTimes(c, w, start, seqMax, now);
    case Data(q, now) => DataKeepsTimes(c, w, seqMax, q, now);
    case Sweep(now) => SweepKeepsTimes(c, w, seqMax, now);
    case Activate(on) =>
  }

  lemma {:induction false} RunKeepsTimes(c: Config, w: World, start: nat, seqMax: nat, es: seq<Event>)
    requires Inv(w, start) && TimedByLast(w) && NoWrap(c, seqMax, w, es)
    ensures TimedByLast(AfterEvents(c, seqMax, w, es))
  {
    hide Inv, TimedByLast, AfterEvent, NoWrap;
    if |es| > 0 {
      var k := |es| - 1;
      NoWrapPrefix(c, seqMax, w, es);
      RunKeepsTimes(c, w, start, seqMax, es[..k]);
      RunKeepsInv(c, w, start, seqMax, es[..k]);
      EventKeepsTimes(c, AfterEvents(c, seqMax, w, es[..k]), start, seqMax, es[k]);
    }
  }

  // ---- The sweep ----

  /** A sweep moves to the retransmissions exactly the waiting numbers last sent a full timeout ago or earlier. */
  lemma SweepExpiresExactly(c: Config, w: World, seqMax: nat, now: Time, q: Seq)
    requires TimedByLast(w)
    ensures var t, t' := w.tables, AfterEvent(c, seqMax, w, Sweep(now)).tables;
            var expires := q in t.seqTimeouts && w.log.lastSent[q] + Rto(c, t.estimate) <= now;
            && (q in t'.retxSeqs <==> q in t.retxSeqs || expires)
            && (q in t'.seqTimeouts <==> q in t.seqTimeouts && !expires)
  {
    hide Rto, Marked, BackoffTimes;
  }

  /** Every number that expires doubles the multiplier, up to the maximum. */
  lemma SweepBacksOff(c: Config, w: World, seqMax: nat, now: Time)
    requires w.tables.estimate.multiplier <= c.maxMultiplier
    ensures var e, e' := w.tables.estimate, AfterEvent(c, seqMax, w, Sweep(now)).tables.estimate;
            var k := |Expired(w.tables.seqTimeouts, Rto(c, e), now)|;
            && e' == e.(multiplier := e'.multiplier)
            && e'.multiplier == if Doubled(e.multiplier, k) < c.maxMultiplier then Doubled(e.multiplier, k)
                                else c.maxMultiplier
  {
    var e := w.tables.estimate;
    BackoffIsBounded(e.multiplier, c.maxMultiplier, |Expired(w.tables.seqTimeouts, Rto(c, e), now)|);
    hide Rto, Marked, BackoffTimes, Doubled, Expired;
  }

  // ---- Data ----

  /** Data settles an issued number and no other; what was sent stays sent. */
  lemma DataSettles(c: Config, w: World, start: nat, seqMax: nat, q: Seq, now: Time)
    requires Inv(w, start)
    ensures var w' := AfterEvent(c, seqMax, w, Data(q, now));
            if !w.tables.active then w' == w
            else
              && Pending(w'.tables) == Pending(w.tables) - {q} && w'.log.sends == w.log.sends
              && w'.log.satisfied == w.log.satisfied + (if start <= q < w.tables.seqNo then {q} else {})
              && w'.tables.seqNo == w.tables.seqNo
  {
    if w.tables.active {
      AnsweredWaiting(c, w.tables, q, now);
    }
    hide Tabulated, Karn, Sampled, Conserved, Sample, Measured, Dropped, Pending;
  }

  lemma SampleExactly(h: seq<RttHistory>, pending: set<Seq>, firstSent: map<Seq, Time>, timedOut: set<Seq>, q: Seq,
                      now: Time)
    requires Karn(h, pending, firstSent, timedOut)
    ensures Sample(h, q, now).Some? <==> q in pending && q !in timedOut
    ensures q in pending ==> q in firstSent
    ensures q in pending && q !in timedOut ==> Sample(h, q, now) == Some(now - firstSent[q])
  {
    if q in pending {
      var i :| 0 <= i < |h| && h[i].seqNo == q;
    }
    if IndexOf(h, q) < |h| {
      assert h[IndexOf(h, q)].seqNo in Numbers(h);
    }
  }

  /**
   Data is measured exactly when its number is pending and never timed out: from the first send, with the backoff
   reset. Any other Data leaves the estimate alone.
   */
  lemma DataIsMeasuredExactly(c: Config, w: World, start: nat, seqMax: nat, q: Seq, now: Time)
    requires Inv(w, start)
    ensures var e, e' := w.tables.estimate, AfterEvent(c, seqMax, w, Data(q, now)).tables.estimate;
            if w.tables.active && q in Pending(w.tables) && q !in w.log.timedOut then
              q in w.log.firstSent && e' == Measured(c, e, now - w.log.firstSent[q]).(multiplier := 1)
            else e' == e
  {
    MeasuredByData(c, w, seqMax, q, now);
    hide AfterEvent, Sample, Measured, Pending, Conserved, Tabulated, Logged, Sampled;
    SampleExactly(w.tables.history, Pending(w.tables), w.log.firstSent, w.log.timedOut, q, now);
  }

  lemma MeasuredByData(c: Config, w: World, seqMax: nat, q: Seq, now: Time)
    ensures var sample := Sample(w.tables.history, q, now);
            AfterEvent(c, seqMax, w, Data(q, now)).tables.estimate ==
                if w.tables.active && sample.Some? then Measured(c, w.tables.estimate, sample.value).(multiplier := 1)
                else w.tables.estimate
  {
    hide Sample, Measured, Dropped, LogData;
  }
}
