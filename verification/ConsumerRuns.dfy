/** What every interleaving of sends, Data and timer sweeps keeps in a base Consumer. */
module ConsumerRuns {
  import opened Wrappers
  import opened Rtt
  import opened Consumers

  datatype Event = Send(now: Time) | Data(q: Seq, now: Time) | Sweep(now: Time) | Activate(on: bool)

  datatype Measurement = Measurement(q: Seq, value: Time, at: Time)

  /** What an observer of the run has seen so far. */
  datatype Log = Log(
    satisfied: set<Seq>,           // issued numbers whose Data arrived
    sends: map<Seq, nat>,          // how often each issued number was sent
    firstSent: map<Seq, Time>,
    lastSent: map<Seq, Time>,
    timedOut: set<Seq>,            // numbers that timed out at least once
    samples: set<Measurement>)     // arguments of RttMeanDeviation::Measurement

  datatype World = World(tables: Tables, log: Log)

  function AfterEvent(c: Config, seqMax: nat, w: World, e: Event): World {
    var t := w.tables;
    var l := w.log;
    match e
    case Send(now) =>
      var q := if t.active then Picked(t, seqMax).1 else None;
      World(AfterSend(t, seqMax, now), if q.None? then l else LogSend(l, q.value, now))
    case Data(q, now) =>
      if !t.active then w else World(AfterData(c, t, q, now), LogData(l, q, Sample(t.history, q, now), now))
    case Sweep(now) =>
      World(AfterSweep(c, t, now), l.(timedOut := l.timedOut + Expired(t.seqTimeouts, Rto(c, t.estimate), now)))
    case Activate(on) =>
      World(t.(active := on), l)
  }

  function LogSend(l: Log, q: Seq, now: Time): Log {
    l.(sends := l.sends[q := 1 + if q in l.sends then l.sends[q] else 0],
       firstSent := if q in l.firstSent then l.firstSent else l.firstSent[q := now],
       lastSent := l.lastSent[q := now])
  }

  function LogData(l: Log, q: Seq, sample: Option<Time>, now: Time): Log {
    l.(satisfied := if q in l.sends then l.satisfied + {q} else l.satisfied,
       samples := if sample.Some? then l.samples + {Measurement(q, sample.value, now)} else l.samples)
  }

  function AfterEvents(c: Config, seqMax: nat, w: World, es: seq<Event>): World {
    if |es| == 0 then w else AfterEvent(c, seqMax, AfterEvents(c, seqMax, w, es[..|es| - 1]), es[|es| - 1])
  }

  /** m_seq never wraps: an unlimited consumer issues fewer than 2^32 numbers. */
  ghost predicate NoWrap(c: Config, seqMax: nat, w: World, es: seq<Event>) {
    forall i :: 0 <= i < |es| && es[i].Send? ==> AfterEvents(c, seqMax, w, es[..i]).tables.seqNo < UINT32_MAX
  }

  function Fresh(c: Config, start: nat, initialEstimate: Time): World {
    World(Tables(true, start, {}, map[], map[], map[], map[], Estimate(initialEstimate, 0.0, 0, 1), []),
          Log({}, map[], map[], map[], {}, {}))
  }

  // ---- The invariant ----

  function Pending(t: Tables): set<Seq> {
    t.seqTimeouts.Keys + t.retxSeqs
  }

  /** The issued numbers split exactly into satisfied, waiting and to be retransmitted. */
  ghost predicate Conserved(start: nat, seqNo: nat, satisfied: set<Seq>, waiting: set<Seq>, retx: set<Seq>) {
    && start <= seqNo <= UINT32_MAX
    && (forall q :: start <= q < seqNo <==> q in satisfied || q in waiting || q in retx)
    && (forall q :: q in satisfied ==> q !in waiting && q !in retx)
    && (forall q :: q in waiting ==> q !in retx)
  }

  /**
   The delay tables and the counts have exactly the pending numbers as keys, and say when and how often those were sent.
   */
  ghost predicate Tabulated(pending: set<Seq>, fullDelay: map<Seq, Time>, lastDelay: set<Seq>, counts: map<Seq, nat>,
                            sends: map<Seq, nat>, firstSent: map<Seq, Time>) {
    && sends.Keys == firstSent.Keys && pending <= sends.Keys
    && fullDelay.Keys == pending && lastDelay == pending && counts.Keys == pending
    && (forall q :: q in pending ==> counts[q] == sends[q] && fullDelay[q] == firstSent[q])
  }

  /** The RTT history holds exactly the pending numbers, flagged once they have timed out. */
  ghost predicate Karn(h: seq<RttHistory>, pending: set<Seq>, firstSent: map<Seq, Time>, timedOut: set<Seq>) {
    && Distinct(h)
    && Numbers(h) == pending
    && (forall i :: 0 <= i < |h| ==> h[i].seqNo in firstSent && h[i].time == firstSent[h[i].seqNo])
    && (forall i :: 0 <= i < |h| ==> (h[i].retx <==> h[i].seqNo in timedOut))
  }

  ghost predicate Logged(start: nat, seqNo: nat, retx: set<Seq>, l: Log) {
    && (forall q :: q in l.sends <==> start <= q < seqNo)
    && (forall q :: q in l.sends && q !in l.timedOut ==> l.sends[q] == 1)
    && retx <= l.timedOut <= l.sends.Keys
  }

  /** Only numbers sent once that never timed out are measured, from their first send. */
  ghost predicate Sampled(l: Log) {
    forall m :: m in l.samples ==>
      && m.q in l.satisfied && m.q in l.sends && m.q in l.firstSent
      && l.sends[m.q] == 1 && m.q !in l.timedOut
      && m.value == m.at - l.firstSent[m.q]
  }

  ghost predicate Inv(w: World, start: nat) {
    var t := w.tables;
    && Conserved(start, t.seqNo, w.log.satisfied, t.seqTimeouts.Keys, t.retxSeqs)
    && Tabulated(Pending(t), t.seqFullDelay, t.seqLastDelay.Keys, t.seqRetxCounts, w.log.sends, w.log.firstSent)
    && Karn(t.history, Pending(t), w.log.firstSent, w.log.timedOut)
    && Logged(start, t.seqNo, t.retxSeqs, w.log)
    && Sampled(w.log)
  }

  lemma FreshInv(c: Config, start: nat, initialEstimate: Time)
    requires start <= UINT32_MAX
    ensures Inv(Fresh(c, start, initialEstimate), start)
  {
  }

  // ---- Sending ----

  lemma NotedNumbers(h: seq<RttHistory>, q: Seq, now: Time)
    requires Distinct(h)
    ensures Distinct(Noted(h, q, now)) && Numbers(Noted(h, q, now)) == Numbers(h) + {q}
  {
    var n := Noted(h, q, now);
    var i := IndexOf(h, q);
    assert forall j :: 0 <= j < |h| ==> n[j].seqNo == h[j].seqNo;
    assert n[i].seqNo == q;
    forall x | x in Numbers(h) + {q}
      ensures x in Numbers(n)
    {
      if x in Numbers(h) {
        var j :| 0 <= j < |h| && h[j].seqNo == x;
        assert n[j].seqNo == x;
      }
    }
    forall x | x in Numbers(n)
      ensures x in Numbers(h) + {q}
    {
      var j :| 0 <= j < |n| && n[j].seqNo == x;
      if j < |h| {
        assert h[j].seqNo == x;
      }
    }
  }

  /** The number picked is pending retransmission or new; a satisfied number is never picked. */
  lemma PickedPending(w: World, start: nat, seqMax: nat)
    requires Inv(w, start) && w.tables.seqNo < UINT32_MAX
    ensures var t := w.tables;
            var (t1, q) := Picked(t, seqMax);
            if q.None? then t1 == t
            else
              && q.value !in w.log.satisfied && q.value !in t.seqTimeouts
              && (if q.value in t.retxSeqs then t1 == t.(retxSeqs := t.retxSeqs - {q.value})
                  else q.value == t.seqNo && t1 == t.(seqNo := t.seqNo + 1))
  {
    hide Tabulated, Karn, Sampled, Logged;
  }

  lemma ResendKarn(h: seq<RttHistory>, pending: set<Seq>, firstSent: map<Seq, Time>, timedOut: set<Seq>, q: Seq,
                   now: Time)
    requires Karn(h, pending, firstSent, timedOut) && q in pending && q in timedOut
    ensures Noted(h, q, now) == h
  {
    var k :| 0 <= k < |h| && h[k].seqNo == q;
  }

  lemma FirstSendKarn(h: seq<RttHistory>, pending: set<Seq>, firstSent: map<Seq, Time>, timedOut: set<Seq>, q: Seq,
                      now: Time)
    requires Karn(h, pending, firstSent, timedOut) && q !in pending && q !in timedOut && q !in firstSent
    ensures Karn(Noted(h, q, now), pending + {q}, firstSent[q := now], timedOut)
  {
    NotedNumbers(h, q, now);
    forall j | 0 <= j < |h|
      ensures h[j].seqNo != q
    {
      assert h[j].seqNo in Numbers(h);
    }
  }

  lemma SendKeepsInv(c: Config, w: World, start: nat, seqMax: nat, now: Time)
    requires Inv(w, start) && w.tables.seqNo < UINT32_MAX
    ensures Inv(AfterEvent(c, seqMax, w, Send(now)), start)
  {
    PickedPending(w, start, seqMax);
    var t, l := w.tables, w.log;
    var q := Picked(t, seqMax).1;
    if t.active && q.Some? {
      if q.value in t.retxSeqs {
        ResendKarn(t.history, Pending(t), l.firstSent, l.timedOut, q.value, now);
        ResendKeepsInv(w, start, q.value, now);
      } else {
        FirstSendKarn(t.history, Pending(t), l.firstSent, l.timedOut, q.value, now);
        FirstSendKeepsInv(w, start, now);
      }
    }
  }

  lemma SendTabulated(t: Tables, l: Log, q: Seq, now: Time)
    requires Tabulated(Pending(t), t.seqFullDelay, t.seqLastDelay.Keys, t.seqRetxCounts, l.sends, l.firstSent)
    requires q in l.sends ==> q in Pending(t)
    ensures var t', l' := Recorded(t, q, now), LogSend(l, q, now);
            Tabulated(Pending(t) + {q}, t'.seqFullDelay, t'.seqLastDelay.Keys, t'.seqRetxCounts, l'.sends, l'.firstSent)
  {
    hide Noted, Pending;
  }

  lemma ResendConserved(start: nat, seqNo: nat, satisfied: set<Seq>, waiting: set<Seq>, retx: set<Seq>, q: Seq)
    requires Conserved(start, seqNo, satisfied, waiting, retx) && q in retx
    ensures Conserved(start, seqNo, satisfied, waiting + {q}, retx - {q})
  {
  }

  lemma FirstSendConserved(start: nat, seqNo: nat, satisfied: set<Seq>, waiting: set<Seq>, retx: set<Seq>)
    requires Conserved(start, seqNo, satisfied, waiting, retx) && seqNo < UINT32_MAX
    ensures Conserved(start, seqNo + 1, satisfied, waiting + {seqNo}, retx)
  {
  }

  lemma SendLogged(start: nat, seqNo: nat, retx: set<Seq>, l: Log, q: Seq, now: Time)
    requires Logged(start, seqNo, retx, l) && Sampled(l) && q !in l.satisfied
            && (q in retx || (q == seqNo && start <= q))
    requires l.sends.Keys == l.firstSent.Keys
    ensures Logged(start, if q in retx then seqNo else seqNo + 1, retx - {q}, LogSend(l, q, now))
    ensures Sampled(LogSend(l, q, now))
  {
  }

  lemma RecordedWaiting(t: Tables, q: Seq, now: Time)
    ensures Recorded(t, q, now).seqTimeouts.Keys == t.seqTimeouts.Keys + {q}
    ensures Pending(Recorded(t, q, now)) == Pending(t) + {q}
  {
    hide Noted;
  }

  lemma ResendFacts(w: World, start: nat, q: Seq, now: Time)
    requires Inv(w, start) && q in w.tables.retxSeqs
    ensures q !in w.log.satisfied && q in Pending(w.tables) && w.log.sends.Keys == w.log.firstSent.Keys
    ensures LogSend(w.log, q, now).firstSent == w.log.firstSent && LogSend(w.log, q, now).timedOut == w.log.timedOut
    ensures LogSend(w.log, q, now).satisfied == w.log.satisfied
    ensures Pending(w.tables.(retxSeqs := w.tables.retxSeqs - {q})) + {q} == Pending(w.tables) + {q} ==
            Pending(w.tables)
  {
    hide Karn, Sampled;
  }

  lemma ResendKeepsInv(w: World, start: nat, q: Seq, now: Time)
    requires Inv(w, start) && q in w.tables.retxSeqs && Noted(w.tables.history, q, now) == w.tables.history
    ensures Inv(World(Recorded(w.tables.(retxSeqs := w.tables.retxSeqs - {q}), q, now), LogSend(w.log, q, now)), start)
  {
    hide Karn, Noted, Conserved, Tabulated, Logged, Sampled, Pending, Inserted, LogSend;
    var t, l := w.tables, w.log;
    ResendFacts(w, start, q, now);
    ResendConserved(start, t.seqNo, l.satisfied, t.seqTimeouts.Keys, t.retxSeqs, q);
    SendLogged(start, t.seqNo, t.retxSeqs, l, q, now);
    SendTabulated(t, l, q, now);
    RecordedWaiting(t.(retxSeqs := t.retxSeqs - {q}), q, now);
  }

  lemma FirstSendFacts(w: World, start: nat, now: Time)
    requires Inv(w, start)
    ensures var t, l, q := w.tables, w.log, w.tables.seqNo;
            && q !in l.sends && q !in l.satisfied && q !in t.retxSeqs && start <= q && l.sends.Keys == l.firstSent.Keys
            && t.retxSeqs - {q} == t.retxSeqs && Pending(t.(seqNo := q + 1)) == Pending(t)
            && LogSend(l, q, now).firstSent == l.firstSent[q := now] && LogSend(l, q, now).timedOut == l.timedOut
            && LogSend(l, q, now).satisfied == l.satisfied
  {
    hide Karn, Sampled;
  }

  lemma FirstSendKeepsInv(w: World, start: nat, now: Time)
    requires Inv(w, start) && w.tables.seqNo < UINT32_MAX
    requires var q := w.tables.seqNo;
             Karn(Noted(w.tables.history, q, now), Pending(w.tables) + {q}, w.log.firstSent[q := now], w.log.timedOut)
    ensures var q := w.tables.seqNo;
            Inv(World(Recorded(w.tables.(seqNo := q + 1), q, now), LogSend(w.log, q, now)), start)
  {
    hide Karn, Noted, Conserved, Tabulated, Logged, Sampled, Pending, Inserted, LogSend;
    var t, l, q := w.tables, w.log, w.tables.seqNo;
    FirstSendFacts(w, start, now);
    FirstSendConserved(start, q, l.satisfied, t.seqTimeouts.Keys, t.retxSeqs);
    SendLogged(start, q, t.retxSeqs, l, q, now);
    SendTabulated(t, l, q, now);
    RecordedWaiting(t.(seqNo := q + 1), q, now);
  }

  // ---- Data ----

  lemma DroppedKarn(h: seq<RttHistory>, pending: set<Seq>, firstSent: map<Seq, Time>, timedOut: set<Seq>, q: Seq)
    requires Karn(h, pending, firstSent, timedOut)
    ensures Karn(Dropped(h, q), pending - {q}, firstSent, timedOut)
  {
    var d := Dropped(h, q);
    var i := IndexOf(h, q);
    if i < |h| {
      assert forall j :: 0 <= j < |d| ==> d[j] == h[if j < i then j else j + 1];
      forall x | x in Numbers(h) - {q}
        ensures x in Numbers(d)
      {
        var j :| 0 <= j < |h| && h[j].seqNo == x;
        assert d[if j < i then j else j - 1].seqNo == x;
      }
    }
  }

  /** A sample comes from a pending number that never timed out. */
  lemma SampleIsClean(h: seq<RttHistory>, pending: set<Seq>, firstSent: map<Seq, Time>, timedOut: set<Seq>, q: Seq,
                      now: Time)
    requires Karn(h, pending, firstSent, timedOut) && Sample(h, q, now).Some?
    ensures q in pending && q in firstSent && q !in timedOut && Sample(h, q, now).value == now - firstSent[q]
  {
    assert h[IndexOf(h, q)].seqNo in Numbers(h);
  }

  lemma DataConserved(start: nat, seqNo: nat, satisfied: set<Seq>, waiting: set<Seq>, retx: set<Seq>, q: Seq)
    requires Conserved(start, seqNo, satisfied, waiting, retx)
    ensures Conserved(start, seqNo, if start <= q < seqNo then satisfied + {q} else satisfied, waiting - {q},
                      retx - {q})
  {
  }

  lemma DataTabulated(c: Config, t: Tables, l: Log, q: Seq, now: Time)
    requires Tabulated(Pending(t), t.seqFullDelay, t.seqLastDelay.Keys, t.seqRetxCounts, l.sends, l.firstSent)
            && t.active
    ensures var t' := AfterData(c, t, q, now);
            Tabulated(Pending(t) - {q}, t'.seqFullDelay, t'.seqLastDelay.Keys, t'.seqRetxCounts, l.sends, l.firstSent)
  {
    hide Sample, Measured, Dropped, Pending;
  }

  lemma AnsweredWaiting(c: Config, t: Tables, q: Seq, now: Time)
    requires t.active
    ensures AfterData(c, t, q, now).seqTimeouts.Keys == t.seqTimeouts.Keys - {q}
    ensures Pending(AfterData(c, t, q, now)) == Pending(t) - {q}
  {
    hide Sample, Measured, Dropped;
  }

  lemma DataLogged(start: nat, seqNo: nat, retx: set<Seq>, l: Log, q: Seq, sample: Option<Time>, now: Time)
    requires Logged(start, seqNo, retx, l) && Sampled(l)
    requires sample.Some? ==>
            q in l.sends && q in l.firstSent && q !in l.timedOut && sample.value == now - l.firstSent[q]
    ensures Logged(start, seqNo, retx - {q}, LogData(l, q, sample, now)) && Sampled(LogData(l, q, sample, now))
  {
  }

  lemma DataKeepsInv(c: Config, w: World, start: nat, seqMax: nat, q: Seq, now: Time)
    requires Inv(w, start)
    ensures Inv(AfterEvent(c, seqMax, w, Data(q, now)), start)
  {
    var t, l := w.tables, w.log;
    if t.active {
      DroppedKarn(t.history, Pending(t), l.firstSent, l.timedOut, q);
      if Sample(t.history, q, now).Some? {
        SampleIsClean(t.history, Pending(t), l.firstSent, l.timedOut, q, now);
      }
      DataConserved(start, t.seqNo, l.satisfied, t.seqTimeouts.Keys, t.retxSeqs, q);
      DataTabulated(c, t, l, q, now);
      DataLogged(start, t.seqNo, t.retxSeqs, l, q, Sample(t.history, q, now), now);
      assert q in l.sends <==> start <= q < t.seqNo;
      AnsweredWaiting(c, t, q, now);
      hide Karn, Dropped, Sample, Measured, Conserved, Tabulated, Logged, Sampled, Pending;
    }
  }

  // ---- The sweep ----

  lemma MarkedKarn(h: seq<RttHistory>, pending: set<Seq>, firstSent: map<Seq, Time>, timedOut: set<Seq>, s: set<Seq>)
    requires Karn(h, pending, firstSent, timedOut)
    ensures Karn(Marked(h, s), pending, firstSent, timedOut + s)
  {
    var m := Marked(h, s);
    assert forall i :: 0 <= i < |h| ==> m[i].seqNo == h[i].seqNo && m[i].time == h[i].time;
    assert Numbers(m) == Numbers(h);
  }

  lemma SweepConserved(start: nat, seqNo: nat, satisfied: set<Seq>, waiting: set<Seq>, retx: set<Seq>, s: set<Seq>)
    requires Conserved(start, seqNo, satisfied, waiting, retx) && s <= waiting
    ensures Conserved(start, seqNo, satisfied, waiting - s, retx + s)
  {
  }

  lemma TimedOutWaiting(c: Config, t: Tables, s: set<Seq>)
    requires s <= t.seqTimeouts.Keys
    ensures TimedOut(c, t, s).seqTimeouts.Keys == t.seqTimeouts.Keys - s
    ensures Pending(TimedOut(c, t, s)) == Pending(t)
  {
    hide Marked, BackoffTimes;
  }

  lemma SweepLogged(start: nat, seqNo: nat, retx: set<Seq>, l: Log, s: set<Seq>)
    requires Logged(start, seqNo, retx, l) && Sampled(l) && s <= l.sends.Keys && s !! l.satisfied
    ensures Logged(start, seqNo, retx + s, l.(timedOut := l.timedOut + s)) && Sampled(l.(timedOut := l.timedOut + s))
  {
  }

  lemma SweepKeepsInv(c: Config, w: World, start: nat, seqMax: nat, now: Time)
    requires Inv(w, start)
    ensures Inv(AfterEvent(c, seqMax, w, Sweep(now)), start)
  {
    var t, l := w.tables, w.log;
    var s := Expired(t.seqTimeouts, Rto(c, t.estimate), now);
    hide Rto, BackoffTimes, Marked;
    MarkedKarn(t.history, Pending(t), l.firstSent, l.timedOut, s);
    assert s <= t.seqTimeouts.Keys;
    hide Expired;
    SweepConserved(start, t.seqNo, l.satisfied, t.seqTimeouts.Keys, t.retxSeqs, s);
    SweepLogged(start, t.seqNo, t.retxSeqs, l, s);
    TimedOutWaiting(c, t, s);
    hide Karn, Conserved, Tabulated, Logged, Sampled, Pending;
  }

  lemma EventKeepsInv(c: Config, w: World, start: nat, seqMax: nat, e: Event)
    requires Inv(w, start) && (e.Send? ==> w.tables.seqNo < UINT32_MAX)
    ensures Inv(AfterEvent(c, seqMax, w, e), start)
  {
    match e
    case Send(now) => SendKeepsInv(c, w, start, seqMax, now);
    case Data(q, now) => DataKeepsInv(c, w, start, seqMax, q, now);
    case Sweep(now) => SweepKeepsInv(c, w, start, seqMax, now);
    case Activate(on) =>
  }

  lemma NoWrapPrefix(c: Config, seqMax: nat, w: World, es: seq<Event>)
    requires NoWrap(c, seqMax, w, es) && |es| > 0
    ensures NoWrap(c, seqMax, w, es[..|es| - 1])
    ensures es[|es| - 1].Send? ==> AfterEvents(c, seqMax, w, es[..|es| - 1]).tables.seqNo < UINT32_MAX
  {
    hide AfterEvents;
    var rest := es[..|es| - 1];
    forall i | 0 <= i < |rest| && rest[i].Send?
      ensures AfterEvents(c, seqMax, w, rest[..i]).tables.seqNo < UINT32_MAX
    {
      assert rest[..i] == es[..i];
    }
  }

  /** Main result: every interleaving of events keeps the tables, the history and the samples right. */
  lemma {:induction false} RunKeepsInv(c: Config, w: World, start: nat, seqMax: nat, es: seq<Event>)
    requires Inv(w, start) && NoWrap(c, seqMax, w, es)
    ensures Inv(AfterEvents(c, seqMax, w, es), start)
  {
    hide Inv, AfterEvent, NoWrap;
    if |es| > 0 {
      var n := |es| - 1;
      NoWrapPrefix(c, seqMax, w, es);
      RunKeepsInv(c, w, start, seqMax, es[..n]);
      EventKeepsInv(c, AfterEvents(c, seqMax, w, es[..n]), start, seqMax, es[n]);
    }
  }

  /** A consumer with a limit never wraps its counter. */
  lemma LimitedNeverWraps(c: Config, w: World, start: nat, seqMax: nat, e: Event)
    requires seqMax < UINT32_MAX && w.tables.seqNo <= seqMax
    ensures AfterEvent(c, seqMax, w, e).tables.seqNo <= seqMax
  {
    hide Expired, Marked, Noted, Dropped, Sample, Measured, Rto, BackoffTimes, Inserted, LogSend, LogData;
  }

  lemma SatisfiedStays(c: Config, w: World, start: nat, seqMax: nat, e: Event, q: Seq)
    requires Inv(w, start) && (e.Send? ==> w.tables.seqNo < UINT32_MAX) && q in w.log.satisfied
    ensures var w' := AfterEvent(c, seqMax, w, e);
            q in w'.log.satisfied && q in w.log.sends && q in w'.log.sends && w'.log.sends[q] == w.log.sends[q]
  {
    if e.Send? {
      PickedPending(w, start, seqMax);
    }
  }

  /** A satisfied number is never sent again, whatever happens afterwards. */
  lemma {:induction false} SatisfiedIsFinal(c: Config, w: World, start: nat, seqMax: nat, es: seq<Event>, q: Seq)
    requires Inv(w, start) && NoWrap(c, seqMax, w, es) && q in w.log.satisfied
    ensures var w' := AfterEvents(c, seqMax, w, es);
            q in w'.log.satisfied && q in w.log.sends && q in w'.log.sends && w'.log.sends[q] == w.log.sends[q]
  {
    assert q in w.log.sends;
    hide Inv, AfterEvent, NoWrap;
    if |es| > 0 {
      var n := |es| - 1;
      NoWrapPrefix(c, seqMax, w, es);
      SatisfiedIsFinal(c, w, start, seqMax, es[..n], q);
      RunKeepsInv(c, w, start, seqMax, es[..n]);
      SatisfiedStays(c, AfterEvents(c, seqMax, w, es[..n]), start, seqMax, es[n], q);
    }
  }

  // ---- The retransmission timeout ----

  ghost predicate BackedOff(c: Config, e: Estimate) {
    1 <= e.multiplier <= c.maxMultiplier
  }

  lemma EventKeepsBackedOff(c: Config, w: World, seqMax: nat, e: Event)
    requires BackedOff(c, w.tables.estimate)
    ensures BackedOff(c, AfterEvent(c, seqMax, w, e).tables.estimate)
  {
    hide Expired, Marked, Noted, Dropped, Rto, Doubled;
    match e
    case Sweep(now) =>
      var k := |Expired(w.tables.seqTimeouts, Rto(c, w.tables.estimate), now)|;
      BackoffIsBounded(w.tables.estimate.multiplier, c.maxMultiplier, k);
      DoubledGrows(w.tables.estimate.multiplier, k);
    case _ =>
  }

  lemma {:induction false} DoubledGrows(m: nat, k: nat)
    ensures Doubled(m, k) >= m
  {
    if k > 0 {
      DoubledGrows(m, k - 1);
    }
  }

  /** In every run the retransmission timeout stays between its bounds, whatever was measured. */
  lemma {:induction false} RunKeepsRtoInRange(c: Config, w: World, seqMax: nat, es: seq<Event>)
    requires 0.0 <= c.minRto <= c.maxRto && BackedOff(c, w.tables.estimate)
    ensures var e := AfterEvents(c, seqMax, w, es).tables.estimate;
            BackedOff(c, e) && c.minRto <= Rto(c, e) <= c.maxRto
  {
    if |es| == 0 {
      RtoInRange(c, w.tables.estimate);
    } else {
      var n := |es| - 1;
      RunKeepsRtoInRange(c, w, seqMax, es[..n]);
      EventKeepsBackedOff(c, AfterEvents(c, seqMax, w, es[..n]), seqMax, es[n]);
      hide AfterEvent, Rto;
      RtoInRange(c, AfterEvents(c, seqMax, w, es).tables.estimate);
    }
  }
}
