/** The base Consumer: which numbers are on their way, timed out or done (apps/ndn-consumer.cpp). */
module Consumers {
  import opened Wrappers
  import opened Rtt

  const UINT32_MAX: nat := 0xFFFF_FFFF

  /** The tables of a consumer. A multi-index container with a unique number index is a map from numbers to times. */
  datatype Tables = Tables(
    active: bool,
    seqNo: nat,                        // m_seq
    retxSeqs: set<Seq>,
    seqTimeouts: map<Seq, Time>,
    seqFullDelay: map<Seq, Time>,
    seqLastDelay: map<Seq, Time>,
    seqRetxCounts: map<Seq, nat>,
    estimate: Estimate,
    history: seq<RttHistory>)

  // ---- What the methods do to the tables ----

  predicate IsLeast(s: set<Seq>, x: Seq) {
    x in s && forall y :: y in s ==> x <= y
  }

  lemma {:induction false} LeastExists(s: set<Seq>) returns (m: Seq)
    requires s != {}
    ensures IsLeast(s, m)
  {
    var x :| x in s;
    var rest := s - {x};
    assert s == rest + {x};
    if rest == {} {
      m := x;
    } else {
      m := LeastExists(rest);
      if x < m {
        m := x;
      }
    }
  }

  /** *m_retxSeqs.begin(). */
  function Least(s: set<Seq>): (x: Seq)
    requires s != {}
    ensures x in s && forall y :: y in s ==> x <= y
  {
    assert exists x :: IsLeast(s, x) by {
      var m := LeastExists(s);
    }
    var x :| x in s && IsLeast(s, x);
    x
  }

  /** The number SendPacket sends next, retransmissions first; None when it returns early. */
  function Picked(t: Tables, seqMax: nat): (Tables, Option<Seq>) {
    var number := if t.retxSeqs != {} then Least(t.retxSeqs) else UINT32_MAX;
    var t1 := if t.retxSeqs != {} then t.(retxSeqs := t.retxSeqs - {number}) else t;
    if number != UINT32_MAX then (t1, Some(number))
    else if seqMax != UINT32_MAX && t.seqNo >= seqMax then (t1, None)
    else (t1.(seqNo := (t.seqNo + 1) % (UINT32_MAX + 1)), Some(t.seqNo))
  }

  // Inserting into a container that already has the number changes nothing.
  function Inserted(m: map<Seq, Time>, q: Seq, now: Time): map<Seq, Time> {
    if q in m then m else m[q := now]
  }

  function Recorded(t: Tables, q: Seq, now: Time): Tables {
    t.(seqTimeouts := Inserted(t.seqTimeouts, q, now),
       seqFullDelay := Inserted(t.seqFullDelay, q, now),
       seqLastDelay := t.seqLastDelay[q := now],
       seqRetxCounts := t.seqRetxCounts[q := 1 + if q in t.seqRetxCounts then t.seqRetxCounts[q] else 0],
       history := Noted(t.history, q, now))
  }

  function AfterSend(t: Tables, seqMax: nat, now: Time): Tables {
    if !t.active then t
    else
      var (t1, q) := Picked(t, seqMax);
      if q.None? then t1 else Recorded(t1, q.value, now)
  }

  function AfterData(c: Config, t: Tables, q: Seq, now: Time): Tables {
    if !t.active then t
    else
      var sample := Sample(t.history, q, now);
      t.(seqRetxCounts := t.seqRetxCounts - {q}, seqFullDelay := t.seqFullDelay - {q},
         seqLastDelay := t.seqLastDelay - {q},
         seqTimeouts := t.seqTimeouts - {q}, retxSeqs := t.retxSeqs - {q},
         estimate := if sample.Some? then Measured(c, t.estimate, sample.value).(multiplier := 1) else t.estimate,
         history := Dropped(t.history, q))
  }

  // q has already left m_seqTimeouts.
  function AfterTimeout(c: Config, t: Tables, q: Seq, now: Time): Tables {
    t.(estimate := t.estimate.(multiplier := Backoff(t.estimate.multiplier, c.maxMultiplier)),
       history := Noted(t.history, q, now),
       retxSeqs := t.retxSeqs + {q})
  }

  // ---- The timer sweep, all at once ----

  function Expired(m: map<Seq, Time>, rto: Time, now: Time): set<Seq> {
    set q | q in m && m[q] + rto <= now
  }

  function Marked(h: seq<RttHistory>, s: set<Seq>): (h': seq<RttHistory>)
    ensures |h'| == |h|
    ensures forall i :: 0 <= i < |h| ==> h'[i] == h[i].(retx := h[i].retx || h[i].seqNo in s)
  {
    seq(|h|, i requires 0 <= i < |h| => h[i].(retx := h[i].retx || h[i].seqNo in s))
  }

  /** The tables once the numbers in s have timed out. */
  function TimedOut(c: Config, t: Tables, s: set<Seq>): Tables {
    t.(seqTimeouts := t.seqTimeouts - s,
       retxSeqs := t.retxSeqs + s,
       estimate := t.estimate.(multiplier := BackoffTimes(t.estimate.multiplier, c.maxMultiplier, |s|)),
       history := Marked(t.history, s))
  }

  function AfterSweep(c: Config, t: Tables, now: Time): Tables {
    TimedOut(c, t, Expired(t.seqTimeouts, Rto(c, t.estimate), now))
  }

  /** Each number has one history entry. */
  ghost predicate Distinct(h: seq<RttHistory>) {
    forall i, j :: 0 <= i < j < |h| ==> h[i].seqNo != h[j].seqNo
  }

  function Numbers(h: seq<RttHistory>): set<Seq> {
    set i | 0 <= i < |h| :: h[i].seqNo
  }

  lemma NextTimeout(c: Config, t: Tables, s: set<Seq>, q: Seq, now: Time)
    requires Distinct(t.history) && q in Numbers(t.history) && q !in s
    ensures var t1 := TimedOut(c, t, s);
            AfterTimeout(c, t1.(seqTimeouts := t1.seqTimeouts - {q}), q, now) == TimedOut(c, t, s + {q})
  {
    var h := Marked(t.history, s);
    var i := IndexOf(h, q);
    var k :| 0 <= k < |h| && t.history[k].seqNo == q;
    assert h[k].seqNo == q;
    assert i < |h| && t.history[i].seqNo == q;
    assert Noted(h, q, now) == Marked(t.history, s + {q}) by {
      forall j | 0 <= j < |h|
        ensures Noted(h, q, now)[j] == Marked(t.history, s + {q})[j]
      {
        assert j != i ==> t.history[j].seqNo != q;
      }
    }
    assert |s + {q}| == |s| + 1;
    assert t.seqTimeouts - s - {q} == t.seqTimeouts - (s + {q});
    assert t.retxSeqs + s + {q} == t.retxSeqs + (s + {q});
  }

  lemma TimedOutLeaves(c: Config, t: Tables, s: set<Seq>)
    ensures TimedOut(c, t, s).seqTimeouts == t.seqTimeouts - s && TimedOut(c, t, s).seqNo == t.seqNo
  {
  }

  lemma NoneLeft(m: map<Seq, Time>, done: set<Seq>, rto: Time, now: Time)
    requires done <= Expired(m, rto, now) && forall q :: q in m - done ==> m[q] + rto > now
    ensures done == Expired(m, rto, now)
  {
    forall q | q in Expired(m, rto, now)
      ensures q in done
    {
      assert q !in done ==> q in m - done;
    }
  }

  lemma OneLess(m: map<Seq, Time>, q: Seq)
    requires q in m
    ensures (m - {q}).Keys < m.Keys
  {
    assert q in m.Keys && q !in (m - {q}).Keys;
  }

  class Consumer {
    const rtt: RttMeanDeviation
    const seqMax: nat
    var active: bool
    var seqNo: nat
    var retxSeqs: set<Seq>
    var seqTimeouts: map<Seq, Time>
    var seqFullDelay: map<Seq, Time>
    var seqLastDelay: map<Seq, Time>
    var seqRetxCounts: map<Seq, nat>

    constructor (rtt: RttMeanDeviation, startSeq: nat, seqMax: nat)
      ensures this.rtt == rtt && this.seqMax == seqMax
      ensures View() == Tables(true, startSeq, {}, map[], map[], map[], map[], rtt.View(), rtt.history)
    {
      this.rtt, this.seqMax, active, seqNo := rtt, seqMax, true, startSeq;
      retxSeqs, seqTimeouts, seqFullDelay, seqLastDelay, seqRetxCounts := {}, map[], map[], map[], map[];
    }

    function View(): Tables
      reads this, rtt
    {
      Tables(active, seqNo, retxSeqs, seqTimeouts, seqFullDelay, seqLastDelay, seqRetxCounts, rtt.View(), rtt.history)
    }

    // ---- Lines 158-206 ----

    /** Returns the number that was sent. */
    method SendPacket(now: Time) returns (sent: Option<Seq>)
      modifies this, rtt
      ensures View() == AfterSend(old(View()), seqMax, now)
      ensures sent == if old(active) then Picked(old(View()), seqMax).1 else None
      ensures UINT32_MAX !in old(retxSeqs) ==>
              (sent.None? <==> !old(active) || (old(retxSeqs) == {} && seqMax != UINT32_MAX && old(seqNo) >= seqMax))
      ensures UINT32_MAX !in old(retxSeqs) && sent.Some? ==>
              if old(retxSeqs) != {} then
                IsLeast(old(retxSeqs), sent.value) && retxSeqs == old(retxSeqs) - {sent.value} && seqNo == old(seqNo)
              else
                sent.value == old(seqNo) && retxSeqs == {} && seqNo == (old(seqNo) + 1) % 0x1_0000_0000
      ensures UINT32_MAX !in old(retxSeqs) && sent.None? ==> View() == old(View())
    {
      if !active {
        return None;
      }
      var number := UINT32_MAX;
      if retxSeqs != {} {
        number := Least(retxSeqs);
        retxSeqs := retxSeqs - {number};
      }
      if number == UINT32_MAX {
        if seqMax != UINT32_MAX {
          if seqNo >= seqMax {
            return None;
          }
        }
        number := seqNo;
        seqNo := (seqNo + 1) % (UINT32_MAX + 1);
      }
      WillSendOutInterest(number, now);
      return Some(number);
    }

    // ---- Lines 212-253 ----

    method OnData(q: Seq, now: Time) returns (sample: Option<Time>)
      modifies this, rtt
      ensures View() == AfterData(rtt.config, old(View()), q, now)
      ensures sample == if old(active) then Sample(old(rtt.history), q, now) else None
    {
      if !active {
        return None;
      }
      seqRetxCounts := seqRetxCounts - {q};
      seqFullDelay := seqFullDelay - {q};
      seqLastDelay := seqLastDelay - {q};
      seqTimeouts := seqTimeouts - {q};
      retxSeqs := retxSeqs - {q};
      sample := rtt.AckSeq(q, now);
    }

    // ---- Lines 265-294 ----

    method OnTimeout(q: Seq, now: Time)
      modifies this, rtt
      ensures View() == AfterTimeout(rtt.config, old(View()), q, now)
    {
      rtt.IncreaseMultiplier();
      rtt.SentSeq(q, now);
      retxSeqs := retxSeqs + {q};
    }

    method WillSendOutInterest(q: Seq, now: Time)
      modifies this, rtt
      ensures View() == Recorded(old(View()), q, now)
    {
      seqTimeouts := Inserted(seqTimeouts, q, now);
      seqFullDelay := Inserted(seqFullDelay, q, now);
      seqLastDelay := seqLastDelay - {q};
      seqLastDelay := seqLastDelay[q := now];
      assert seqLastDelay == old(seqLastDelay)[q := now];
      seqRetxCounts := seqRetxCounts[q := 1 + if q in seqRetxCounts then seqRetxCounts[q] else 0];
      rtt.SentSeq(q, now);
    }

    // ---- Lines 110-132 ----

    /** The first entry of the time index. */
    method Earliest() returns (q: Seq)
      requires seqTimeouts != map[]
      ensures q in seqTimeouts && forall p :: p in seqTimeouts ==> seqTimeouts[q] <= seqTimeouts[p]
    {
      var todo := seqTimeouts.Keys;
      assert seqTimeouts.Keys != {};
      q :| q in todo;
      while todo != {}
        invariant todo <= seqTimeouts.Keys && q in seqTimeouts
        invariant forall p :: p in seqTimeouts && p !in todo ==> seqTimeouts[q] <= seqTimeouts[p]
        decreases todo
      {
        var p :| p in todo;
        todo := todo - {p};
        if seqTimeouts[p] < seqTimeouts[q] {
          q := p;
        }
      }
    }

    method CheckRetxTimeout(now: Time)
      requires Distinct(rtt.history) && seqTimeouts.Keys <= Numbers(rtt.history)
      modifies this, rtt
      ensures View() == AfterSweep(rtt.config, old(View()), now)
    {
      var rto := rtt.RetransmitTimeout();
      ghost var was := View();
      ghost var done: set<Seq> := {};
      NothingTimedOut(rtt.config, was);
      while seqTimeouts != map[]
        invariant done <= Expired(was.seqTimeouts, rto, now) && View() == TimedOut(rtt.config, was, done)
        decreases seqTimeouts.Keys
      {
        var q := Earliest();
        if seqTimeouts[q] + rto <= now {
          NextTimeout(rtt.config, was, done, q, now);
          OneLess(seqTimeouts, q);
          seqTimeouts := seqTimeouts - {q};
          OnTimeout(q, now);
          done := done + {q};
        } else {
          break;
        }
      }
      NoneLeft(was.seqTimeouts, done, rto, now);
    }
  }

  lemma NothingTimedOut(c: Config, t: Tables)
    ensures TimedOut(c, t, {}) == t
  {
    assert Marked(t.history, {}) == t.history;
    assert t.seqTimeouts - {} == t.seqTimeouts;
  }
}
