/**
 What every run of a ConsumerPcon keeps: the window floor, the in-flight bound and the spacing of window decreases.
 */
module PconRuns {
  import opened Rtt
  import opened Consumers
  import opened ConsumerRuns
  import opened Pcon

  datatype PconEvent =
    | Request(now: Time)
    | Content(q: nat, mark: bool, power: real, now: Time)
    | Timer(now: Time)
    | Switch(on: bool)

  /**
   One decrease that was not suppressed: highData, m_seq, the new recPoint, and the numbers whose Data had arrived.
   */
  datatype Decrease = Decrease(highData: nat, seqNo: nat, recPoint: real, received: set<nat>)

  datatype PconWorld = PconWorld(base: World, window: Window, inFlight: nat, received: set<nat>, cuts: seq<Decrease>)

  function BaseEvent(e: PconEvent): Event {
    match e
    case Request(now) => Send(now)
    case Content(q, _, _, now) => Data(Narrow(q), now)
    case Timer(now) => Sweep(now)
    case Switch(on) => Activate(on)
  }

  function TimeoutCount(c: Config, t: Tables, now: Time): nat {
    |Expired(t.seqTimeouts, Rto(c, t.estimate), now)|
  }

  function CutLog(p: PconConfig, w: Window, seqNo: nat, now: Time, received: set<nat>): seq<Decrease> {
    if Effective(p, w) then [Decrease(w.highData, seqNo, Cut(p, w, seqNo, now).recPoint, received)] else []
  }

  function CutLogs(p: PconConfig, w: Window, seqNo: nat, now: Time, received: set<nat>, k: nat): seq<Decrease> {
    if k == 0 then []
    else
      CutLogs(p, w, seqNo, now, received, k - 1)
      + CutLog(p, DecreasedTimes(p, w, seqNo, now, k - 1), seqNo, now, received)
  }

  function AfterPconEvent(c: Config, p: PconConfig, seqMax: nat, s: PconWorld, e: PconEvent): PconWorld
    requires s.window.size > 0.0
  {
    var t := s.base.tables;
    var s1 := s.(base := AfterEvent(c, seqMax, s.base, BaseEvent(e)));
    match e
    case Request(now) =>
      s1.(inFlight := s.inFlight + if t.active && Picked(t, seqMax).1.Some? then 1 else 0)
    case Content(q, mark, power, now) =>
      var received := s.received + {q};
      s1.(window := AfterPconData(p, s.window, t.seqNo, q, mark, power, now),
          inFlight := Less(s.inFlight, 1),
          received := received,
          cuts := s.cuts +
            if mark && p.reactToCongestionMarks then CutLog(p, HighDataRaised(s.window, q), t.seqNo, now, received)
                else [])
    case Timer(now) =>
      var k := TimeoutCount(c, t, now);
      s1.(window := DecreasedTimes(p, s.window, t.seqNo, now, k),
          inFlight := Less(s.inFlight, k),
          cuts := s.cuts + CutLogs(p, s.window, t.seqNo, now, s.received, k))
    case Switch(on) => s1
  }

  /** What the source asserts while it handles e. */
  ghost predicate Asserted(c: Config, p: PconConfig, s: PconWorld, e: PconEvent) {
    var t := s.base.tables;
    match e
    case Content(q, mark, _, _) =>
      && (mark && p.reactToCongestionMarks ==> DiffAsserted(p, HighDataRaised(s.window, q), t.seqNo))
      && (!mark ==> WmaxAsserted(p, s.window))
    case Timer(now) =>
      forall j :: 0 <= j < TimeoutCount(c, t, now) ==>
          DiffAsserted(p, DecreasedTimes(p, s.window, t.seqNo, now, j), t.seqNo)
    case _ => true
  }

  // ---- The window floor ----

  /** The configured values the source's documentation asks for. */
  ghost predicate Sensible(p: PconConfig) {
    p.initialWindow >= 1 && 0.0 < p.beta < 1.0 && 0.0 < p.cubicBeta < 1.0 && p.addRttSuppress >= 0.0
  }

  ghost predicate WindowOk(p: PconConfig, w: Window) {
    && w.size >= p.initialWindow as real
    && (p.ccAlgorithm.CUBIC? && w.ssthresh.Limited? ==> w.cubicWmax > 0.0)
  }

  lemma IncreasedOk(p: PconConfig, w: Window, power: real)
    requires Sensible(p) && WindowOk(p, w)
    ensures WindowOk(p, Increased(p, w, power)) && Increased(p, w, power).size >= w.size
  {
    var increment := Max(CUBIC_C * power + w.cubicWmax, 0.0) - w.size;
    assert increment > 0.0 ==> increment / w.size > 0.0;
  }

  /** A CUBIC increase never carries the window past the target of section 4.1 of RFC 8312. */
  lemma CubicNeverOvershoots(p: PconConfig, w: Window, power: real)
    requires p.ccAlgorithm.CUBIC? && w.size >= 1.0 && !BelowThreshold(w)
    ensures var target := CUBIC_C * power + w.cubicWmax;
            w.size <= Increased(p, w, power).size <= Max(w.size, target)
  {
    var increment := Max(CUBIC_C * power + w.cubicWmax, 0.0) - w.size;
    if increment > 0.0 {
      QuotientAtMost(increment, w.size);
    }
  }

  lemma QuotientAtMost(a: real, b: real)
    requires a > 0.0 && b >= 1.0
    ensures 0.0 < a / b <= a
  {
    var q := a / b;
    assert q * b == a;
    assert q * b - q == q * (b - 1.0);
  }

  function IncreasedTimes(p: PconConfig, w: Window, k: nat): (r: Window)
    requires p.ccAlgorithm.AIMD? && w.size > 0.0
    ensures r.size >= w.size
  {
    if k == 0 then w
    else
      var before := IncreasedTimes(p, w, k - 1);
      assert 1.0 / before.size > 0.0;
      Increased(p, before, 0.0)
  }

  /** In congestion avoidance a window's worth of Data adds at most one to the AIMD window. */
  lemma {:induction false} AvoidanceAddsAtMostOne(p: PconConfig, w: Window, k: nat)
    requires p.ccAlgorithm.AIMD? && w.size > 0.0 && !BelowThreshold(w) && k as real <= w.size
    ensures !BelowThreshold(IncreasedTimes(p, w, k)) && IncreasedTimes(p, w, k).ssthresh == w.ssthresh
    ensures w.size <= IncreasedTimes(p, w, k).size <= w.size + k as real / w.size <= w.size + 1.0
  {
    Ratio(k as real, w.size);
    if k > 0 {
      AvoidanceAddsAtMostOne(p, w, k - 1);
      var before := IncreasedTimes(p, w, k - 1);
      assert IncreasedTimes(p, w, k) == before.(size := before.size + 1.0 / before.size);
      hide IncreasedTimes, Increased;
      Reciprocals(w.size, before.size);
      OneMore(k - 1, w.size);
    }
  }

  lemma OneMore(k: nat, b: real)
    requires b > 0.0
    ensures k as real / b + 1.0 / b == (k + 1) as real / b
  {
  }

  lemma Ratio(a: real, b: real)
    requires 0.0 <= a <= b && b > 0.0
    ensures a / b <= 1.0
  {
    var q := a / b;
    assert q * b == a;
    assert q * b - b == (q - 1.0) * b;
  }

  lemma Reciprocals(a: real, b: real)
    requires 0.0 < a <= b
    ensures 0.0 < 1.0 / b <= 1.0 / a
  {
    var x, y := 1.0 / a, 1.0 / b;
    assert x * a == 1.0 && y * b == 1.0;
    assert y * b - x * a == (y - x) * a + y * (b - a);
  }

  lemma CutOk(p: PconConfig, w: Window, seqNo: nat, now: Time)
    requires Sensible(p) && WindowOk(p, w)
    ensures WindowOk(p, Cut(p, w, seqNo, now)) && Cut(p, w, seqNo, now).size <= w.size
  {
    assert w.size * p.beta <= w.size && w.size * p.cubicBeta <= w.size;
    assert w.size * (1.0 + p.cubicBeta) > 0.0;
  }

  lemma {:induction false} DecreasedTimesOk(p: PconConfig, w: Window, seqNo: nat, now: Time, k: nat)
    requires Sensible(p) && WindowOk(p, w)
    ensures WindowOk(p, DecreasedTimes(p, w, seqNo, now, k))
  {
    if k > 0 {
      DecreasedTimesOk(p, w, seqNo, now, k - 1);
      CutOk(p, DecreasedTimes(p, w, seqNo, now, k - 1), seqNo, now);
    }
  }

  lemma EventKeepsWindowOk(c: Config, p: PconConfig, seqMax: nat, s: PconWorld, e: PconEvent)
    requires Sensible(p) && WindowOk(p, s.window)
    ensures WindowOk(p, AfterPconEvent(c, p, seqMax, s, e).window)
  {
    hide AfterEvent;
    match e
    case Content(q, mark, power, now) =>
      IncreasedOk(p, HighDataRaised(s.window, q), power);
      CutOk(p, HighDataRaised(s.window, q), s.base.tables.seqNo, now);
    case Timer(now) =>
      DecreasedTimesOk(p, s.window, s.base.tables.seqNo, now, TimeoutCount(c, s.base.tables, now));
    case _ =>
  }

  /** A run; each event happens in the state the earlier ones left. */
  ghost function AfterPconEvents(c: Config, p: PconConfig, seqMax: nat, s: PconWorld,
                                 es: seq<PconEvent>): (r: PconWorld)
    requires Sensible(p) && WindowOk(p, s.window)
    ensures WindowOk(p, r.window)
  {
    if |es| == 0 then s
    else
      var s1 := AfterPconEvents(c, p, seqMax, s, es[..|es| - 1]);
      EventKeepsWindowOk(c, p, seqMax, s1, es[|es| - 1]);
      AfterPconEvent(c, p, seqMax, s1, es[|es| - 1])
  }

  // ---- Conservative window adaptation ----

  /** m_highData trails m_seq until a number is issued and ever after. */
  ghost predicate Trails(highData: nat, seqNo: nat) {
    highData < seqNo || highData == seqNo == 0
  }

  /**
   Section 5 of RFC 6675: from one decrease to the next, Data arrived for a number first issued after the earlier one.
   */
  ghost predicate Spaced(d: Decrease, e: Decrease) {
    && d.recPoint < e.recPoint
    && d.seqNo <= e.highData < e.seqNo
    && e.highData in e.received && e.highData !in d.received
  }

  ghost predicate Sound(d: Decrease) {
    && d.highData < d.seqNo && d.seqNo as real <= d.recPoint && d.highData in d.received
    && (forall q :: q in d.received ==> q <= d.highData)
  }

  ghost predicate Conservative(w: Window, received: set<nat>, cuts: seq<Decrease>) {
    && w.recPoint >= 0.0
    && (w.highData == 0 || w.highData in received)
    && (forall q :: q in received ==> q <= w.highData)
    && (forall i :: 0 <= i < |cuts| ==> Sound(cuts[i]))
    && (forall i :: 0 < i < |cuts| ==> Spaced(cuts[i - 1], cuts[i]))
    && (|cuts| > 0 ==> cuts[|cuts| - 1].recPoint == w.recPoint)
  }

  lemma CutIsSpaced(p: PconConfig, w: Window, seqNo: nat, now: Time, received: set<nat>, cuts: seq<Decrease>)
    requires p.useCwa && p.addRttSuppress >= 0.0 && seqNo <= UINT32_MAX
    requires Conservative(w, received, cuts) && Trails(w.highData, seqNo)
    ensures var w' := Decreased(p, w, seqNo, now);
            && Conservative(w', received, cuts + CutLog(p, w, seqNo, now, received))
            && Trails(w'.highData, seqNo) && !Effective(p, w') && DiffAsserted(p, w, seqNo)
  {
    if Effective(p, w) {
      assert w.highData < seqNo;
      var d := CutLog(p, w, seqNo, now, received)[0];
      assert p.addRttSuppress * Diff(seqNo, w.highData) as real >= 0.0;
      assert Sound(d);
      if |cuts| > 0 {
        var last := cuts[|cuts| - 1];
        assert Sound(last);
        assert last.seqNo <= d.highData;
        assert Spaced(last, d);
      }
    } else {
      assert cuts + CutLog(p, w, seqNo, now, received) == cuts;
    }
  }

  /** However many numbers time out in one sweep, the window is decreased at most once. */
  lemma {:induction false} SweepCutsOnce(p: PconConfig, w: Window, seqNo: nat, now: Time, received: set<nat>,
                                         cuts: seq<Decrease>, k: nat)
    requires p.useCwa && p.addRttSuppress >= 0.0 && seqNo <= UINT32_MAX
    requires Conservative(w, received, cuts) && Trails(w.highData, seqNo)
    ensures var w', ds := DecreasedTimes(p, w, seqNo, now, k), CutLogs(p, w, seqNo, now, received, k);
            && Conservative(w', received, cuts + ds) && Trails(w'.highData, seqNo)
            && DiffAsserted(p, w', seqNo)
            && (k > 0 ==> !Effective(p, w'))
            && |ds| == if k > 0 && Effective(p, w) then 1 else 0
  {
    if k == 0 {
      assert cuts + [] == cuts;
      CutIsSpaced(p, w, seqNo, now, received, cuts);
    } else {
      SweepCutsOnce(p, w, seqNo, now, received, cuts, k - 1);
      var w1, ds1 := DecreasedTimes(p, w, seqNo, now, k - 1), CutLogs(p, w, seqNo, now, received, k - 1);
      CutIsSpaced(p, w1, seqNo, now, received, cuts + ds1);
      assert cuts + ds1 + CutLog(p, w1, seqNo, now, received) == cuts + CutLogs(p, w, seqNo, now, received, k);
    }
  }

  // ---- Whole runs ----

  ghost predicate PconInv(p: PconConfig, s: PconWorld, start: nat) {
    && Inv(s.base, start)
    && WindowOk(p, s.window)
    && Trails(s.window.highData, s.base.tables.seqNo)
    && (p.useCwa ==> Conservative(s.window, s.received, s.cuts))
    && s.inFlight <= |s.base.tables.seqTimeouts|
  }

  /** m_seq does not wrap and Data arrives only for numbers that were issued. */
  ghost predicate Allowed(s: PconWorld, start: nat, e: PconEvent) {
    match e
    case Request(_) => s.base.tables.seqNo < UINT32_MAX
    case Content(q, _, _, _) => start <= q < s.base.tables.seqNo
    case _ => true
  }

  ghost predicate AllowedRun(c: Config, p: PconConfig, seqMax: nat, s: PconWorld, start: nat, es: seq<PconEvent>)
    requires Sensible(p) && WindowOk(p, s.window)
  {
    forall i :: 0 <= i < |es| ==> Allowed(AfterPconEvents(c, p, seqMax, s, es[..i]), start, es[i])
  }

  function FreshPcon(c: Config, p: PconConfig, start: nat, initialEstimate: Time, now: Time): PconWorld {
    PconWorld(Fresh(c, start, initialEstimate), NewWindow(p, now), 0, {}, [])
  }

  lemma FreshPconInv(c: Config, p: PconConfig, start: nat, initialEstimate: Time, now: Time)
    requires start <= UINT32_MAX
    ensures PconInv(p, FreshPcon(c, p, start, initialEstimate, now), start)
  {
    FreshInv(c, start, initialEstimate);
  }

  lemma ContentKeepsTrails(p: PconConfig, s: PconWorld, start: nat, seqNo: nat, q: nat, mark: bool, power: real,
                           now: Time)
    requires Sensible(p) && WindowOk(p, s.window) && Trails(s.window.highData, seqNo) && q < seqNo <= UINT32_MAX
    requires p.useCwa ==> Conservative(s.window, s.received, s.cuts)
    ensures var w', received := AfterPconData(p, s.window, seqNo, q, mark, power, now), s.received + {q};
            && Trails(w'.highData, seqNo)
            && DiffAsserted(p, HighDataRaised(s.window, q), seqNo)
            && (p.useCwa ==> Conservative(w', received, s.cuts +
                 if mark && p.reactToCongestionMarks then CutLog(p, HighDataRaised(s.window, q), seqNo, now, received)
                     else []))
  {
    var w1, received := HighDataRaised(s.window, q), s.received + {q};
    assert s.cuts + [] == s.cuts;
    if p.useCwa {
      assert Conservative(w1, received, s.cuts);
      CutIsSpaced(p, w1, seqNo, now, received, s.cuts);
    }
  }

  lemma RequestInFlight(w: World, start: nat, seqMax: nat, now: Time)
    requires Inv(w, start) && w.tables.seqNo < UINT32_MAX
    ensures var t := w.tables;
            var t' := AfterSend(t, seqMax, now);
            && t.seqNo <= t'.seqNo
            && |t'.seqTimeouts| == |t.seqTimeouts| + if t.active && Picked(t, seqMax).1.Some? then 1 else 0
  {
    hide Conserved, Tabulated, Karn, Logged, Sampled, Noted;
    PickedPending(w, start, seqMax);
  }

  lemma ContentInFlight(c: Config, t: Tables, q: Seq, now: Time)
    ensures |AfterData(c, t, q, now).seqTimeouts| >= Less(|t.seqTimeouts|, 1)
  {
    hide Sample, Measured, Dropped;
    Cardinalities(t.seqTimeouts, {q});
  }

  lemma TimerInFlight(c: Config, t: Tables, now: Time)
    ensures |AfterSweep(c, t, now).seqTimeouts| >= Less(|t.seqTimeouts|, TimeoutCount(c, t, now))
  {
    hide Rto, Marked, BackoffTimes;
    Cardinalities(t.seqTimeouts, Expired(t.seqTimeouts, Rto(c, t.estimate), now));
  }

  lemma Cardinalities(m: map<Seq, Time>, s: set<Seq>)
    ensures |m - s| >= |m| - |s|
  {
    assert (m - s).Keys == m.Keys - s;
    assert m.Keys == (m.Keys - s) + (m.Keys * s);
    assert |m.Keys * s| <= |s| by {
      assert s == (m.Keys * s) + (s - m.Keys);
    }
  }

  lemma RequestKeepsInv(c: Config, p: PconConfig, seqMax: nat, s: PconWorld, start: nat, now: Time)
    requires Sensible(p) && PconInv(p, s, start) && s.base.tables.seqNo < UINT32_MAX
    ensures PconInv(p, AfterPconEvent(c, p, seqMax, s, Request(now)), start)
  {
    hide Inv, Conservative, AfterSend, Picked, LogSend;
    EventKeepsInv(c, s.base, start, seqMax, Send(now));
    RequestInFlight(s.base, start, seqMax, now);
  }

  lemma ContentKeepsInv(c: Config, p: PconConfig, seqMax: nat, s: PconWorld, start: nat, q: nat, mark: bool,
                        power: real, now: Time)
    requires Sensible(p) && PconInv(p, s, start) && start <= q < s.base.tables.seqNo <= UINT32_MAX
    ensures PconInv(p, AfterPconEvent(c, p, seqMax, s, Content(q, mark, power, now)), start)
    ensures Asserted(c, p, s, Content(q, mark, power, now))
  {
    hide Inv, Conservative, AfterData, LogData, AfterPconData, DiffAsserted, CutLog;
    var t := s.base.tables;
    assert Narrow(q) == q;
    EventKeepsInv(c, s.base, start, seqMax, Data(q, now));
    EventKeepsWindowOk(c, p, seqMax, s, Content(q, mark, power, now));
    ContentInFlight(c, t, q, now);
    DataKeepsSeqNo(c, t, q, now);
    ContentKeepsTrails(p, s, start, t.seqNo, q, mark, power, now);
  }

  lemma DataKeepsSeqNo(c: Config, t: Tables, q: Seq, now: Time)
    ensures AfterData(c, t, q, now).seqNo == t.seqNo
  {
  }

  lemma TimerKeepsInv(c: Config, p: PconConfig, seqMax: nat, s: PconWorld, start: nat, now: Time)
    requires Sensible(p) && PconInv(p, s, start) && s.base.tables.seqNo <= UINT32_MAX
    ensures PconInv(p, AfterPconEvent(c, p, seqMax, s, Timer(now)), start)
    ensures Asserted(c, p, s, Timer(now))
  {
    hide Inv, Conservative, Marked, BackoffTimes, Rto, Expired, DiffAsserted, CutLogs, DecreasedTimes, Sensible,
        WindowOk, TimeoutCount;
    var t := s.base.tables;
    EventKeepsInv(c, s.base, start, seqMax, Sweep(now));
    EventKeepsWindowOk(c, p, seqMax, s, Timer(now));
    TimerInFlight(c, t, now);
    TimerNeedsIssued(c, s.base, start, now);
    TimerKeepsTrails(c, p, s, t.seqNo, now);
  }

  lemma TimerNeedsIssued(c: Config, w: World, start: nat, now: Time)
    requires Inv(w, start)
    ensures TimeoutCount(c, w.tables, now) > 0 ==> w.tables.seqNo > 0
  {
    hide Tabulated, Karn, Logged, Sampled, Rto;
    var s := Expired(w.tables.seqTimeouts, Rto(c, w.tables.estimate), now);
    if s != {} {
      var q :| q in s;
      assert start <= q < w.tables.seqNo;
    }
  }

  lemma TimerKeepsTrails(c: Config, p: PconConfig, s: PconWorld, seqNo: nat, now: Time)
    requires Sensible(p) && Trails(s.window.highData, seqNo) && seqNo == s.base.tables.seqNo <= UINT32_MAX
    requires p.useCwa ==> Conservative(s.window, s.received, s.cuts)
    requires TimeoutCount(c, s.base.tables, now) > 0 ==> seqNo > 0
    ensures var k := TimeoutCount(c, s.base.tables, now);
            var w' := DecreasedTimes(p, s.window, seqNo, now, k);
            && Trails(w'.highData, seqNo)
            && (p.useCwa ==> Conservative(w', s.received, s.cuts + CutLogs(p, s.window, seqNo, now, s.received, k)))
    ensures Asserted(c, p, s, Timer(now))
  {
    hide Conservative, CutLogs, TimeoutCount, Sound, Spaced, Cut;
    var k := TimeoutCount(c, s.base.tables, now);
    if p.useCwa {
      SweepCutsOnce(p, s.window, seqNo, now, s.received, s.cuts, k);
    }
    if k > 0 {
      forall j | 0 <= j <= k
        ensures DiffAsserted(p, DecreasedTimes(p, s.window, seqNo, now, j), seqNo)
        ensures DecreasedTimes(p, s.window, seqNo, now, j).highData == s.window.highData
      {
        DiffStaysAsserted(p, s.window, seqNo, now, j);
      }
    }
  }

  lemma PconEventKeepsInv(c: Config, p: PconConfig, seqMax: nat, s: PconWorld, start: nat, e: PconEvent)
    requires Sensible(p) && PconInv(p, s, start) && Allowed(s, start, e)
    ensures PconInv(p, AfterPconEvent(c, p, seqMax, s, e), start) && Asserted(c, p, s, e)
  {
    assert s.base.tables.seqNo <= UINT32_MAX by {
      hide Tabulated, Karn, Logged, Sampled, Conservative;
    }
    hide Inv, Conservative;
    match e
    case Request(now) =>
      RequestKeepsInv(c, p, seqMax, s, start, now);
    case Content(q, mark, power, now) =>
      ContentKeepsInv(c, p, seqMax, s, start, q, mark, power, now);
    case Timer(now) =>
      TimerKeepsInv(c, p, seqMax, s, start, now);
    case Switch(on) =>
      EventKeepsInv(c, s.base, start, seqMax, Activate(on));
  }

  /**
   Main result: in every run the window keeps its floor, decreases are spaced and m_inFlight counts only waiting
   numbers.
   */
  lemma {:induction false} PconRunKeepsInv(c: Config, p: PconConfig, seqMax: nat, s: PconWorld, start: nat,
                                           es: seq<PconEvent>)
    requires Sensible(p) && PconInv(p, s, start) && AllowedRun(c, p, seqMax, s, start, es)
    ensures PconInv(p, AfterPconEvents(c, p, seqMax, s, es), start)
    ensures forall i :: 0 <= i < |es| ==> Asserted(c, p, AfterPconEvents(c, p, seqMax, s, es[..i]), es[i])
  {
    hide Inv, Conservative, Allowed, Asserted, AfterPconEvent, Sensible, Trails;
    if |es| > 0 {
      var n := |es| - 1;
      assert forall i :: 0 <= i < n ==> es[..n][..i] == es[..i];
      PconRunKeepsInv(c, p, seqMax, s, start, es[..n]);
      var s1 := AfterPconEvents(c, p, seqMax, s, es[..n]);
      PconEventKeepsInv(c, p, seqMax, s1, start, es[n]);
    }
  }

  /** The same for a consumer that has just started, spelled out. */
  lemma FreshRunOutcomes(c: Config, p: PconConfig, seqMax: nat, start: nat, initialEstimate: Time, now: Time,
                         es: seq<PconEvent>)
    requires Sensible(p) && start <= UINT32_MAX
    requires AllowedRun(c, p, seqMax, FreshPcon(c, p, start, initialEstimate, now), start, es)
    ensures var s := AfterPconEvents(c, p, seqMax, FreshPcon(c, p, start, initialEstimate, now), es);
            && s.window.size >= p.initialWindow as real
            && s.inFlight <= |s.base.tables.seqTimeouts|
            && (p.useCwa ==> forall i :: 0 < i < |s.cuts| ==> Spaced(s.cuts[i - 1], s.cuts[i]))
            && (forall q :: start <= q < s.base.tables.seqNo <==>
                  q in s.base.log.satisfied || q in s.base.tables.seqTimeouts || q in s.base.tables.retxSeqs)
  {
    FreshPconInv(c, p, start, initialEstimate, now);
    hide AllowedRun, AfterPconEvents, FreshPcon;
    PconRunKeepsInv(c, p, seqMax, FreshPcon(c, p, start, initialEstimate, now), start, es);
  }

  // ---- When the assertions of the source fail ----

  /** The highest Data number once Data for q is in, on 32 bits. */
  function Highest(highData: nat, q: nat): nat {
    if highData < q then Narrow(q) else highData
  }

  /**
   In every state, Data with a congestion mark that is reacted to fails diff > 0 exactly when the decrease is not
   suppressed and m_seq equals, on 32 bits, the highest Data number it leaves.
   */
  lemma MarkedContentAsserts(c: Config, p: PconConfig, s: PconWorld, q: nat, power: real, now: Time)
    ensures var high := Highest(s.window.highData, q);
            Asserted(c, p, s, Content(q, true, power, now)) <==>
            !(p.reactToCongestionMarks && (!p.useCwa || high as real > s.window.recPoint)
              && Narrow(s.base.tables.seqNo) == Narrow(high))
  {
    DiffVanishes(s.base.tables.seqNo, Highest(s.window.highData, q));
  }

  /**
   In every state, a timer sweep fails it exactly when some number times out, the first decrease is not suppressed and
   the two are equal.
   */
  lemma TimerAsserts(c: Config, p: PconConfig, s: PconWorld, now: Time)
    ensures Asserted(c, p, s, Timer(now)) <==>
            !(TimeoutCount(c, s.base.tables, now) > 0 && (!p.useCwa || s.window.highData as real > s.window.recPoint)
              && Narrow(s.base.tables.seqNo) == Narrow(s.window.highData))
  {
    var w, seqNo, k := s.window, s.base.tables.seqNo, TimeoutCount(c, s.base.tables, now);
    DiffVanishes(seqNo, w.highData);
    hide TimeoutCount, Diff;
    if DiffAsserted(p, w, seqNo) {
      forall j | 0 <= j < k
        ensures DiffAsserted(p, DecreasedTimes(p, w, seqNo, now, j), seqNo)
      {
        DiffStaysAsserted(p, w, seqNo, now, j);
      }
    } else if k > 0 {
      assert DecreasedTimes(p, w, seqNo, now, 0) == w;
    }
  }

  lemma DiffVanishes(seqNo: nat, highData: nat)
    ensures Diff(seqNo, highData) == 0 <==> Narrow(seqNo) == Narrow(highData)
  {
    var m := UINT32_MAX + 1;
    assert (seqNo - highData) == m * (seqNo / m - highData / m) + (Narrow(seqNo) - Narrow(highData));
    var d := Narrow(seqNo) - Narrow(highData);
    assert -m < d < m;
    if d == 0 {
      MultipleVanishes(seqNo / m - highData / m);
    }
  }

  lemma MultipleVanishes(k: int)
    ensures ((UINT32_MAX + 1) * k) % (UINT32_MAX + 1) == 0
  {
  }

  lemma UnmarkedStep(c: Config, p: PconConfig, seqMax: nat, s: PconWorld, q: nat, now: Time)
    requires s.window.size > 0.0
    ensures var s' := AfterPconEvent(c, p, seqMax, s, Content(q, false, 0.0, now));
            && s'.window.highData == Highest(s.window.highData, q) && s'.window.recPoint == s.window.recPoint
            && s'.base.tables.seqNo == s.base.tables.seqNo && s'.base.tables.active == s.base.tables.active
            && s'.base.tables.retxSeqs <= s.base.tables.retxSeqs
  {
    hide Sample, Measured, Dropped, LogData;
  }

  lemma RequestStep(c: Config, p: PconConfig, seqMax: nat, s: PconWorld, now: Time)
    requires s.window.size > 0.0 && s.base.tables.active && s.base.tables.retxSeqs == {}
    requires s.base.tables.seqNo < seqMax && s.base.tables.seqNo < UINT32_MAX
    ensures var s' := AfterPconEvent(c, p, seqMax, s, Request(now));
            s'.window == s.window && s'.base.tables.seqNo == s.base.tables.seqNo + 1
  {
    hide Noted, LogSend, Inserted;
  }

  /**
   The assertion can fail for an issued number too, once other Data was not: Data for number 1, which was never
   asked for, one request, then marked Data for number 0, which was.
   */
  lemma IssuedDataCanFail(c: Config, p: PconConfig, seqMax: nat, initialEstimate: Time, now: Time)
    requires Sensible(p) && p.reactToCongestionMarks && seqMax > 0
    ensures var s := FreshPcon(c, p, 0, initialEstimate, now);
            var s' := AfterPconEvents(c, p, seqMax, s, [Content(1, false, 0.0, now), Request(now)]);
            && s'.base.tables.seqNo == 1 && s'.window.highData == 1
            && !Asserted(c, p, s', Content(0, true, 0.0, now))
  {
    var s := FreshPcon(c, p, 0, initialEstimate, now);
    var e1, e2 := Content(1, false, 0.0, now), Request(now);
    assert [e1, e2][..1] == [e1] && [e1][..0] == [];
    hide Asserted, AfterPconEvent;
    var s1 := AfterPconEvent(c, p, seqMax, s, e1);
    assert AfterPconEvents(c, p, seqMax, s, [e1]) == s1;
    UnmarkedStep(c, p, seqMax, s, 1, now);
    var s2 := AfterPconEvent(c, p, seqMax, s1, e2);
    assert AfterPconEvents(c, p, seqMax, s, [e1, e2]) == s2;
    hide AfterPconEvents, Sensible;
    RequestStep(c, p, seqMax, s1, now);
    MarkedContentAsserts(c, p, s2, 0, 0.0, now);
  }
}
