/** The window of a ConsumerPcon in numbers: what one decrease, k decreases and k Data in a row leave. */
module WindowLaws {
  import opened Wrappers
  import opened Rtt
  import opened Consumers
  import opened ConsumerRuns
  import opened Pcon
  import opened PconRuns

  // ---- One decrease ----

  /**
   What CUBIC remembers of it: the time, the window, and as Wmax the window or, with fast convergence and a window below
   99 percent of the last one, the mean of the window and its reduced value (sections 4.5 and 4.6 of RFC 8312).
   */
  lemma CubicRemembers(p: PconConfig, w: Window, seqNo: nat, now: Time)
    requires p.ccAlgorithm.CUBIC? && Effective(p, w)
    ensures var w' := Decreased(p, w, seqNo, now);
            && w'.cubicLastWmax == w.size && w'.cubicLastDecrease == now
            && if p.useCubicFastConv && 100.0 * w.size < 99.0 * w.cubicLastWmax
               then 2.0 * w'.cubicWmax == w.size + p.cubicBeta * w.size
               else w'.cubicWmax == w.size
  {
    assert w.size * (1.0 + p.cubicBeta) == w.size + p.cubicBeta * w.size;
  }

  // ---- Decreases in runs ----

  lemma Scales(b: real, x: real, y: real)
    requires 0.0 < b && x <= y
    ensures Times(b, x) <= Times(b, y)
  {
    ProductPositive(b, y - x);
    assert b * y - b * x == b * (y - x);
  }

  lemma Shares(b: real, x: real)
    requires 0.0 < b < 1.0 && 0.0 <= x
    ensures Times(b, x) <= x && (x > 0.0 ==> 0.0 < Times(b, x) < x)
  {
    ProductPositive(1.0 - b, x);
    ProductPositive(b, x);
    assert x - b * x == (1.0 - b) * x;
  }

  lemma Associates(b: real, x: real, y: real)
    ensures Times(b, Times(x, y)) == Times(Times(b, x), y)
  {
  }

  lemma MaxScaled(least: real, b: real, x: real)
    requires 0.0 < b < 1.0 && 0.0 <= least
    ensures Max(least, Times(b, Max(least, x))) == Max(least, Times(b, x))
  {
    hide Times;
    Shares(b, least);
    if x < least {
      Scales(b, x, least);
    }
  }

  /** Two factors one after the other are their product. */
  lemma ShrunkTwice(p: PconConfig, b: real, x: real, size: real)
    requires 0.0 < b < 1.0
    ensures Shrunk(p, b, Shrunk(p, x, size)) == Shrunk(p, Times(b, x), size)
  {
    hide Times, Max;
    MaxScaled(p.initialWindow as real, b, Times(x, size));
    Associates(b, x, size);
  }

  lemma ShrunkByOne(p: PconConfig, size: real)
    requires size >= p.initialWindow as real
    ensures Shrunk(p, 1.0, size) == size
  {
  }

  lemma ShrunkStrictly(p: PconConfig, x: real, size: real)
    requires 0.0 < x < 1.0 && size > p.initialWindow as real
    ensures Shrunk(p, x, size) < size
  {
    hide Times;
    Shares(x, size);
  }

  lemma NoPower(b: real)
    ensures Power(b, 0) == 1.0
  {
  }

  lemma NextPower(b: real, k: nat)
    ensures Power(b, k + 1) == Times(b, Power(b, k))
  {
  }

  lemma {:induction false} PowerShrinks(b: real, k: nat)
    requires 0.0 < b < 1.0 && k > 0
    ensures 0.0 < Power(b, k) < 1.0
  {
    hide *;
    NoPower(b);
    if k > 1 {
      PowerShrinks(b, k - 1);
    }
    Shares(b, Power(b, k - 1));
    NextPower(b, k - 1);
    assert k - 1 + 1 == k;
  }

  /** The window after k decreases. */
  ghost predicate Reduced(p: PconConfig, size: real, k: nat, size': real) {
    size' == Shrunk(p, Power(Share(p), k), size)
  }

  lemma NotReduced(p: PconConfig, size: real)
    requires size >= p.initialWindow as real
    ensures Reduced(p, size, 0, size)
  {
    NoPower(Share(p));
    hide Shrunk, Share, Power;
    ShrunkByOne(p, size);
  }

  lemma ReducedOnce(p: PconConfig, w: Window, seqNo: nat, now: Time)
    ensures var size' := Decreased(p, w, seqNo, now).size;
            size' == if p.useCwa && w.highData as real <= w.recPoint then w.size else Shrunk(p, Share(p), w.size)
  {
    DecreaseIsExact(p, w, seqNo, now);
    hide Decreased, Shrunk, Share;
  }

  /** One more attempt to decrease: one entry of the log and one more factor, or neither. */
  lemma OneMoreCut(p: PconConfig, size: real, k: nat, w: Window, seqNo: nat, now: Time, received: set<nat>)
    requires Sensible(p) && Reduced(p, size, k, w.size)
    ensures Reduced(p, size, k + |CutLog(p, w, seqNo, now, received)|, Decreased(p, w, seqNo, now).size)
  {
    var share := Share(p);
    assert 0.0 < share < 1.0;
    hide Power, Share, Decreased, CutLog, Shrunk, Sensible;
    ReducedOnce(p, w, seqNo, now);
    CutLogIs(p, w, seqNo, now, received);
    NextPower(share, k);
    ShrunkTwice(p, share, Power(share, k), size);
  }

  lemma CutLogIs(p: PconConfig, w: Window, seqNo: nat, now: Time, received: set<nat>)
    ensures |CutLog(p, w, seqNo, now, received)| == if p.useCwa && w.highData as real <= w.recPoint then 0 else 1
  {
  }

  lemma {:induction false} MoreCuts(p: PconConfig, size: real, k: nat, w: Window, seqNo: nat, now: Time,
                                    received: set<nat>, n: nat)
    requires Sensible(p) && Reduced(p, size, k, w.size)
    ensures Reduced(p, size, k + |CutLogs(p, w, seqNo, now, received, n)|, DecreasedTimes(p, w, seqNo, now, n).size)
  {
    hide Reduced, Decreased, CutLog, Sensible;
    if n > 0 {
      MoreCuts(p, size, k, w, seqNo, now, received, n - 1);
      OneMoreCut(p, size, k + |CutLogs(p, w, seqNo, now, received, n - 1)|, DecreasedTimes(p, w, seqNo, now, n - 1),
                 seqNo, now, received);
    }
  }

  predicate Increases(e: PconEvent) {
    e.Content? && !e.mark
  }

  lemma EventReduces(c: Config, p: PconConfig, seqMax: nat, s: PconWorld, e: PconEvent, size: real, k: nat)
    requires Sensible(p) && s.window.size > 0.0 && Reduced(p, size, k, s.window.size) && !Increases(e)
    ensures var s' := AfterPconEvent(c, p, seqMax, s, e);
            |s'.cuts| >= |s.cuts| && Reduced(p, size, k + |s'.cuts| - |s.cuts|, s'.window.size)
  {
    hide Reduced, Decreased, DecreasedTimes, CutLog, CutLogs, AfterEvent, Sensible, TimeoutCount;
    var t := s.base.tables;
    match e
    case Content(q, mark, power, now) =>
      OneMoreCut(p, size, k, HighDataRaised(s.window, q), t.seqNo, now, s.received + {q});
    case Timer(now) =>
      MoreCuts(p, size, k, s.window, t.seqNo, now, s.received, TimeoutCount(c, t, now));
    case _ =>
  }

  lemma {:induction false} RunReduces(c: Config, p: PconConfig, seqMax: nat, s: PconWorld, es: seq<PconEvent>)
    requires Sensible(p) && WindowOk(p, s.window) && forall e :: e in es ==> !Increases(e)
    ensures var s' := AfterPconEvents(c, p, seqMax, s, es);
            |s'.cuts| >= |s.cuts| && Reduced(p, s.window.size, |s'.cuts| - |s.cuts|, s'.window.size)
  {
    hide AfterPconEvent, Reduced, Increases;
    if es == [] {
      NotReduced(p, s.window.size);
    } else {
      var n := |es| - 1;
      assert forall e :: e in es[..n] ==> e in es;
      RunReduces(c, p, seqMax, s, es[..n]);
      var s1 := AfterPconEvents(c, p, seqMax, s, es[..n]);
      assert es[n] in es;
      EventReduces(c, p, seqMax, s1, es[n], s.window.size, |s1.cuts| - |s.cuts|);
    }
  }

  /**
   A run in which no Data increases the window: with k decreases that took effect, by marked Data or by timeouts, the
   window is multiplied k times by the factor, down to the initial window.
   */
  lemma DecreasesCompound(c: Config, p: PconConfig, seqMax: nat, s: PconWorld, es: seq<PconEvent>)
    requires Sensible(p) && WindowOk(p, s.window) && forall e :: e in es ==> !Increases(e)
    ensures var s' := AfterPconEvents(c, p, seqMax, s, es);
            && |s'.cuts| >= |s.cuts|
            && s'.window.size == Shrunk(p, Power(Share(p), |s'.cuts| - |s.cuts|), s.window.size)
  {
    hide AfterPconEvents, Power, Share, Shrunk, Increases, Sensible, WindowOk;
    RunReduces(c, p, seqMax, s, es);
  }

  /** So above the initial window every decrease that takes effect makes the window strictly smaller. */
  lemma DecreaseIsStrict(c: Config, p: PconConfig, seqMax: nat, s: PconWorld, es: seq<PconEvent>)
    requires Sensible(p) && WindowOk(p, s.window) && forall e :: e in es ==> !Increases(e)
    requires s.window.size > p.initialWindow as real
    ensures var s' := AfterPconEvents(c, p, seqMax, s, es);
            |s'.cuts| > |s.cuts| <==> s'.window.size < s.window.size
  {
    RunReduces(c, p, seqMax, s, es);
    var s' := AfterPconEvents(c, p, seqMax, s, es);
    ReducedStrictly(p, s.window.size, |s'.cuts| - |s.cuts|, s'.window.size);
    hide AfterPconEvents, Reduced, Increases;
  }

  lemma ReducedStrictly(p: PconConfig, size: real, k: nat, size': real)
    requires Sensible(p) && Reduced(p, size, k, size') && size > p.initialWindow as real
    ensures k > 0 <==> size' < size
  {
    var share := Share(p);
    assert 0.0 < share < 1.0;
    hide Power, Share, Shrunk, Sensible;
    if k > 0 {
      PowerShrinks(share, k);
      ShrunkStrictly(p, Power(share, k), size);
    } else {
      NoPower(share);
      ShrunkByOne(p, size);
    }
  }

  // ---- Increases ----

  /** Below the threshold k unmarked Data make the window exactly k greater, whatever the algorithm. */
  lemma {:induction false} SlowStartAddsOneEach(c: Config, p: PconConfig, seqMax: nat, s: PconWorld,
                                                es: seq<PconEvent>)
    requires Sensible(p) && WindowOk(p, s.window) && forall e :: e in es ==> Increases(e)
    requires s.window.ssthresh.Unlimited? || s.window.size + |es| as real - 1.0 < s.window.ssthresh.value
    ensures var w' := AfterPconEvents(c, p, seqMax, s, es).window;
            w'.size == s.window.size + |es| as real && w'.ssthresh == s.window.ssthresh
  {
    hide AfterPconEvent, Increases;
    if es != [] {
      var n := |es| - 1;
      assert forall e :: e in es[..n] ==> e in es;
      SlowStartAddsOneEach(c, p, seqMax, s, es[..n]);
      var s1 := AfterPconEvents(c, p, seqMax, s, es[..n]);
      assert es[n] in es;
      DataInSlowStart(c, p, seqMax, s1, es[n]);
    }
  }

  lemma DataInSlowStart(c: Config, p: PconConfig, seqMax: nat, s: PconWorld, e: PconEvent)
    requires s.window.size > 0.0 && Increases(e) && BelowThreshold(s.window)
    ensures var w' := AfterPconEvent(c, p, seqMax, s, e).window;
            w'.size == s.window.size + 1.0 && w'.ssthresh == s.window.ssthresh
  {
    hide AfterEvent;
  }

  /** A new consumer starts in slow start: k unmarked Data make its window the initial one plus k. */
  lemma NewConsumerStartsSlowly(c: Config, p: PconConfig, seqMax: nat, start: nat, initialEstimate: Time, now: Time,
                                es: seq<PconEvent>)
    requires Sensible(p) && start <= UINT32_MAX && forall e :: e in es ==> Increases(e)
    ensures var s := FreshPcon(c, p, start, initialEstimate, now);
            AfterPconEvents(c, p, seqMax, s, es).window.size == (p.initialWindow + |es|) as real
  {
    hide Increases, AfterPconEvents;
    FreshPconInv(c, p, start, initialEstimate, now);
    SlowStartAddsOneEach(c, p, seqMax, FreshPcon(c, p, start, initialEstimate, now), es);
  }

  /** Its first marked Data, for any number but 0, is not suppressed. */
  lemma FirstMarkTakesEffect(c: Config, p: PconConfig, seqMax: nat, start: nat, initialEstimate: Time, now: Time,
                             q: nat, power: real, later: Time)
    requires Sensible(p) && p.reactToCongestionMarks && 0 < q <= UINT32_MAX
    ensures var s := FreshPcon(c, p, start, initialEstimate, now);
            && s.inFlight == 0 && s.cuts == []
            && |AfterPconEvent(c, p, seqMax, s, Content(q, true, power, later)).cuts| == 1
  {
    var s := FreshPcon(c, p, start, initialEstimate, now);
    CutLogIs(p, HighDataRaised(s.window, q), start, later, {} + {q});
    hide CutLog, AfterEvent, Decreased;
  }

  /** At the threshold one AIMD window's worth of Data adds nearly one: at least the share w / (w + 1). */
  lemma {:induction false} AvoidanceAddsAtLeast(p: PconConfig, w: Window, k: nat)
    requires p.ccAlgorithm.AIMD? && w.size > 0.0 && !BelowThreshold(w) && k as real <= w.size
    ensures IncreasedTimes(p, w, k).size >= w.size + k as real / (w.size + 1.0)
  {
    if k > 0 {
      AvoidanceAddsAtLeast(p, w, k - 1);
      AvoidanceAddsAtMostOne(p, w, k - 1);
      var before := IncreasedTimes(p, w, k - 1);
      assert IncreasedTimes(p, w, k) == before.(size := before.size + 1.0 / before.size);
      hide IncreasedTimes, Increased;
      Reciprocals(before.size, w.size + 1.0);
      OneMore(k - 1, w.size + 1.0);
    }
  }

  /** Unmarked Data at the threshold: AIMD adds 1 / w; CUBIC adds the distance to its target over w, if positive. */
  lemma AvoidanceIsExact(c: Config, p: PconConfig, seqMax: nat, s: PconWorld, q: nat, power: real, now: Time)
    requires s.window.size > 0.0 && !BelowThreshold(s.window)
    ensures var w, w' := s.window, AfterPconEvent(c, p, seqMax, s, Content(q, false, power, now)).window;
            && (w'.size - w.size) * w.size ==
               (if p.ccAlgorithm.AIMD? then 1.0 else Max(0.0, 0.4 * power + w.cubicWmax - w.size))
            && w'.ssthresh == w.ssthresh && w'.recPoint == w.recPoint
  {
    hide AfterEvent;
  }

  /**
   Right after a CUBIC decrease that neither the floor nor fast convergence touched the target is the window itself, so
   Data adds nothing then. power is that of section 4.1 of RFC 8312 at time 0: its cube root is -K.
   */
  lemma CubicStartsAtWindow(p: PconConfig, w: Window, seqNo: nat, now: Time, power: real)
    requires p.ccAlgorithm.CUBIC? && Effective(p, w) && !p.useCubicFastConv && w.size > 0.0
    requires p.cubicBeta * w.size > 0.0 && p.cubicBeta * w.size >= p.initialWindow as real
    requires var w' := Decreased(p, w, seqNo, now); 0.4 * power == -(w'.cubicWmax * (1.0 - p.cubicBeta))
    ensures var w' := Decreased(p, w, seqNo, now);
            w'.size > 0.0 && Increased(p, w', power) == w'
  {
    DecreaseIsExact(p, w, seqNo, now);
    CubicRemembers(p, w, seqNo, now);
    assert w.size * (1.0 - p.cubicBeta) == w.size - p.cubicBeta * w.size;
    hide Decreased;
  }

  // ---- m_inFlight ----

  /** What an event should add to m_inFlight: a sent number, Data, or the numbers that left the timer table. */
  ghost function Flow(c: Config, p: PconConfig, seqMax: nat, s: PconWorld, e: PconEvent): int
    requires s.window.size > 0.0
  {
    var s' := AfterPconEvent(c, p, seqMax, s, e);
    match e
    case Request(_) => if s'.base.log.sends != s.base.log.sends then 1 else 0
    case Content(_, _, _, _) => -1
    case Timer(_) => |s'.base.tables.seqTimeouts| - |s.base.tables.seqTimeouts|
    case Switch(_) => 0
  }

  ghost function Balance(c: Config, p: PconConfig, seqMax: nat, s: PconWorld, es: seq<PconEvent>): int
    requires Sensible(p) && WindowOk(p, s.window)
  {
    if es == [] then s.inFlight
    else
      var n := |es| - 1;
      Balance(c, p, seqMax, s, es[..n]) + Flow(c, p, seqMax, AfterPconEvents(c, p, seqMax, s, es[..n]), es[n])
  }

  lemma RequestFlow(w: World, c: Config, seqMax: nat, now: Time)
    ensures AfterEvent(c, seqMax, w, Send(now)).log.sends != w.log.sends <==>
            w.tables.active && Picked(w.tables, seqMax).1.Some?
  {
    hide Picked, Recorded;
    var q := if w.tables.active then Picked(w.tables, seqMax).1 else None;
    if q.Some? && q.value in w.log.sends {
      assert LogSend(w.log, q.value, now).sends[q.value] == w.log.sends[q.value] + 1;
    }
  }

  lemma TimerFlow(c: Config, t: Tables, now: Time)
    ensures |AfterSweep(c, t, now).seqTimeouts| == |t.seqTimeouts| - TimeoutCount(c, t, now)
  {
    hide Rto, Marked, BackoffTimes;
    var s := Expired(t.seqTimeouts, Rto(c, t.estimate), now);
    assert (t.seqTimeouts - s).Keys == t.seqTimeouts.Keys - s;
    assert t.seqTimeouts.Keys == (t.seqTimeouts.Keys - s) + s;
  }

  lemma EventFlow(c: Config, p: PconConfig, seqMax: nat, s: PconWorld, e: PconEvent)
    requires s.window.size > 0.0
    ensures var sum := s.inFlight + Flow(c, p, seqMax, s, e);
            AfterPconEvent(c, p, seqMax, s, e).inFlight == if sum < 0 then 0 else sum
  {
    hide AfterSweep, AfterSend, AfterData, LogSend, LogData, Picked, TimeoutCount, AfterPconData, DecreasedTimes,
        CutLogs;
    match e
    case Request(now) => RequestFlow(s.base, c, seqMax, now);
    case Timer(now) => TimerFlow(c, s.base.tables, now);
    case _ =>
  }

  /**
   In every run m_inFlight is at least what was sent less what arrived or timed out, and exactly that as long as this
   has never been negative.
   */
  lemma {:induction false} InFlightIsBalance(c: Config, p: PconConfig, seqMax: nat, s: PconWorld, es: seq<PconEvent>)
    requires Sensible(p) && WindowOk(p, s.window)
    ensures var inFlight := AfterPconEvents(c, p, seqMax, s, es).inFlight;
            && inFlight >= Balance(c, p, seqMax, s, es)
            && ((forall i :: 0 <= i <= |es| ==> Balance(c, p, seqMax, s, es[..i]) >= 0) ==>
                  inFlight == Balance(c, p, seqMax, s, es))
  {
    hide Flow, AfterPconEvent, Sensible, WindowOk;
    if es != [] {
      var n := |es| - 1;
      InFlightIsBalance(c, p, seqMax, s, es[..n]);
      assert forall i :: 0 <= i <= n ==> es[..n][..i] == es[..i];
      assert es[..|es|] == es;
      var s1 := AfterPconEvents(c, p, seqMax, s, es[..n]);
      assert s1.window.size > 0.0 by {
        EventsKeepSize(c, p, seqMax, s, es[..n]);
      }
      EventFlow(c, p, seqMax, s1, es[n]);
    }
  }

  lemma EventsKeepSize(c: Config, p: PconConfig, seqMax: nat, s: PconWorld, es: seq<PconEvent>)
    requires Sensible(p) && WindowOk(p, s.window)
    ensures AfterPconEvents(c, p, seqMax, s, es).window.size > 0.0
  {
    assert WindowOk(p, AfterPconEvents(c, p, seqMax, s, es).window);
  }
}
