/**
 ConsumerPcon: window adaptation on top of a base Consumer (apps/ndn-consumer-pcon.cpp, apps/ndn-consumer-window.cpp).
 */
module Pcon {
  import opened Wrappers
  import opened Rtt
  import opened Consumers

  datatype CcAlgorithm = AIMD | CUBIC

  // The largest double stands for "no threshold yet".
  datatype Threshold = Unlimited | Limited(value: real)

  datatype PconConfig = PconConfig(
    ccAlgorithm: CcAlgorithm,
    beta: real,
    cubicBeta: real,
    addRttSuppress: real,
    reactToCongestionMarks: bool,
    useCwa: bool,
    useCubicFastConv: bool,
    initialWindow: nat)

  datatype Window = Window(
    size: real,                  // m_window
    ssthresh: Threshold,
    highData: nat,
    recPoint: real,
    cubicWmax: real,
    cubicLastWmax: real,
    cubicLastDecrease: Time)

  const CUBIC_C: real := 0.4

  function Narrow(n: nat): nat {
    n % (UINT32_MAX + 1)
  }

  // m_seq - m_highData on 32 bits.
  function Diff(seqNo: nat, highData: nat): nat {
    (seqNo - highData) % (UINT32_MAX + 1)
  }

  predicate BelowThreshold(w: Window) {
    w.ssthresh.Unlimited? || w.size < w.ssthresh.value
  }

  predicate Effective(p: PconConfig, w: Window) {
    !p.useCwa || w.highData as real > w.recPoint
  }

  // ---- What the methods do to the window ----

  // power is the value of pow(t - k, 3).
  function Increased(p: PconConfig, w: Window, power: real): Window
    requires w.size > 0.0
  {
    if BelowThreshold(w) then w.(size := w.size + 1.0)
    else if p.ccAlgorithm.AIMD? then w.(size := w.size + 1.0 / w.size)
    else
      var increment := Max(CUBIC_C * power + w.cubicWmax, 0.0) - w.size;
      w.(size := w.size + (if increment < 0.0 then 0.0 else increment) / w.size)
  }

  function Floored(p: PconConfig, size: real): real {
    if size < p.initialWindow as real then p.initialWindow as real else size
  }

  /** One decrease that is not suppressed. */
  function Cut(p: PconConfig, w: Window, seqNo: nat, now: Time): Window {
    var w1 := w.(recPoint := seqNo as real + p.addRttSuppress * Diff(seqNo, w.highData) as real);
    if p.ccAlgorithm.AIMD? then
      w1.(ssthresh := Limited(w.size * p.beta), size := Floored(p, w.size * p.beta))
    else
      var threshold := Floored(p, w.size * p.cubicBeta);
      w1.(cubicLastWmax := w.size,
          cubicWmax := if p.useCubicFastConv && w.size < w.cubicLastWmax * 0.99 then w.size * (1.0 + p.cubicBeta) / 2.0
              else w.size,
          ssthresh := Limited(threshold), size := threshold, cubicLastDecrease := now)
  }

  function Decreased(p: PconConfig, w: Window, seqNo: nat, now: Time): Window {
    if Effective(p, w) then Cut(p, w, seqNo, now) else w
  }

  function DecreasedTimes(p: PconConfig, w: Window, seqNo: nat, now: Time, k: nat): Window {
    if k == 0 then w else Decreased(p, DecreasedTimes(p, w, seqNo, now, k - 1), seqNo, now)
  }

  function HighDataRaised(w: Window, q: nat): Window {
    if w.highData < q then w.(highData := Narrow(q)) else w
  }

  function AfterPconData(p: PconConfig, w: Window, seqNo: nat, q: nat, mark: bool, power: real, now: Time): Window
    requires w.size > 0.0
  {
    var w1 := HighDataRaised(w, q);
    if !mark then Increased(p, w1, power)
    else if p.reactToCongestionMarks then Decreased(p, w1, seqNo, now)
    else w1
  }

  function Less(n: nat, k: nat): nat {
    if n <= k then 0 else n - k
  }

  // ---- The assertions of the source ----

  /** BOOST_ASSERT(diff > 0) holds in WindowDecrease. */
  predicate DiffAsserted(p: PconConfig, w: Window, seqNo: nat) {
    Effective(p, w) ==> Diff(seqNo, w.highData) > 0
  }

  /** BOOST_ASSERT(m_cubicWmax > 0) holds in CubicIncrease. */
  predicate WmaxAsserted(p: PconConfig, w: Window) {
    p.ccAlgorithm.CUBIC? && !BelowThreshold(w) ==> w.cubicWmax > 0.0
  }

  class ConsumerPcon {
    const base: Consumer
    const config: PconConfig
    var window: real
    var ssthresh: Threshold
    var highData: nat
    var recPoint: real
    var cubicWmax: real
    var cubicLastWmax: real
    var cubicLastDecrease: Time
    var inFlight: nat

    constructor (base: Consumer, config: PconConfig, now: Time)
      ensures this.base == base && this.config == config && inFlight == 0
      ensures View() == NewWindow(config, now)
    {
      this.base, this.config, inFlight := base, config, 0;
      window, ssthresh, highData, recPoint := config.initialWindow as real, Unlimited, 0, 0.0;
      cubicWmax, cubicLastWmax, cubicLastDecrease := 0.0, 0.0, now;
    }

    function View(): Window
      reads this
    {
      Window(window, ssthresh, highData, recPoint, cubicWmax, cubicLastWmax, cubicLastDecrease)
    }

    method SendPacket(now: Time) returns (sent: Option<Seq>)
      requires this !in {base as object, base.rtt}
      modifies this`inFlight, base, base.rtt
      ensures base.View() == AfterSend(old(base.View()), base.seqMax, now)
      ensures sent == if old(base.active) then Picked(old(base.View()), base.seqMax).1 else None
      ensures inFlight == old(inFlight) + if sent.Some? then 1 else 0
    {
      sent := base.SendPacket(now);
      if sent.Some? {
        inFlight := inFlight + 1;
      }
    }

    // ---- Lines 104-136 ----

    method OnData(q: nat, mark: bool, power: real, now: Time)
      requires this !in {base as object, base.rtt} && window > 0.0
      requires mark && config.reactToCongestionMarks ==> DiffAsserted(config, HighDataRaised(View(), q), base.seqNo)
      requires !mark ==> WmaxAsserted(config, View())
      modifies this, base, base.rtt
      ensures base.View() == AfterData(base.rtt.config, old(base.View()), Narrow(q), now)
      ensures View() == AfterPconData(config, old(View()), old(base.seqNo), q, mark, power, now)
      ensures inFlight == Less(old(inFlight), 1)
    {
      var sample := base.OnData(Narrow(q), now);
      if highData < q {
        highData := Narrow(q);
      }
      if mark {
        if config.reactToCongestionMarks {
          WindowDecrease(now);
        }
      } else {
        WindowIncrease(power);
      }
      if inFlight > 0 {
        inFlight := inFlight - 1;
      }
    }

    // ---- Lines 138-150 ----

    method OnTimeout(q: Seq, now: Time)
      requires this !in {base as object, base.rtt}
      requires DiffAsserted(config, View(), base.seqNo)
      modifies this, base, base.rtt
      ensures base.View() == AfterTimeout(base.rtt.config, old(base.View()), q, now)
      ensures View() == Decreased(config, old(View()), old(base.seqNo), now)
      ensures inFlight == Less(old(inFlight), 1)
    {
      WindowDecrease(now);
      if inFlight > 0 {
        inFlight := inFlight - 1;
      }
      base.OnTimeout(q, now);
    }

    /** Consumer::CheckRetxTimeout with this class's OnTimeout. */
    method CheckRetxTimeout(now: Time)
      requires this !in {base as object, base.rtt}
      requires Distinct(base.rtt.history) && base.seqTimeouts.Keys <= Numbers(base.rtt.history)
      requires DiffAsserted(config, View(), base.seqNo)
      modifies this, base, base.rtt
      ensures base.View() == AfterSweep(base.rtt.config, old(base.View()), now)
      ensures var k := |Expired(old(base.seqTimeouts), Rto(base.rtt.config, old(base.rtt.View())), now)|;
              View() == DecreasedTimes(config, old(View()), old(base.seqNo), now, k)
                  && inFlight == Less(old(inFlight), k)
    {
      hide Rto, TimedOut, AfterTimeout, Distinct, Numbers, DiffAsserted, Decreased, DecreasedTimes, Less;
      NoDecrease(config, View(), base.seqNo, now, inFlight);
      var rto := base.rtt.RetransmitTimeout();
      ghost var was, seqNo, window0 := base.View(), base.seqNo, View();
      ghost var done: set<Seq> := {};
      NothingTimedOut(base.rtt.config, was);
      while base.seqTimeouts != map[]
        invariant done <= Expired(was.seqTimeouts, rto, now) && base.View() == TimedOut(base.rtt.config, was, done)
        invariant View() == DecreasedTimes(config, window0, seqNo, now, |done|)
                && inFlight == Less(old(inFlight), |done|)
        decreases was.seqTimeouts.Keys - done
      {
        TimedOutLeaves(base.rtt.config, was, done);
        var q := base.Earliest();
        if base.seqTimeouts[q] + rto <= now {
          NextTimeout(base.rtt.config, was, done, q, now);
          DiffStaysAsserted(config, window0, seqNo, now, |done|);
          NextDecrease(config, window0, seqNo, now, done, q, old(inFlight));
          base.seqTimeouts := base.seqTimeouts - {q};
          OnTimeout(q, now);
          done := done + {q};
        } else {
          break;
        }
      }
      TimedOutLeaves(base.rtt.config, was, done);
      NoneLeft(was.seqTimeouts, done, rto, now);
    }

    // ---- Lines 152-209 ----

    method WindowIncrease(power: real)
      requires window > 0.0 && WmaxAsserted(config, View())
      modifies this`window
      ensures View() == Increased(config, old(View()), power)
    {
      match config.ccAlgorithm
      case AIMD =>
        if ssthresh.Unlimited? || window < ssthresh.value {
          window := window + 1.0;
        } else {
          window := window + 1.0 / window;
        }
      case CUBIC =>
        CubicIncrease(power);
    }

    method WindowDecrease(now: Time)
      requires DiffAsserted(config, View(), base.seqNo)
      modifies this
      ensures View() == Decreased(config, old(View()), base.seqNo, now)
      ensures inFlight == old(inFlight)
      ensures Reduces(config, old(View()), base.seqNo, View())
    {
      hide Decreased, Reduces;
      ghost var w := View();
      ReduceWindow(now);
      DecreaseIsExact(config, w, base.seqNo, now);
    }

    method ReduceWindow(now: Time)
      requires DiffAsserted(config, View(), base.seqNo)
      modifies this
      ensures View() == Decreased(config, old(View()), base.seqNo, now)
      ensures inFlight == old(inFlight)
    {
      if !config.useCwa || highData as real > recPoint {
        var diff := ((base.seqNo - highData) % (UINT32_MAX + 1)) as real;
        assert diff > 0.0;
        recPoint := base.seqNo as real + config.addRttSuppress * diff;
        match config.ccAlgorithm {
          case AIMD =>
            ssthresh := Limited(window * config.beta);
            window := ssthresh.value;
          case CUBIC =>
            CubicDecrease(now);
        }
        if window < config.initialWindow as real {
          window := config.initialWindow as real;
        }
      }
    }

    // ---- Lines 280-343 ----

    method CubicIncrease(power: real)
      requires window > 0.0 && config.ccAlgorithm.CUBIC? && WmaxAsserted(config, View())
      modifies this`window
      ensures View() == Increased(config, old(View()), power) && window >= old(window)
    {
      var wCubic := CUBIC_C * power + cubicWmax;
      if ssthresh.Unlimited? || window < ssthresh.value {
        window := window + 1.0;
      } else {
        assert cubicWmax > 0.0;
        var cubicIncrement := Max(wCubic, 0.0) - window;
        if cubicIncrement < 0.0 {
          cubicIncrement := 0.0;
        }
        window := window + cubicIncrement / window;
      }
    }

    method CubicDecrease(now: Time)
      modifies this`cubicLastWmax, this`cubicWmax, this`ssthresh, this`window, this`cubicLastDecrease
      ensures var threshold := Floored(config, old(window) * config.cubicBeta);
              && ssthresh == Limited(threshold) && window == threshold
              && cubicLastWmax == old(window) && cubicLastDecrease == now
              && cubicWmax == if config.useCubicFastConv && old(window) < old(cubicLastWmax) * 0.99
                              then old(window) * (1.0 + config.cubicBeta) / 2.0 else old(window)
    {
      if config.useCubicFastConv && window < cubicLastWmax * (1.0 - 1.0 / 100.0) {
        cubicLastWmax := window;
        cubicWmax := window * (1.0 + config.cubicBeta) / 2.0;
      } else {
        cubicLastWmax := window;
        cubicWmax := window;
      }
      ssthresh := Limited(Max(window * config.cubicBeta, config.initialWindow as real));
      window := ssthresh.value;
      cubicLastDecrease := now;
    }
  }

  function NewWindow(p: PconConfig, now: Time): Window {
    Window(p.initialWindow as real, Unlimited, 0, 0.0, 0.0, 0.0, now)
  }

  /** The factor of a decrease. */
  function Share(p: PconConfig): real {
    if p.ccAlgorithm.AIMD? then p.beta else p.cubicBeta
  }

  // share times the size, but no less than the initial window.
  function Shrunk(p: PconConfig, share: real, size: real): real {
    Max(p.initialWindow as real, Times(share, size))
  }

  // m_seq and a share of the distance on 32 bits from the highest Data to it.
  function NextRecPoint(p: PconConfig, seqNo: nat, highData: nat): real {
    seqNo as real + p.addRttSuppress * ((seqNo - highData) % 0x1_0000_0000) as real
  }

  lemma DiffIs(seqNo: nat, highData: nat)
    ensures Diff(seqNo, highData) == (seqNo - highData) % 0x1_0000_0000
  {
  }

  /**
   A decrease that is not suppressed multiplies the window by the configured factor, down to the initial window. The
   threshold of AIMD is that product; that of CUBIC is the new window. Further decreases wait for Data beyond recPoint.
   */
  ghost predicate Reduces(p: PconConfig, w: Window, seqNo: nat, w': Window) {
    if p.useCwa && w.highData as real <= w.recPoint then w' == w
    else
      && w'.size == Shrunk(p, Share(p), w.size)
      && w'.ssthresh == Limited(if p.ccAlgorithm.AIMD? then p.beta * w.size else w'.size)
      && w'.recPoint == NextRecPoint(p, seqNo, w.highData)
      && w'.highData == w.highData
  }

  lemma CutIsExact(p: PconConfig, w: Window, seqNo: nat, now: Time)
    ensures var w' := Cut(p, w, seqNo, now);
            && w'.size == Shrunk(p, Share(p), w.size)
            && w'.ssthresh == Limited(if p.ccAlgorithm.AIMD? then p.beta * w.size else w'.size)
  {
    hide Diff;
  }

  lemma RecPointIsExact(p: PconConfig, w: Window, seqNo: nat, now: Time)
    ensures var w' := Cut(p, w, seqNo, now);
            && w'.recPoint == NextRecPoint(p, seqNo, w.highData)
            && w'.highData == w.highData
  {
    DiffIs(seqNo, w.highData);
    hide Diff, Floored;
  }

  lemma DecreaseIsExact(p: PconConfig, w: Window, seqNo: nat, now: Time)
    ensures Reduces(p, w, seqNo, Decreased(p, w, seqNo, now))
  {
    hide Cut, Shrunk, Share, NextRecPoint;
    if Effective(p, w) {
      CutIsExact(p, w, seqNo, now);
      RecPointIsExact(p, w, seqNo, now);
    }
  }

  lemma NoDecrease(p: PconConfig, w: Window, seqNo: nat, now: Time, inFlight: nat)
    ensures DecreasedTimes(p, w, seqNo, now, 0) == w && Less(inFlight, 0) == inFlight
  {
  }

  lemma NextDecrease(p: PconConfig, w: Window, seqNo: nat, now: Time, done: set<Seq>, q: Seq, inFlight: nat)
    requires q !in done
    ensures var k, k' := |done|, |done + {q}|;
            && DecreasedTimes(p, w, seqNo, now, k') == Decreased(p, DecreasedTimes(p, w, seqNo, now, k), seqNo, now)
            && Less(inFlight, k') == Less(Less(inFlight, k), 1)
  {
    assert |done + {q}| == |done| + 1;
  }

  /** A timer sweep never changes which decreases are allowed to run. */
  lemma {:induction false} DiffStaysAsserted(p: PconConfig, w: Window, seqNo: nat, now: Time, k: nat)
    requires DiffAsserted(p, w, seqNo)
    ensures DiffAsserted(p, DecreasedTimes(p, w, seqNo, now, k), seqNo)
    ensures DecreasedTimes(p, w, seqNo, now, k).highData == w.highData
    ensures !Effective(p, w) ==> DecreasedTimes(p, w, seqNo, now, k) == w
  {
    if k > 0 {
      DiffStaysAsserted(p, w, seqNo, now, k - 1);
    }
  }
}
