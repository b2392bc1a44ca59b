/**
 RttMeanDeviation: smoothed round trip time, backoff and the history of sent numbers (utils/ndn-rtt-mean-deviation.cpp).
 */
module Rtt {
  import opened Wrappers

  type Seq = nat
  type Time = real

  datatype RttHistory = RttHistory(seqNo: Seq, time: Time, retx: bool)

  datatype Config = Config(gain: real, gain2: real, minRto: Time, maxRto: Time, maxMultiplier: nat)

  datatype Estimate = Estimate(rtt: Time, variance: Time, nSamples: nat, multiplier: nat)

  function Abs(x: real): real {
    if x < 0.0 then -x else x
  }

  function Measured(c: Config, e: Estimate, m: Time): Estimate {
    if e.nSamples != 0 then
      var err := m - e.rtt;
      e.(rtt := e.rtt + err * c.gain, variance := e.variance + (Abs(err) - e.variance) * c.gain2,
         nSamples := e.nSamples + 1)
    else
      e.(rtt := m, variance := m / 2.0, nSamples := 1)
  }

  function Min(a: real, b: real): real {
    if b < a then b else a
  }

  function Max(a: real, b: real): real {
    if a < b then b else a
  }

  function Times(x: real, y: real): real {
    x * y
  }

  function Rto(c: Config, e: Estimate): Time {
    Bounded(c.maxRto, e.multiplier as real, c.minRto, e.rtt + 4.0 * e.variance)
  }

  // x or y, whichever is more, times m, but no more than top.
  function Bounded(top: real, m: real, x: real, y: real): real {
    Min(top, Max(Times(m, x), Times(m, y)))
  }

  function Backoff(multiplier: nat, maxMultiplier: nat): nat {
    if multiplier * 2 < maxMultiplier then multiplier * 2 else maxMultiplier
  }

  /** k timeouts in a row. */
  function BackoffTimes(multiplier: nat, maxMultiplier: nat, k: nat): nat {
    if k == 0 then multiplier else Backoff(BackoffTimes(multiplier, maxMultiplier, k - 1), maxMultiplier)
  }

  // m times 2 to the k.
  function Doubled(m: nat, k: nat): nat {
    if k == 0 then m else 2 * Doubled(m, k - 1)
  }

  // ---- The history ----

  function IndexOf(h: seq<RttHistory>, q: Seq): (i: nat)
    ensures i <= |h|
    ensures i < |h| ==> h[i].seqNo == q
    ensures forall j :: 0 <= j < i ==> h[j].seqNo != q
  {
    if |h| == 0 then 0 else if h[0].seqNo == q then 0 else 1 + IndexOf(h[1..], q)
  }

  function Noted(h: seq<RttHistory>, q: Seq, now: Time): seq<RttHistory> {
    var i := IndexOf(h, q);
    if i < |h| then h[i := h[i].(retx := true)] else h + [RttHistory(q, now, false)]
  }

  function Dropped(h: seq<RttHistory>, q: Seq): seq<RttHistory> {
    var i := IndexOf(h, q);
    if i < |h| then h[..i] + h[i + 1..] else h
  }

  /** The sample an acknowledgment of q yields: none for a number that was noted more than once. */
  function Sample(h: seq<RttHistory>, q: Seq, now: Time): Option<Time> {
    var i := IndexOf(h, q);
    if i < |h| && !h[i].retx then Some(now - h[i].time) else None
  }

  class RttMeanDeviation {
    const config: Config
    var currentEstimatedRtt: Time
    var variance: Time
    var nSamples: nat
    var multiplier: nat
    var history: seq<RttHistory>

    constructor (config: Config, initialEstimatedRtt: Time)
      ensures this.config == config && history == []
      ensures View() == Estimate(initialEstimatedRtt, 0.0, 0, 1)
    {
      this.config := config;
      currentEstimatedRtt, variance, nSamples, multiplier, history := initialEstimatedRtt, 0.0, 0, 1, [];
    }

    function View(): Estimate
      reads this
    {
      Estimate(currentEstimatedRtt, variance, nSamples, multiplier)
    }

    method Measurement(m: Time)
      modifies this`currentEstimatedRtt, this`variance, this`nSamples
      ensures View() == Measured(config, old(View()), m)
    {
      if nSamples != 0 {
        var err := m - currentEstimatedRtt;
        var gErr := err * config.gain;
        currentEstimatedRtt := currentEstimatedRtt + gErr;
        var difference := Abs(err) - variance;
        variance := variance + difference * config.gain2;
      } else {
        currentEstimatedRtt := m;
        variance := m / 2.0;
      }
      nSamples := nSamples + 1;
    }

    method RetransmitTimeout() returns (rto: Time)
      ensures rto == Rto(config, View())
      ensures 0.0 <= config.minRto <= config.maxRto && multiplier >= 1 ==> config.minRto <= rto <= config.maxRto
    {
      rto := Min(config.maxRto, Max(multiplier as real * config.minRto,
                                    multiplier as real * (currentEstimatedRtt + 4.0 * variance)));
      assert rto == Rto(config, View());
      hide Rto, Min, Max;
      if 0.0 <= config.minRto <= config.maxRto && multiplier >= 1 {
        RtoInRange(config, View());
      }
    }

    method IncreaseMultiplier()
      modifies this`multiplier
      ensures multiplier == Backoff(old(multiplier), config.maxMultiplier)
    {
      multiplier := if multiplier * 2 < config.maxMultiplier then multiplier * 2 else config.maxMultiplier;
    }

    method ResetMultiplier()
      modifies this`multiplier
      ensures multiplier == 1
    {
      multiplier := 1;
    }

    method SentSeq(q: Seq, now: Time)
      modifies this`history
      ensures history == Noted(old(history), q, now)
    {
      var i := 0;
      while i < |history| && history[i].seqNo != q
        invariant 0 <= i <= |history|
        invariant forall j :: 0 <= j < i ==> history[j].seqNo != q
      {
        i := i + 1;
      }
      if i < |history| {
        history := history[i := history[i].(retx := true)];
      } else {
        history := history + [RttHistory(q, now, false)];
      }
    }

    /** sample is None where the source returns without a measurement. */
    method AckSeq(q: Seq, now: Time) returns (sample: Option<Time>)
      modifies this
      ensures sample == Sample(old(history), q, now) && history == Dropped(old(history), q)
      ensures View() == if sample.Some? then Measured(config, old(View()), sample.value).(multiplier := 1)
              else old(View())
    {
      sample := None;
      var i := 0;
      while i < |history|
        invariant 0 <= i <= |history| && sample == None
        invariant View() == old(View()) && history == old(history)
        invariant forall j :: 0 <= j < i ==> history[j].seqNo != q
      {
        if history[i].seqNo == q {
          if !history[i].retx {
            var m := now - history[i].time;
            sample := Some(m);
            Measurement(m);
            ResetMultiplier();
          }
          history := history[..i] + history[i + 1..];
          return;
        }
        i := i + 1;
      }
    }
  }

  // ---- Timeout and backoff ----

  /** The retransmission timeout stays between its two bounds (section 2 of RFC 6298). */
  lemma RtoInRange(c: Config, e: Estimate)
    requires 0.0 <= c.minRto <= c.maxRto && e.multiplier >= 1
    ensures c.minRto <= Rto(c, e) <= c.maxRto
  {
    var m := e.multiplier as real;
    assert m * c.minRto - c.minRto == (m - 1.0) * c.minRto >= 0.0;
  }

  /** k timeouts multiply the backoff by 2 to the k, up to the maximum (section 5 of RFC 6298). */
  lemma {:induction false} BackoffIsBounded(multiplier: nat, maxMultiplier: nat, k: nat)
    requires multiplier <= maxMultiplier
    ensures var d := Doubled(multiplier, k);
            BackoffTimes(multiplier, maxMultiplier, k) == if d < maxMultiplier then d else maxMultiplier
  {
    if k > 0 {
      BackoffIsBounded(multiplier, maxMultiplier, k - 1);
    }
  }

  // x moved towards y by the share g.
  function Moved(x: real, y: real, g: real): real {
    x + (y - x) * g
  }

  lemma MovedBetween(x: real, y: real, g: real)
    requires 0.0 <= g <= 1.0
    ensures Min(x, y) <= Moved(x, y, g) <= Max(x, y)
  {
    var d := y - x;
    if d >= 0.0 {
      assert d * g >= 0.0 && d * (1.0 - g) >= 0.0;
    } else {
      assert d * g <= 0.0 && d * (1.0 - g) <= 0.0;
    }
    assert d * g + d * (1.0 - g) == d;
  }

  /**
   Once there is a sample, the next one moves the estimate towards itself, never past it, and no variance is negative.
   */
  lemma MeasuredBetween(c: Config, e: Estimate, m: Time)
    requires 0.0 <= c.gain <= 1.0 && 0.0 <= c.gain2 <= 1.0 && e.variance >= 0.0 && m >= 0.0
    ensures var e' := Measured(c, e, m);
            && (e.nSamples > 0 ==> Min(e.rtt, m) <= e'.rtt <= Max(e.rtt, m))
            && (e.nSamples == 0 ==> e'.rtt == m)
            && e'.variance >= 0.0 && e'.nSamples == e.nSamples + 1 && e'.multiplier == e.multiplier
  {
    MovedBetween(e.rtt, m, c.gain);
    MovedBetween(e.variance, Abs(m - e.rtt), c.gain2);
    assert e.nSamples > 0 ==>
        Measured(c, e, m).rtt == Moved(e.rtt, m, c.gain)
            && Measured(c, e, m).variance == Moved(e.variance, Abs(m - e.rtt), c.gain2);
    hide Moved;
  }

  // ---- The formulas themselves ----

  function Power(b: real, k: nat): real {
    if k == 0 then 1.0 else b * Power(b, k - 1)
  }

  /**
   A first sample is the estimate, with half of it as variance. A later one has the share `gain` in the new estimate,
   and its distance from the old estimate has the share `gain2` in the new variance.
   */
  lemma MeasuredIsWeighted(c: Config, e: Estimate, m: Time)
    ensures var e' := Measured(c, e, m);
            && (e.nSamples == 0 ==> e'.rtt == m && 2.0 * e'.variance == m)
            && (e.nSamples > 0 ==>
                  && e'.rtt == (1.0 - c.gain) * e.rtt + c.gain * m
                  && e'.variance == (1.0 - c.gain2) * e.variance
                                    + c.gain2 * if m >= e.rtt then m - e.rtt else e.rtt - m)
  {
    Weighted(e.rtt, m, c.gain);
    Weighted(e.variance, Abs(m - e.rtt), c.gain2);
  }

  lemma Weighted(x: real, y: real, g: real)
    ensures x + (y - x) * g == (1.0 - g) * x + g * y
  {
  }

  /** The same sample k times over. */
  function MeasuredTimes(c: Config, e: Estimate, m: Time, k: nat): Estimate {
    if k == 0 then e else Measured(c, MeasuredTimes(c, e, m, k - 1), m)
  }

  /** Equal samples draw the estimate to themselves: each leaves the share 1 - gain of the distance. */
  lemma {:induction false} EqualSamplesConverge(c: Config, e: Estimate, m: Time, k: nat)
    requires e.nSamples > 0
    ensures MeasuredTimes(c, e, m, k).rtt - m == Power(1.0 - c.gain, k) * (e.rtt - m)
    ensures MeasuredTimes(c, e, m, k).nSamples == e.nSamples + k
  {
    hide *;
    if k == 0 {
      NoSamples(c, e, m);
    } else {
      EqualSamplesConverge(c, e, m, k - 1);
      NextSample(c, e, m, k);
      NextShare(1.0 - c.gain, k);
      DistanceShrinks(MeasuredTimes(c, e, m, k - 1).rtt, m, c.gain, Power(1.0 - c.gain, k - 1), e.rtt - m);
    }
  }

  lemma NextSample(c: Config, e: Estimate, m: Time, k: nat)
    requires k > 0 && MeasuredTimes(c, e, m, k - 1).nSamples > 0
    ensures var before := MeasuredTimes(c, e, m, k - 1);
            && MeasuredTimes(c, e, m, k).rtt == (1.0 - c.gain) * before.rtt + c.gain * m
            && MeasuredTimes(c, e, m, k).nSamples == before.nSamples + 1
  {
    hide *;
    LastSample(c, e, m, k);
    MeasuredIsWeighted(c, MeasuredTimes(c, e, m, k - 1), m);
    OneMoreSample(c, MeasuredTimes(c, e, m, k - 1), m);
  }

  lemma LastSample(c: Config, e: Estimate, m: Time, k: nat)
    requires k > 0
    ensures MeasuredTimes(c, e, m, k) == Measured(c, MeasuredTimes(c, e, m, k - 1), m)
  {
    hide Measured;
  }

  lemma OneMoreSample(c: Config, e: Estimate, m: Time)
    ensures Measured(c, e, m).nSamples == e.nSamples + 1
  {
  }

  lemma NoSamples(c: Config, e: Estimate, m: Time)
    ensures MeasuredTimes(c, e, m, 0) == e && Power(1.0 - c.gain, 0) == 1.0
  {
  }

  lemma NextShare(b: real, k: nat)
    requires k > 0
    ensures Power(b, k) == b * Power(b, k - 1)
  {
  }

  lemma DistanceShrinks(x: real, m: real, g: real, share: real, d: real)
    requires x - m == share * d
    ensures (1.0 - g) * x + g * m - m == ((1.0 - g) * share) * d
  {
    assert ((1.0 - g) * share) * d == (1.0 - g) * (share * d);
    assert (1.0 - g) * x + g * m - m == (1.0 - g) * (x - m);
  }

  /** The multiplier times the estimate plus four variances, or the bound it would pass. */
  lemma RtoIsExact(c: Config, e: Estimate)
    ensures var m := e.multiplier as real;
            var raw, lower := Times(m, e.rtt + 4.0 * e.variance), Times(m, c.minRto);
            Rto(c, e) == if lower > c.maxRto || raw > c.maxRto then c.maxRto else if raw < lower then lower else raw
  {
    hide Times;
  }

  /** A longer estimate, a greater variance or a further backoff never shortens the timeout. */
  lemma RtoGrows(c: Config, e: Estimate, e': Estimate)
    requires 0.0 <= c.minRto && 0.0 <= e.rtt <= e'.rtt && 0.0 <= e.variance <= e'.variance
    requires e.multiplier <= e'.multiplier
    ensures Rto(c, e) <= Rto(c, e')
  {
    hide Bounded;
    BoundedGrows(c.maxRto, e.multiplier as real, e'.multiplier as real, c.minRto, e.rtt + 4.0 * e.variance,
                 e'.rtt + 4.0 * e'.variance);
  }

  lemma BoundedGrows(top: real, m: real, m': real, x: real, y: real, y': real)
    requires 0.0 <= m <= m' && 0.0 <= x && 0.0 <= y <= y'
    ensures Bounded(top, m, x, y) <= Bounded(top, m', x, y')
  {
    Products(m, m', x, x);
    Products(m, m', y, y');
    hide Times;
  }

  lemma Products(a: real, a': real, b: real, b': real)
    requires 0.0 <= a <= a' && 0.0 <= b <= b'
    ensures Times(a, b) <= Times(a', b')
  {
    ProductPositive(a' - a, b');
    ProductPositive(a, b' - b);
    assert a' * b' - a * b == (a' - a) * b' + a * (b' - b);
  }

  lemma ProductPositive(a: real, b: real)
    requires 0.0 <= a && 0.0 <= b
    ensures 0.0 <= a * b && (0.0 < a && 0.0 < b ==> 0.0 < a * b)
  {
  }

  lemma {:induction false} DoubledIsPower(m: nat, k: nat)
    ensures Doubled(m, k) as real == m as real * Power(2.0, k)
  {
    if k > 0 {
      DoubledIsPower(m, k - 1);
      assert m as real * (2.0 * Power(2.0, k - 1)) == 2.0 * (m as real * Power(2.0, k - 1));
    }
  }

  /** k timeouts multiply the retransmission timeout by 2 to the k, until one of the maxima is reached. */
  lemma TimeoutsDoubleRto(c: Config, e: Estimate, k: nat)
    requires Doubled(e.multiplier, k) <= c.maxMultiplier && e.multiplier <= c.maxMultiplier
    requires Times(Power(2.0, k), Rto(c, e)) <= c.maxRto && Rto(c, e) < c.maxRto
    ensures Rto(c, e.(multiplier := BackoffTimes(e.multiplier, c.maxMultiplier, k))) ==
            Times(Power(2.0, k), Rto(c, e))
  {
    hide *;
    var e' := e.(multiplier := BackoffTimes(e.multiplier, c.maxMultiplier, k));
    var d := BackedOffBy(e.multiplier, c.maxMultiplier, k);
    RtoIsBounded(c, e);
    RtoIsBounded(c, e');
    PowerPositive(k);
    BoundedScales(c.maxRto, e.multiplier as real, Power(2.0, k), c.minRto, e.rtt + 4.0 * e.variance);
  }

  lemma RtoIsBounded(c: Config, e: Estimate)
    ensures Rto(c, e) == Bounded(c.maxRto, e.multiplier as real, c.minRto, e.rtt + 4.0 * e.variance)
  {
  }

  lemma BackedOffBy(multiplier: nat, maxMultiplier: nat, k: nat) returns (d: real)
    requires Doubled(multiplier, k) <= maxMultiplier && multiplier <= maxMultiplier
    ensures d == BackoffTimes(multiplier, maxMultiplier, k) as real == Times(multiplier as real, Power(2.0, k))
  {
    BackoffIsBounded(multiplier, maxMultiplier, k);
    DoubledIsPower(multiplier, k);
    d := Doubled(multiplier, k) as real;
  }

  lemma BoundedScales(top: real, m: real, p: real, x: real, y: real)
    requires p > 0.0 && Bounded(top, m, x, y) < top && Times(p, Bounded(top, m, x, y)) <= top
    ensures Bounded(top, Times(m, p), x, y) == Times(p, Bounded(top, m, x, y))
  {
    Regrouped(m, p, x);
    Regrouped(m, p, y);
    MaxScales(p, Times(m, x), Times(m, y));
    hide Times;
  }

  lemma Regrouped(m: real, p: real, x: real)
    ensures Times(Times(m, p), x) == Times(p, Times(m, x))
  {
  }

  lemma MaxScales(p: real, a: real, b: real)
    requires p > 0.0
    ensures Max(Times(p, a), Times(p, b)) == Times(p, Max(a, b))
  {
    if a < b {
      ProductPositive(p, b - a);
    } else {
      ProductPositive(p, a - b);
    }
    assert p * b - p * a == p * (b - a) && p * a - p * b == p * (a - b);
  }

  lemma {:induction false} PowerPositive(k: nat)
    ensures Power(2.0, k) > 0.0
  {
    if k > 0 {
      PowerPositive(k - 1);
    }
  }
}
