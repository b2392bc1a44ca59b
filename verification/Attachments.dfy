/** Two run-length forms of the satellite a ground terminal is attached to, epoch by epoch (Leo.py). */
module Attachments {
  import opened Wrappers

  type SatId = string
  type Attachment = Option<SatId>

  // ---- The change log, lines 664-682 ----

  datatype Line = Line(epoch: nat, satId: string)

  function Written(a: Attachment): string {
    if a.None? then "-" else a.value
  }

  function Read(s: string): Attachment {
    if s == "-" then None else Some(s)
  }

  /** The attachment a reader of the log sees at epoch i: that of the last line not after i. */
  function AttachmentAt(log: seq<Line>, i: nat): Attachment {
    if log == [] then None
    else if log[|log| - 1].epoch <= i then Read(log[|log| - 1].satId)
    else AttachmentAt(log[..|log| - 1], i)
  }

  function Expanded(log: seq<Line>, n: nat): (r: seq<Attachment>)
    ensures |r| == n && forall i :: 0 <= i < n ==> r[i] == AttachmentAt(log, i)
  {
    seq(n, i requires 0 <= i < n => AttachmentAt(log, i))
  }

  lemma LastLineCounts(log: seq<Line>, l: Line, i: nat)
    ensures AttachmentAt(log + [l], i) == if l.epoch <= i then Read(l.satId) else AttachmentAt(log, i)
  {
    assert (log + [l])[..|log|] == log;
  }

  lemma ReadWritten(a: Attachment)
    ensures Read(Written(a)) == a <==> a != Some("-")
  {
  }

  lemma ReadBack(attachments: seq<Attachment>, log: seq<Line>)
    requires LogOf(attachments, |attachments|, log)
    ensures Expanded(log, |attachments|) == attachments <==> Some("-") !in attachments
  {
    hide Read, Written, AttachmentAt, IsChange;
    forall i | 0 <= i < |attachments|
      ensures Expanded(log, |attachments|)[i] == attachments[i] <==> attachments[i] != Some("-")
    {
      ReadWritten(attachments[i]);
    }
    hide Expanded, LogOf;
    if Some("-") !in attachments {
      assert forall i :: 0 <= i < |attachments| ==> attachments[i] in attachments;
      assert Expanded(log, |attachments|) == attachments;
    }
  }

  ghost predicate IsChange(attachments: seq<Attachment>, n: nat)
    requires n < |attachments|
  {
    n == 0 || attachments[n] != attachments[n - 1]
  }

  /** log has a line for each change of the first n attachments, and no other. */
  ghost predicate LogOf(attachments: seq<Attachment>, n: nat, log: seq<Line>)
    requires n <= |attachments|
  {
    && (forall l :: l in log ==>
        l.epoch < n && IsChange(attachments, l.epoch) && l.satId == Written(attachments[l.epoch]))
    && (forall j, k :: 0 <= j < k < |log| ==> log[j].epoch < log[k].epoch)
    && (forall i :: 0 <= i < n && IsChange(attachments, i) ==> Line(i, Written(attachments[i])) in log)
    && ReadsBack(attachments, n, log)
  }

  /** A reader of the log sees each of the first n attachments, and the last of them from then on. */
  ghost predicate ReadsBack(attachments: seq<Attachment>, n: nat, log: seq<Line>)
    requires n <= |attachments|
  {
    && (forall i :: 0 <= i < n ==> AttachmentAt(log, i) == Read(Written(attachments[i])))
    && (n > 0 ==> AttachmentAt(log, n) == Read(Written(attachments[n - 1])))
  }

  lemma ChangeReadsBack(attachments: seq<Attachment>, n: nat, log: seq<Line>)
    requires n < |attachments| && ReadsBack(attachments, n, log)
    ensures ReadsBack(attachments, n + 1, log + [Line(n, Written(attachments[n]))])
  {
    hide AttachmentAt, Read, Written;
    var l := Line(n, Written(attachments[n]));
    forall i | 0 <= i <= n + 1
      ensures AttachmentAt(log + [l], i) == if n <= i then Read(l.satId) else AttachmentAt(log, i)
    {
      LastLineCounts(log, l, i);
    }
  }

  lemma ChangeLogged(attachments: seq<Attachment>, n: nat, log: seq<Line>)
    requires n < |attachments| && LogOf(attachments, n, log) && IsChange(attachments, n)
    ensures LogOf(attachments, n + 1, log + [Line(n, Written(attachments[n]))])
  {
    hide AttachmentAt, Read, Written, ReadsBack, IsChange;
    ChangeReadsBack(attachments, n, log);
    var log' := log + [Line(n, Written(attachments[n]))];
    assert forall l :: l in log' <==> l in log || l == Line(n, Written(attachments[n]));
    assert forall k :: 0 <= k < |log| ==> log[k] in log;
  }

  lemma NoChange(attachments: seq<Attachment>, n: nat, log: seq<Line>)
    requires n < |attachments| && LogOf(attachments, n, log) && !IsChange(attachments, n)
    ensures LogOf(attachments, n + 1, log)
  {
    hide Read, Written;
    forall l | l in log
      ensures l.epoch <= n
    {
    }
    LastLineStays(log, n);
  }

  lemma LastLineStays(log: seq<Line>, n: nat)
    requires forall l :: l in log ==> l.epoch <= n
    ensures AttachmentAt(log, n + 1) == AttachmentAt(log, n)
  {
    assert log != [] ==> log[|log| - 1] in log;
  }

  /** The log reads back as the attachments exactly when no satellite has the name that stands for "none". */
  method StoreAttachments(attachments: seq<Attachment>) returns (content: seq<Line>)
    ensures LogOf(attachments, |attachments|, content)
    ensures Expanded(content, |attachments|) == attachments <==> Some("-") !in attachments
  {
    content := [];
    var epoch := 0;
    assert LogOf(attachments, 0, content);
    hide LogOf;
    while epoch < |attachments|
      invariant 0 <= epoch <= |attachments| && LogOf(attachments, epoch, content)
    {
      if epoch != 0 && attachments[epoch] == attachments[epoch - 1] {
        NoChange(attachments, epoch, content);
      } else {
        ChangeLogged(attachments, epoch, content);
        content := content + [Line(epoch, Written(attachments[epoch]))];
      }
      epoch := epoch + 1;
    }
    ReadBack(attachments, content);
  }

  // ---- The user links, lines 495-520 ----

  /** From minute first after the start up to minute last, excluded. */
  datatype Interval = Interval(first: nat, last: nat)

  predicate Within(ivs: seq<Interval>, i: nat) {
    exists k :: 0 <= k < |ivs| && ivs[k].first <= i < ivs[k].last
  }

  /** Intervals in order, with a gap after each. */
  predicate Separated(ivs: seq<Interval>) {
    && (forall k :: 0 <= k < |ivs| ==> ivs[k].first <= ivs[k].last)
    && forall k, l :: 0 <= k < l < |ivs| ==> ivs[k].last < ivs[l].first
  }

  /** ivs are the links to s of the epochs below n, each closed where the attachment changes. */
  ghost predicate LinksOf<S>(attachments: seq<Option<S>>, n: nat, s: S, ivs: seq<Interval>)
    requires n <= |attachments|
  {
    && Separated(ivs)
    && (forall k :: 0 <= k < |ivs| ==>
        ivs[k].last <= n && ivs[k].last < |attachments| && attachments[ivs[k].last] != Some(s))
    && (forall i :: 0 <= i < n ==> (Within(ivs, i) <==> attachments[i] == Some(s)))
  }

  /** Intervals in order, apart, holding exactly the epochs at which s is attached, but never the last epoch. */
  ghost predicate LinksShown<S>(attachments: seq<Option<S>>, s: S, ivs: seq<Interval>) {
    && Separated(ivs)
    && (forall i :: 0 <= i < |attachments| - 1 ==> (Within(ivs, i) <==> attachments[i] == Some(s)))
    && (forall i: nat :: i >= |attachments| - 1 ==> !Within(ivs, i))
  }

  lemma AddedWithin(ivs: seq<Interval>, iv: Interval, i: nat)
    ensures Within(ivs + [iv], i) <==> Within(ivs, i) || iv.first <= i < iv.last
  {
    if Within(ivs, i) {
      var k :| 0 <= k < |ivs| && ivs[k].first <= i < ivs[k].last;
      assert (ivs + [iv])[k] == ivs[k];
    }
    if iv.first <= i < iv.last {
      assert (ivs + [iv])[|ivs|] == iv;
    }
  }

  lemma NoLink<S>(attachments: seq<Option<S>>, n: nat, s: S, ivs: seq<Interval>)
    requires n < |attachments| && LinksOf(attachments, n, s, ivs) && attachments[n] != Some(s)
    ensures LinksOf(attachments, n + 1, s, ivs)
  {
    assert !Within(ivs, n);
  }

  /** A link to s from first on, last being where it ends or, for the one still open at the end, the last epoch. */
  lemma LinkAdded<S>(attachments: seq<Option<S>>, first: nat, last: nat, s: S, ivs: seq<Interval>)
    requires first <= last < |attachments| && LinksOf(attachments, first, s, ivs)
    requires forall i :: first <= i < last ==> attachments[i] == Some(s)
    requires attachments[first] == Some(s)
    ensures var ivs' := ivs + [Interval(first, last)];
            && Separated(ivs')
            && (forall i :: 0 <= i < last ==> (Within(ivs', i) <==> attachments[i] == Some(s)))
            && (attachments[last] != Some(s) ==> LinksOf(attachments, last, s, ivs'))
  {
    forall i | 0 <= i < last
      ensures Within(ivs + [Interval(first, last)], i) <==> attachments[i] == Some(s)
    {
      AddedWithin(ivs, Interval(first, last), i);
    }
  }

  /** How far the links to s are known: up to the start of the link that is open, else everything so far. */
  function KnownUpTo<S(==)>(lastSat: Option<S>, lastTime: nat, i: nat, s: S): nat {
    if lastSat == Some(s) then lastTime else i
  }

  ghost predicate LinksSoFar<S>(attachments: seq<Option<S>>, i: nat, lastSat: Option<S>, lastTime: nat,
                                intervals: map<S, seq<Interval>>)
    requires i <= |attachments|
  {
    && (lastSat.Some? ==> lastTime < i && lastSat.value in intervals)
    && (lastSat.Some? ==> forall j :: lastTime <= j < i ==> attachments[j] == lastSat)
    && (forall s :: s in intervals ==>
        KnownUpTo(lastSat, lastTime, i, s) <= i
            && LinksOf(attachments, KnownUpTo(lastSat, lastTime, i, s), s, intervals[s]))
  }

  /** Closes the open link, if any, where the attachment changes. */
  function Closed<S(==)>(intervals: map<S, seq<Interval>>, lastSat: Option<S>, lastTime: nat,
                    i: nat): map<S, seq<Interval>>
    requires lastSat.Some? ==> lastSat.value in intervals
  {
    if lastSat.None? then intervals else intervals[lastSat.value := intervals[lastSat.value] + [Interval(lastTime, i)]]
  }

  lemma ChangeClosesLink<S>(attachments: seq<Option<S>>, i: nat, lastSat: Option<S>, lastTime: nat,
                            intervals: map<S, seq<Interval>>)
    requires i < |attachments| && LinksSoFar(attachments, i, lastSat, lastTime, intervals)
            && (lastSat.Some? ==> attachments[i] != lastSat)
    requires attachments[i].Some? ==> attachments[i].value in intervals
    ensures LinksSoFar(attachments, i + 1, attachments[i], i, Closed(intervals, lastSat, lastTime, i))
  {
    hide LinksOf;
    var closed := Closed(intervals, lastSat, lastTime, i);
    forall s | s in closed
      ensures LinksOf(attachments, KnownUpTo(attachments[i], i, i + 1, s), s, closed[s])
    {
      if lastSat == Some(s) {
        LinkAdded(attachments, lastTime, i, s, intervals[s]);
      }
      if attachments[i] != Some(s) {
        NoLink(attachments, i, s, closed[s]);
      }
    }
  }

  lemma SameKeepsLinks<S>(attachments: seq<Option<S>>, i: nat, lastSat: Option<S>, lastTime: nat,
                          intervals: map<S, seq<Interval>>)
    requires i < |attachments| && LinksSoFar(attachments, i, lastSat, lastTime, intervals) && attachments[i] == lastSat
    ensures LinksSoFar(attachments, i + 1, lastSat, lastTime, intervals)
  {
    hide LinksOf;
    forall s | s in intervals && attachments[i] != Some(s)
      ensures LinksOf(attachments, i + 1, s, intervals[s])
    {
      NoLink(attachments, i, s, intervals[s]);
    }
  }

  /** The body of the loop over the epochs. */
  method NextEpoch<S(==)>(attachments: seq<Option<S>>, i: nat, lastSat: Option<S>, lastTime: nat,
                     intervals: map<S, seq<Interval>>)
    returns (lastSat': Option<S>, lastTime': nat, intervals': map<S, seq<Interval>>)
    requires i < |attachments| && LinksSoFar(attachments, i, lastSat, lastTime, intervals)
    requires lastSat.Some? ==> lastSat.value in intervals
    requires attachments[i].Some? ==> attachments[i].value in intervals
    ensures LinksSoFar(attachments, i + 1, lastSat', lastTime', intervals') && intervals'.Keys == intervals.Keys
    ensures lastSat'.Some? ==> lastSat'.value in intervals'
  {
    hide LinksSoFar;
    lastSat', lastTime', intervals' := lastSat, lastTime, intervals;
    if attachments[i] == None {
      if lastSat != None {
        ChangeClosesLink(attachments, i, lastSat, lastTime, intervals);
        intervals' := intervals[lastSat.value := intervals[lastSat.value] + [Interval(lastTime, i)]];
        lastSat' := None;
        lastTime' := i;
      } else {
        SameKeepsLinks(attachments, i, lastSat, lastTime, intervals);
      }
    } else if attachments[i] == lastSat {
      SameKeepsLinks(attachments, i, lastSat, lastTime, intervals);
    } else {
      ChangeClosesLink(attachments, i, lastSat, lastTime, intervals);
      if lastSat != None {
        intervals' := intervals[lastSat.value := intervals[lastSat.value] + [Interval(lastTime, i)]];
      }
      lastSat' := attachments[i];
      lastTime' := i;
    }
  }

  /**
   The intervals of one ground terminal: for each satellite in order, apart, and holding just the epochs of its
   attachments.
   */
  method AddUserLinks<S(==)>(attachments: seq<Option<S>>, satDict: set<S>, period: nat)
    returns (intervals: map<S, seq<Interval>>)
    requires |attachments| == period && forall s :: Some(s) in attachments ==> s in satDict
    ensures intervals.Keys == satDict
    ensures forall s :: s in satDict ==> LinksShown(attachments, s, intervals[s])
  {
    var lastSat: Option<S> := None;
    var lastTime := 0;
    intervals := map s | s in satDict :: [];
    NoLinksYet(attachments, intervals);
    hide LinksSoFar, LinksShown;
    var i := 0;
    while i < |attachments|
      invariant 0 <= i <= |attachments| && intervals.Keys == satDict
      invariant LinksSoFar(attachments, i, lastSat, lastTime, intervals)
      invariant lastSat.Some? ==> lastSat.value in intervals
    {
      assert attachments[i] in attachments;
      lastSat, lastTime, intervals := NextEpoch(attachments, i, lastSat, lastTime, intervals);
      i := i + 1;
    }
    intervals := LastEpoch(attachments, lastSat, lastTime, intervals, period);
  }

  lemma NoLinksYet<S>(attachments: seq<Option<S>>, intervals: map<S, seq<Interval>>)
    requires forall s :: s in intervals ==> intervals[s] == []
    ensures LinksSoFar(attachments, 0, None, 0, intervals)
  {
  }

  /** What follows the loop. */
  method LastEpoch<S(==)>(attachments: seq<Option<S>>, lastSat: Option<S>, lastTime: nat,
                     intervals: map<S, seq<Interval>>, period: nat)
    returns (intervals': map<S, seq<Interval>>)
    requires period == |attachments| && LinksSoFar(attachments, period, lastSat, lastTime, intervals)
    ensures intervals'.Keys == intervals.Keys
    ensures forall s :: s in intervals' ==> LinksShown(attachments, s, intervals'[s])
  {
    LinksComplete(attachments, lastSat, lastTime, intervals);
    intervals' := intervals;
    if lastSat != None {
      intervals' := intervals[lastSat.value := intervals[lastSat.value] + [Interval(lastTime, period - 1)]];
    }
  }

  lemma LinksComplete<S>(attachments: seq<Option<S>>, lastSat: Option<S>, lastTime: nat,
                         intervals: map<S, seq<Interval>>)
    requires LinksSoFar(attachments, |attachments|, lastSat, lastTime, intervals)
    ensures |attachments| == 0 ==> lastSat.None? && forall s :: s in intervals ==>
            LinksShown(attachments, s, intervals[s])
    ensures |attachments| > 0 ==>
              var ivs := Closed(intervals, lastSat, lastTime, |attachments| - 1);
              forall s :: s in intervals ==> LinksShown(attachments, s, ivs[s])
  {
    forall s | s in intervals
      ensures |attachments| == 0 ==> LinksShown(attachments, s, intervals[s])
      ensures |attachments| > 0 ==>
              LinksShown(attachments, s, Closed(intervals, lastSat, lastTime, |attachments| - 1)[s])
    {
      if lastSat == Some(s) {
        OpenLinkShown(attachments, lastTime, s, intervals[s]);
      } else {
        hide LinksOf, LinksShown;
        OthersShown(attachments, s, intervals[s]);
      }
    }
  }

  lemma OpenLinkShown<S>(attachments: seq<Option<S>>, first: nat, s: S, ivs: seq<Interval>)
    requires first < |attachments| && LinksOf(attachments, first, s, ivs)
    requires forall i :: first <= i < |attachments| ==> attachments[i] == Some(s)
    ensures LinksShown(attachments, s, ivs + [Interval(first, |attachments| - 1)])
  {
    LinkAdded(attachments, first, |attachments| - 1, s, ivs);
  }

  lemma OthersShown<S>(attachments: seq<Option<S>>, s: S, ivs: seq<Interval>)
    requires LinksOf(attachments, |attachments|, s, ivs)
    ensures LinksShown(attachments, s, ivs)
  {
  }
}
