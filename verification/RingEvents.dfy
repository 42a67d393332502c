/**
 What the ring promises, said of the events of a run alone: who sent, polled, waited, woke and timed out,
 in which order. Nothing here looks at slots, cursors or the channel behind the ring.
 */
module RingEvents {
  import opened Channel
  import opened Ring
  import opened RingRuns

  /** The messages accepted, in order: message number k is `Sent(..)[k - 1]`. */
  function Sent(maxSize: nat, es: seq<Event>): seq<Msg> {
    if es == [] then []
    else
      var before, e := Sent(maxSize, es[..|es| - 1]), es[|es| - 1];
      if Accepted(maxSize, e) then before + [e.msg] else before
  }

  predicate Accepted(maxSize: nat, e: Event) {
    e.Post? && |e.msg| <= maxSize
  }

  predicate Acts(e: Event, r: nat) {
    (e.Poll? || e.Receive? || e.Resume? || e.Timeout?) && e.r == r
  }

  /** How many messages reader r is behind: each message sent puts it one further back; a fetch brings it to
      the oldest message at a whole number of rings' distance; waking brings it to the newest. */
  function Lag(cap: nat, maxSize: nat, es: seq<Event>, r: nat): nat
    requires cap > 0
  {
    if es == [] then 0
    else
      var lag, e := Lag(cap, maxSize, es[..|es| - 1], r), es[|es| - 1];
      LagAfter(cap, maxSize, lag, e, r)
  }

  function LagAfter(cap: nat, maxSize: nat, lag: nat, e: Event, r: nat): nat
    requires cap > 0
  {
    if Accepted(maxSize, e) then lag + 1
    else if !Acts(e, r) || e.Timeout? then lag
    else if e.Resume? then 0
    else if Wrap(lag, cap) == 0 then lag
    else Wrap(lag, cap) - 1
  }

  /** Reader r's call at k began the wait that its wake-up at i ends. */
  predicate Waited(es: seq<Event>, k: nat, i: nat) {
    && k < i < |es| && es[i].Resume? && es[k] == Receive(es[i].r)
    && forall j :: k < j < i ==> !Acts(es[j], es[i].r)
  }

  predicate SentBetween(maxSize: nat, es: seq<Event>, k: nat, i: nat)
    requires i <= |es|
  {
    exists j :: k < j < i && Accepted(maxSize, es[j])
  }

  // ---------------------------------------------------------------- events and the channel agree

  /** The channel's log is what was sent, and each reader's last number is its lag behind the newest. */
  ghost predicate Agrees(s0: System, es: seq<Event>)
    requires s0.ring.cap > 0
  {
    var s, c := SystemAfter(s0, es), ChannelAfter(s0, Channel([], []), es);
    && Sized(s0, s) && c.log == Sent(s0.ring.maxSize, es)
    && forall r: nat :: LastOf(c, r) + Lag(s0.ring.cap, s0.ring.maxSize, es, r) == |c.log|
  }

  predicate Sized(s0: System, s: System) {
    s.ring.cap == s0.ring.cap && s.ring.maxSize == s0.ring.maxSize
  }

  /** The last number of a reader; 0 before it opens the queue. */
  function LastOf(c: Channel, r: nat): nat {
    if r < |c.last| then c.last[r] else 0
  }

  /** What one step does to the log and to reader r's distance from the newest message. */
  ghost predicate MovesAs(s: System, c: Channel, e: Event, c': Channel, r: nat) {
    && s.ring.cap > 0
    && c'.log == (if Accepted(s.ring.maxSize, e) then c.log + [e.msg] else c.log)
    && LastOf(c, r) <= |c.log| && LastOf(c', r) <= |c'.log|
    && LagAfter(s.ring.cap, s.ring.maxSize, |c.log| - LastOf(c, r), e, r) == |c'.log| - LastOf(c', r)
  }

  /** A reader that is `behind` messages behind, less than a ring, gets the one after its last. */
  predicate HandsOut(l: Label, r: nat, sent: seq<Msg>, behind: nat, size: nat) {
    if behind == 0 then l == Silent
    else behind <= |sent| && l == Deliver(r, |sent| - behind + 1, size, sent[|sent| - behind])
  }

  lemma FetchLabel(s: System, c: Channel, e: Event)
    requires Related(s, c) && Enabled(s, e) && Numbered(s, c) && (e.Poll? || e.Receive?)
    ensures e.r < |c.last| && c.last[e.r] <= |c.log| && s.ring.cap > 0
    ensures HandsOut(LabelOf(s, c, e), e.r, c.log, Wrap(|c.log| - c.last[e.r], s.ring.cap), s.ring.maxSize)
  {
    var n, last, cap := |c.log|, c.last[e.r], s.ring.cap;
    assert ReaderOk(s.readers[e.r], last, n, cap);
    ReadyExactly(s.ring, c.log, last);
    if Wrap(n - last, cap) != 0 {
      ReceiveExactly(s.ring, c.log, last);
      NextIs(n, last, cap);
    }
    hide Models, Slot, Wrap, Clamp, Advance, Ready, StepDown, NextNumber;
  }

  lemma FetchAgrees(s: System, c: Channel, e: Event, r: nat)
    requires Related(s, c) && Enabled(s, e) && Numbered(s, c) && (e.Poll? || e.Receive?)
    ensures MovesAs(s, c, e, Track(c, LabelOf(s, c, e)), r)
  {
    FetchLabel(s, c, e);
    WrapPositive(|c.log| - c.last[e.r], s.ring.cap);
    hide LabelOf, Related, Enabled, Wrap;
  }

  lemma WrapPositive(d: nat, cap: nat)
    requires cap > 0
    ensures 0 <= Wrap(d, cap) <= d
  {
  }

  lemma StepAgrees(s: System, c: Channel, e: Event, r: nat)
    requires Related(s, c) && Enabled(s, e) && Numbered(s, c)
    ensures Sized(s, Apply(s, e)) && MovesAs(s, c, e, Track(c, LabelOf(s, c, e)), r)
  {
    if e.Poll? || e.Receive? {
      FetchAgrees(s, c, e, r);
      hide LabelOf, MovesAs;
    } else {
      hide Wrap, Slot, Advance, Output;
    }
    hide Models, Ready;
  }

  lemma {:induction false} EventsAgree(s0: System, es: seq<Event>)
    requires Fresh(s0) && ValidRun(s0, es)
    ensures Agrees(s0, es)
    decreases |es|
  {
    if es != [] {
      var front, e := es[..|es| - 1], es[|es| - 1];
      EventsAgree(s0, front);
      RunRelated(s0, front);
      var s, c := SystemAfter(s0, front), ChannelAfter(s0, Channel([], []), front);
      RelatedNumbered(s, c);
      forall r: nat
        ensures LastOf(Track(c, LabelOf(s, c, e)), r) + Lag(s0.ring.cap, s0.ring.maxSize, es, r)
             == |Track(c, LabelOf(s, c, e)).log|
      {
        StepAgrees(s, c, e, r);
      }
      StepAgrees(s, c, e, 0);
      hide Related, LabelOf, Track, Apply, Enabled, Wrap, LagAfter;
    }
  }

  // ---------------------------------------------------------------- what a reader is handed

  /** What the ring hands out at step i: a delivery, or something that is not one. */
  function Handout(s0: System, es: seq<Event>, i: nat): Label
    requires i < |es|
  {
    Labels(s0, Channel([], []), es)[i]
  }

  /** The number of messages reader r is behind when step i of a run comes. */
  function LagAt(s0: System, es: seq<Event>, i: nat, r: nat): nat
    requires s0.ring.cap > 0 && i <= |es|
  {
    Lag(s0.ring.cap, s0.ring.maxSize, es[..i], r)
  }

  function SentAt(s0: System, es: seq<Event>, i: nat): seq<Msg>
    requires i <= |es|
  {
    Sent(s0.ring.maxSize, es[..i])
  }

  lemma Before(s0: System, es: seq<Event>, i: nat) returns (s: System, c: Channel)
    requires Fresh(s0) && ValidRun(s0, es) && i < |es|
    ensures Related(s, c) && Numbered(s, c) && Enabled(s, es[i]) && Sized(s0, s)
    ensures s == SystemAfter(s0, es[..i]) && c == ChannelAfter(s0, Channel([], []), es[..i])
    ensures c.log == SentAt(s0, es, i) && Handout(s0, es, i) == LabelOf(s, c, es[i])
    ensures forall r: nat :: LastOf(c, r) + LagAt(s0, es, i, r) == |c.log|
  {
    s, c := SystemAfter(s0, es[..i]), ChannelAfter(s0, Channel([], []), es[..i]);
    PrefixValid(s0, es, i);
    RunRelated(s0, es[..i]);
    RelatedNumbered(s, c);
    EventsAgree(s0, es[..i]);
    AtPosition(s0, es, i);
    hide *;
    BeforeIs(s0, es, i, s, c);
  }

  lemma BeforeIs(s0: System, es: seq<Event>, i: nat, s: System, c: Channel)
    requires s0.ring.cap > 0 && i < |es| && Agrees(s0, es[..i]) && Enabled(s, es[i]) && Numbered(s, c)
    requires s == SystemAfter(s0, es[..i]) && c == ChannelAfter(s0, Channel([], []), es[..i])
    ensures c.log == SentAt(s0, es, i) && Sized(s0, s) && LabelIn(s, c, es[i]) == LabelOf(s, c, es[i])
    ensures Handout(s0, es, i) == Labels(s0, Channel([], []), es)[i]
    ensures forall r: nat :: LastOf(c, r) + LagAt(s0, es, i, r) == |c.log|
  {
    hide LabelOf, SystemAfter, ChannelAfter, Enabled, Numbered, Sent, Lag, Labels;
  }

  /** try_receive, and a receive that need not wait: nothing exactly when the messages sent since the
      reader's last one are a multiple of the capacity; otherwise the message lag % cap from the end, which
      is the very next one exactly when the reader is less than a ring behind. */
  lemma FetchExact(s0: System, es: seq<Event>, i: nat)
    requires Fresh(s0) && ValidRun(s0, es) && i < |es| && (es[i].Poll? || es[i].Receive?)
    ensures var lag := LagAt(s0, es, i, es[i].r);
      && HandsOut(Handout(s0, es, i), es[i].r, SentAt(s0, es, i), lag % s0.ring.cap, s0.ring.maxSize)
      && (lag % s0.ring.cap == lag <==> lag < s0.ring.cap)
  {
    hide *;
    FetchWrapped(s0, es, i);
    HasSlots(s0);
    var lag := LagAt(s0, es, i, es[i].r);
    WrapIsResidue(lag, s0.ring.cap);
    WrapSmall(lag, s0.ring.cap);
  }

  lemma FetchWrapped(s0: System, es: seq<Event>, i: nat)
    requires Fresh(s0) && ValidRun(s0, es) && i < |es| && (es[i].Poll? || es[i].Receive?)
    ensures HandsOut(Handout(s0, es, i), es[i].r, SentAt(s0, es, i),
                     Wrap(LagAt(s0, es, i, es[i].r), s0.ring.cap), s0.ring.maxSize)
  {
    hide *;
    HasSlots(s0);
    var s, c := Before(s0, es, i);
    var r := es[i].r;
    FetchLabel(s, c, es[i]);
    LastOfIs(c, r);
    assert LastOf(c, r) + LagAt(s0, es, i, r) == |c.log|;
    SizedIs(s0, s);
  }

  lemma LastOfIs(c: Channel, r: nat)
    requires r < |c.last|
    ensures LastOf(c, r) == c.last[r]
  {
  }

  lemma SizedIs(s0: System, s: System)
    requires Sized(s0, s)
    ensures s.ring.cap == s0.ring.cap && s.ring.maxSize == s0.ring.maxSize
  {
  }

  /** Waking hands out the newest message. */
  lemma WakeHandsOutNewest(s0: System, es: seq<Event>, i: nat)
    requires Fresh(s0) && ValidRun(s0, es) && i < |es| && es[i].Resume?
    ensures var sent := SentAt(s0, es, i);
      sent != [] && Handout(s0, es, i) == Deliver(es[i].r, |sent|, s0.ring.maxSize, sent[|sent| - 1])
  {
    var s, c := Before(s0, es, i);
    ResumeRefines(s, c, es[i]);
    Nonempty(s, c);
    hide *;
  }

  lemma Nonempty(s: System, c: Channel)
    requires Related(s, c) && s.ring.num != 0
    ensures c.log != []
  {
  }

  /** In any run, whatever wakes whom: what is handed out is one of the messages accepted so far, under its
      number, byte for byte. */
  lemma HandedAsSent(s0: System, es: seq<Event>, i: nat)
    requires Fresh(s0) && ValidRun(s0, es) && i < |es| && Handout(s0, es, i).Deliver?
    ensures var d, sent := Handout(s0, es, i), Sent(s0.ring.maxSize, es);
      && Acts(es[i], d.reader) && 0 < d.number <= |SentAt(s0, es, i)| <= |sent|
      && d.msg == sent[d.number - 1]
  {
    hide *;
    OnlyReadersHandOut(s0, es, i);
    SentSoFar(s0, es, i);
    ActsIs(es[i]);
    if es[i].Resume? {
      WakeHandsOutNewest(s0, es, i);
    } else {
      FetchExact(s0, es, i);
      HasSlots(s0);
      OutIs(Handout(s0, es, i), es[i].r, SentAt(s0, es, i), LagAt(s0, es, i, es[i].r) % s0.ring.cap, s0.ring.maxSize);
    }
  }

  lemma ActsIs(e: Event)
    ensures e.Poll? || e.Receive? || e.Resume? ==> Acts(e, e.r)
  {
  }

  lemma OutIs(l: Label, r: nat, sent: seq<Msg>, behind: nat, size: nat)
    requires HandsOut(l, r, sent, behind, size) && l.Deliver?
    ensures l.reader == r && 0 < l.number <= |sent| && l.msg == sent[l.number - 1]
  {
  }

  lemma SentSoFar(s0: System, es: seq<Event>, i: nat)
    requires i < |es|
    ensures SentAt(s0, es, i) <= Sent(s0.ring.maxSize, es)
  {
    SentGrows(s0.ring.maxSize, es, i);
  }

  lemma OnlyReadersHandOut(s0: System, es: seq<Event>, i: nat)
    requires Fresh(s0) && ValidRun(s0, es) && i < |es| && Handout(s0, es, i).Deliver?
    ensures es[i].Poll? || es[i].Receive? || es[i].Resume?
  {
    var s, c := Before(s0, es, i);
    hide Handout, Output, Ready, NextNumber;
  }

  lemma {:induction false} SentGrows(maxSize: nat, es: seq<Event>, i: nat)
    requires i <= |es|
    ensures Sent(maxSize, es[..i]) <= Sent(maxSize, es)
    decreases |es|
  {
    if i == |es| {
      assert es[..i] == es;
    } else {
      var front := es[..|es| - 1];
      assert front[..i] == es[..i];
      SentGrows(maxSize, front, i);
    }
  }

  // ---------------------------------------------------------------- waits

  lemma QuietStep(s: System, e: Event, r: nat, cap: nat, maxSize: nat, lag: nat)
    requires Enabled(s, e) && r < |s.readers| && !Acts(e, r) && cap > 0
    ensures r < |Apply(s, e).readers| && Apply(s, e).readers[r] == s.readers[r]
    ensures LagAfter(cap, maxSize, lag, e, r) == if Accepted(maxSize, e) then lag + 1 else lag
  {
  }

  lemma After(s0: System, es: seq<Event>, i: nat, r: nat)
    requires Fresh(s0) && ValidRun(s0, es) && i < |es|
    ensures Enabled(SystemAfter(s0, es[..i]), es[i])
    ensures SystemAfter(s0, es[..i + 1]) == Apply(SystemAfter(s0, es[..i]), es[i])
    ensures LagAt(s0, es, i + 1, r) == LagAfter(s0.ring.cap, s0.ring.maxSize, LagAt(s0, es, i, r), es[i], r)
  {
    PrefixValid(s0, es, i);
    assert es[..i + 1][..i] == es[..i];
    hide Apply, Enabled, LagAfter;
  }

  /** While a reader does nothing its state stands still, and its lag grows exactly when a message is sent. */
  lemma {:induction false} Quiet(s0: System, es: seq<Event>, r: nat, k: nat, i: nat)
    requires Fresh(s0) && ValidRun(s0, es) && k < i <= |es|
    requires forall j :: k < j < i ==> !Acts(es[j], r)
    requires r < |SystemAfter(s0, es[..k + 1]).readers|
    ensures r < |SystemAfter(s0, es[..i]).readers|
    ensures SystemAfter(s0, es[..i]).readers[r] == SystemAfter(s0, es[..k + 1]).readers[r]
    ensures LagAt(s0, es, k + 1, r) <= LagAt(s0, es, i, r)
    ensures LagAt(s0, es, k + 1, r) < LagAt(s0, es, i, r) <==> SentBetween(s0.ring.maxSize, es, k, i)
    decreases i
  {
    hide *;
    HasSlots(s0);
    NoneYet(s0.ring.maxSize, es, k);
    if k + 1 < i {
      Quiet(s0, es, r, k, i - 1);
      After(s0, es, i - 1, r);
      var lag := LagAt(s0, es, i - 1, r);
      QuietStep(SystemAfter(s0, es[..i - 1]), es[i - 1], r, s0.ring.cap, s0.ring.maxSize, lag);
      OneMore(s0.ring.maxSize, es, k, i - 1);
    }
  }

  lemma HasSlots(s0: System)
    requires Fresh(s0)
    ensures s0.ring.cap > 0
  {
  }

  lemma NoneYet(maxSize: nat, es: seq<Event>, k: nat)
    requires k < |es|
    ensures !SentBetween(maxSize, es, k, k + 1)
  {
  }

  lemma OneMore(maxSize: nat, es: seq<Event>, k: nat, i: nat)
    requires k < i < |es|
    ensures SentBetween(maxSize, es, k, i + 1) <==> SentBetween(maxSize, es, k, i) || Accepted(maxSize, es[i])
  {
    hide Accepted;
    if Accepted(maxSize, es[i]) {
      assert k < i < i + 1;
    }
  }

  /** A reader that waits began to wait: its last action was a call of receive. */
  lemma {:induction false} WaitBegan(s0: System, es: seq<Event>, r: nat) returns (k: nat)
    requires Fresh(s0) && ValidRun(s0, es)
    requires r < |SystemAfter(s0, es).readers| && SystemAfter(s0, es).readers[r].waiting
    ensures k < |es| && es[k] == Receive(r) && forall j :: k < j < |es| ==> !Acts(es[j], r)
    decreases |es|
  {
    var n := |es| - 1;
    var front, e := es[..n], es[n];
    var s := SystemAfter(s0, front);
    assert Enabled(s, e) && SystemAfter(s0, es) == Apply(s, e);
    hide SystemAfter, Ready, Send, Advance;
    if e == Receive(r) {
      k := n;
    } else {
      k := WaitBegan(s0, front, r);
    }
  }

  /** A receive after which the reader waits found nothing it could be given, and changed nothing. */
  lemma WaitingReceive(s0: System, es: seq<Event>, k: nat, r: nat)
    requires Fresh(s0) && ValidRun(s0, es) && k < |es| && es[k] == Receive(r)
    ensures r < |SystemAfter(s0, es[..k + 1]).readers|
    ensures SystemAfter(s0, es[..k + 1]).readers[r].waiting ==>
              LagAt(s0, es, k + 1, r) == LagAt(s0, es, k, r) && Wrap(LagAt(s0, es, k, r), s0.ring.cap) == 0
  {
    hide *;
    var s, c := Before(s0, es, k);
    HasSlots(s0);
    After(s0, es, k, r);
    WaitingStep(s, c, r);
    LastOfIs(c, r);
    assert LastOf(c, r) + LagAt(s0, es, k, r) == |c.log|;
    SizedIs(s0, s);
  }

  lemma WaitingStep(s: System, c: Channel, r: nat)
    requires Related(s, c) && Enabled(s, Receive(r)) && Numbered(s, c)
    ensures r < |c.last| && c.last[r] <= |c.log| && s.ring.cap > 0 && r < |Apply(s, Receive(r)).readers|
    ensures var lag := |c.log| - c.last[r];
      Apply(s, Receive(r)).readers[r].waiting ==>
        Wrap(lag, s.ring.cap) == 0 && forall maxSize: nat :: LagAfter(s.ring.cap, maxSize, lag, Receive(r), r) == lag
  {
    assert ReaderOk(s.readers[r], c.last[r], |c.log|, s.ring.cap);
    ReadyExactly(s.ring, c.log, c.last[r]);
    hide Models, Related, ReaderOk, Slot, Wrap, Ready, Advance;
  }

  lemma GenuineIsBehind(s0: System, es: seq<Event>, i: nat)
    requires Fresh(s0) && ValidRun(s0, es) && i < |es| && es[i].Resume?
    ensures es[i].r < |SystemAfter(s0, es[..i]).readers| && SystemAfter(s0, es[..i]).readers[es[i].r].waiting
    ensures GenuineAt(s0, es, i) <==> LagAt(s0, es, i, es[i].r) > 0
  {
    var s, c := Before(s0, es, i);
    assert LastOf(c, es[i].r) + LagAt(s0, es, i, es[i].r) == |c.log|;
    hide Related, LagAt, SentAt, SystemAfter, ChannelAfter, Handout, LabelOf;
  }

  /** A wake-up gives its reader something new if and only if a message was sent since its wait began, or
      it was behind when it began to wait (and then by a whole number of rings). */
  lemma WakeExact(s0: System, es: seq<Event>, k: nat, i: nat)
    requires Fresh(s0) && ValidRun(s0, es) && Waited(es, k, i)
    ensures GenuineAt(s0, es, i) <==>
            SentBetween(s0.ring.maxSize, es, k, i) || LagAt(s0, es, k, es[i].r) > 0
    ensures LagAt(s0, es, k, es[i].r) % s0.ring.cap == 0
  {
    WaitedIs(es, k, i);
    hide *;
    var r := es[i].r;
    GenuineIsBehind(s0, es, i);
    WaitingReceive(s0, es, k, r);
    Quiet(s0, es, r, k, i);
    WrapIsResidue(LagAt(s0, es, k, r), s0.ring.cap);
  }

  lemma WaitedIs(es: seq<Event>, k: nat, i: nat)
    requires Waited(es, k, i)
    ensures k < i < |es| && es[i].Resume? && es[k] == Receive(es[i].r)
    ensures forall j :: k < j < i ==> !Acts(es[j], es[i].r)
  {
  }

  // ---------------------------------------------------------------- the ring as a channel

  /** The wait begun at k and ended at i ends after a message was sent, or began with the reader behind. */
  predicate Worthwhile(s0: System, es: seq<Event>, k: nat, i: nat)
    requires s0.ring.cap > 0 && k < i < |es| && es[i].Resume?
  {
    SentBetween(s0.ring.maxSize, es, k, i) || LagAt(s0, es, k, es[i].r) > 0
  }

  predicate WorthwhileIfWait(s0: System, es: seq<Event>, k: nat, i: nat)
    requires s0.ring.cap > 0
  {
    Waited(es, k, i) ==> Worthwhile(s0, es, k, i)
  }

  predicate AllWorthwhile(s0: System, es: seq<Event>)
    requires s0.ring.cap > 0
  {
    forall k: nat, i: nat :: k < i < |es| ==> WorthwhileIfWait(s0, es, k, i)
  }

  lemma WakeHasWait(s0: System, es: seq<Event>, i: nat) returns (k: nat)
    requires Fresh(s0) && ValidRun(s0, es) && i < |es| && es[i].Resume?
    ensures Waited(es, k, i)
  {
    GenuineIsBehind(s0, es, i);
    PrefixValid(s0, es, i);
    k := WaitBegan(s0, es[..i], es[i].r);
    var front := es[..i];
    assert forall j :: 0 <= j < i ==> front[j] == es[j];
    hide SystemAfter;
  }

  /** A run of the ring is a run of the lossy broadcast channel, with what it hands out as labels, if and
      only if every wait that ends in a wake-up is worthwhile. */
  lemma RingIsChannel(s0: System, es: seq<Event>)
    requires Fresh(s0) && ValidRun(s0, es)
    ensures Run(States(s0, Channel([], []), es), Labels(s0, Channel([], []), es)) <==> AllWorthwhile(s0, es)
  {
    hide *;
    HasSlots(s0);
    StepByStep(s0, es);
    forall k: nat, i: nat | k < i < |es|
      ensures (forall n :: 0 <= n < |es| ==> GenuineAt(s0, es, n)) ==> WorthwhileIfWait(s0, es, k, i)
    {
      if Waited(es, k, i) {
        WakeExact(s0, es, k, i);
      }
      WorthwhileIs(s0, es, k, i);
    }
    forall i | 0 <= i < |es|
      ensures (forall k: nat, n: nat :: k < n < |es| ==> WorthwhileIfWait(s0, es, k, n)) ==> GenuineAt(s0, es, i)
    {
      if es[i].Resume? {
        var k := WakeHasWait(s0, es, i);
        WaitedIs(es, k, i);
        WakeExact(s0, es, k, i);
        WorthwhileIs(s0, es, k, i);
      } else {
        NoWakeIsGenuine(s0, es, i);
      }
    }
    AllIs(s0, es);
  }

  lemma AllIs(s0: System, es: seq<Event>)
    requires s0.ring.cap > 0
    ensures AllWorthwhile(s0, es) <==> forall k: nat, i: nat :: k < i < |es| ==> WorthwhileIfWait(s0, es, k, i)
  {
  }

  lemma WorthwhileIs(s0: System, es: seq<Event>, k: nat, i: nat)
    requires s0.ring.cap > 0
    ensures WorthwhileIfWait(s0, es, k, i) <==>
            (Waited(es, k, i) ==> SentBetween(s0.ring.maxSize, es, k, i) || LagAt(s0, es, k, es[i].r) > 0)
  {
    hide SentBetween, LagAt;
  }

  lemma NoWakeIsGenuine(s0: System, es: seq<Event>, i: nat)
    requires i < |es| && !es[i].Resume?
    ensures GenuineAt(s0, es, i)
  {
  }

  /** Every wait ends by a timeout or after a message was sent since it began. */
  predicate WaitsEndAfterSend(s0: System, es: seq<Event>) {
    forall k: nat, i: nat :: k < i < |es| && Waited(es, k, i) ==> SentBetween(s0.ring.maxSize, es, k, i)
  }

  /** Then the messages handed to any one reader have strictly increasing numbers, and each is the message
      accepted under its number: no duplicate, no reordering, nothing invented. */
  lemma ReaderNeverGoesBack(s0: System, es: seq<Event>, i: nat, j: nat)
    requires Fresh(s0) && ValidRun(s0, es) && WaitsEndAfterSend(s0, es) && i < j < |es|
    requires Handout(s0, es, i).Deliver? && Handout(s0, es, j).Deliver?
    requires Handout(s0, es, i).reader == Handout(s0, es, j).reader
    ensures var sent := Sent(s0.ring.maxSize, es);
      && 0 < Handout(s0, es, i).number < Handout(s0, es, j).number <= |sent|
      && Handout(s0, es, i).msg == sent[Handout(s0, es, i).number - 1]
      && Handout(s0, es, j).msg == sent[Handout(s0, es, j).number - 1]
  {
    SendsAreWorthwhile(s0, es);
    HandedAsSent(s0, es, i);
    HandedAsSent(s0, es, j);
    RingIsChannel(s0, es);
    hide AllWorthwhile, Run, WaitsEndAfterSend, Sent, SentAt;
    DeliveriesIncrease(States(s0, Channel([], []), es), Labels(s0, Channel([], []), es), i, j);
  }

  lemma SendsAreWorthwhile(s0: System, es: seq<Event>)
    requires s0.ring.cap > 0 && WaitsEndAfterSend(s0, es)
    ensures AllWorthwhile(s0, es)
  {
    hide SentBetween, LagAt, Waited;
    forall k: nat, i: nat | k < i < |es|
      ensures WorthwhileIfWait(s0, es, k, i)
    {
      WorthwhileIs(s0, es, k, i);
    }
  }
}
