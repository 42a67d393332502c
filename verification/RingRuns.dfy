/**
 The ring with any number of readers, any interleaving of sends, polls, waits, wake-ups and timeouts,
 related to the lossy broadcast channel. A step is the code under one hold of the ring's mutex.
 */
module RingRuns {
  import opened Channel
  import opened Ring

  datatype Reader = Reader(cursor: nat, waiting: bool)

  datatype System = System(ring: Ring, readers: seq<Reader>)

  datatype Event =
    | Open                // a process opens the queue: its cursor starts at 0
    | Post(msg: Msg)      // send; an oversized message throws and changes nothing
    | Poll(r: nat)        // try_receive
    | Receive(r: nat)     // receive or timed_receive, up to the wait if it has to wait
    | Resume(r: nat)      // the wait on the condition variable ends with a notification
    | Timeout(r: nat)     // the wait ends without one

  /** A notification on an empty queue only makes the reader wait again, so resuming needs a message. */
  predicate Enabled(s: System, e: Event) {
    Shaped(s.ring) &&
    match e
    case Open => true
    case Post(m) => true
    case Poll(r) => r < |s.readers| && !s.readers[r].waiting
    case Receive(r) => r < |s.readers| && !s.readers[r].waiting
    case Resume(r) => r < |s.readers| && s.readers[r].waiting && s.ring.num != 0
    case Timeout(r) => r < |s.readers| && s.readers[r].waiting
  }

  function Apply(s: System, e: Event): System
    requires Enabled(s, e)
  {
    match e
    case Open => s.(readers := s.readers + [Reader(0, false)])
    case Post(m) => if |m| > s.ring.maxSize then s else s.(ring := Send(s.ring, m))
    case Poll(r) =>
      var c := s.readers[r].cursor;
      if Ready(s.ring, c) then s.(readers := s.readers[r := Reader(Advance(s.ring, c), false)]) else s
    case Receive(r) =>
      var c := s.readers[r].cursor;
      if Ready(s.ring, c) then s.(readers := s.readers[r := Reader(Advance(s.ring, c), false)])
      else s.(readers := s.readers[r := Reader(c, true)])
    case Resume(r) => s.(readers := s.readers[r := Reader(Advance(s.ring, s.ring.first + 1), false)])
    case Timeout(r) => s.(readers := s.readers[r := Reader(s.readers[r].cursor, false)])
  }

  /** The message a step hands to its reader: the contents of the slot its cursor ends on. */
  function Output(s: System, e: Event): Msg
    requires Enabled(s, e) && (e.Poll? || e.Receive? || e.Resume?)
  {
    var at := Apply(s, e).readers[e.r].cursor;
    if at < |s.ring.slots| then s.ring.slots[at] else []
  }

  // ---------------------------------------------------------------- the channel behind it

  predicate ReaderOk(rd: Reader, last: nat, n: nat, cap: nat)
    requires cap > 0
  {
    last <= n && rd.cursor == Slot(last, cap)
  }

  ghost predicate Related(s: System, c: Channel) {
    && Models(s.ring, c.log) && |s.readers| == |c.last|
    && (forall k :: 0 <= k < |c.log| ==> |c.log[k]| <= s.ring.maxSize)
    && forall r :: 0 <= r < |s.readers| ==> ReaderOk(s.readers[r], c.last[r], |c.log|, s.ring.cap)
  }

  /** Every reader has a last number, and it is the number of a message sent. */
  predicate Numbered(s: System, c: Channel) {
    |s.readers| == |c.last| && forall r :: 0 <= r < |c.last| ==> c.last[r] <= |c.log|
  }

  /** What a step means for the channel. */
  function LabelOf(s: System, c: Channel, e: Event): Label
    requires Enabled(s, e) && Numbered(s, c)
  {
    match e
    case Open => Subscribe
    case Post(m) => if |m| > s.ring.maxSize then Silent else Publish(m)
    case Poll(r) =>
      if Ready(s.ring, s.readers[r].cursor) then Handed(s, c, e, NextNumber(|c.log|, c.last[r], s.ring.cap)) else Silent
    case Receive(r) =>
      if Ready(s.ring, s.readers[r].cursor) then Handed(s, c, e, NextNumber(|c.log|, c.last[r], s.ring.cap)) else Silent
    case Resume(r) => Handed(s, c, e, |c.log|)
    case Timeout(r) => Silent
  }

  function Handed(s: System, c: Channel, e: Event, number: int): Label
    requires Enabled(s, e) && (e.Poll? || e.Receive? || e.Resume?)
  {
    Deliver(e.r, if number < 0 then 0 else number, s.ring.maxSize, Output(s, e))
  }

  /** A reader that wakes from a wait finds something it has not seen: in particular when a message was
      sent since the wait began. */
  predicate Genuine(c: Channel, e: Event) {
    e.Resume? && e.r < |c.last| ==> c.last[e.r] < |c.log|
  }

  lemma PostRefines(s: System, c: Channel, m: Msg)
    requires Related(s, c)
    ensures |m| <= s.ring.maxSize ==> Related(s.(ring := Send(s.ring, m)), c.(log := c.log + [m]))
  {
    SendExtendsLog(s.ring, c.log, m);
    hide Models, Slot;
  }

  lemma HandedRefines(s: System, c: Channel, r: nat, k: nat, waiting: bool)
    requires Related(s, c) && r < |s.readers| && k <= |c.log|
    ensures Related(s.(readers := s.readers[r := Reader(Slot(k, s.ring.cap), waiting)]), c.(last := c.last[r := k]))
  {
    hide Models, Slot;
    Unfold(s.ring, c.log);
  }

  lemma OpenRefines(s: System, c: Channel)
    requires Related(s, c)
    ensures Related(s.(readers := s.readers + [Reader(0, false)]), c.(last := c.last + [0]))
  {
    assert Slot(0, s.ring.cap) == 0;
    hide Models, Slot;
  }

  lemma RelatedNumbered(s: System, c: Channel)
    requires Related(s, c)
    ensures Numbered(s, c)
  {
    forall r | 0 <= r < |c.last|
      ensures c.last[r] <= |c.log|
    {
      assert ReaderOk(s.readers[r], c.last[r], |c.log|, s.ring.cap);
    }
  }

  lemma FetchRefines(s: System, c: Channel, e: Event)
    requires Related(s, c) && Enabled(s, e) && (e.Poll? || e.Receive?)
    ensures Numbered(s, c)
    ensures Related(Apply(s, e), Track(c, LabelOf(s, c, e)))
    ensures Next(c, LabelOf(s, c, e), Track(c, LabelOf(s, c, e)))
  {
    RelatedNumbered(s, c);
    if Ready(s.ring, s.readers[e.r].cursor) {
      HitRefines(s, c, e);
    } else {
      hide Models, Slot;
      assert ReaderOk(s.readers[e.r], c.last[e.r], |c.log|, s.ring.cap);
      HandedRefines(s, c, e.r, c.last[e.r], e.Receive?);
      assert c.last[e.r := c.last[e.r]] == c.last;
      assert s.readers[e.r := s.readers[e.r]] == s.readers;
    }
  }

  lemma HitRefines(s: System, c: Channel, e: Event)
    requires Related(s, c) && Numbered(s, c) && Enabled(s, e) && (e.Poll? || e.Receive?)
    requires Ready(s.ring, s.readers[e.r].cursor)
    ensures Related(Apply(s, e), Track(c, LabelOf(s, c, e)))
    ensures Next(c, LabelOf(s, c, e), Track(c, LabelOf(s, c, e)))
  {
    var last, cap := c.last[e.r], s.ring.cap;
    assert ReaderOk(s.readers[e.r], last, |c.log|, cap);
    hide Models, Slot, Wrap, Clamp, NextNumber, Advance, Ready, StepDown;
    ReadyExactly(s.ring, c.log, last);
    ReceiveExactly(s.ring, c.log, last);
    HandedRefines(s, c, e.r, NextNumber(|c.log|, last, cap), false);
  }

  /** Waking delivers the newest message; that is a channel step exactly when the reader had not had it. */
  lemma ResumeRefines(s: System, c: Channel, e: Event)
    requires Related(s, c) && Enabled(s, e) && e.Resume?
    ensures Numbered(s, c)
    ensures LabelOf(s, c, e) == Deliver(e.r, |c.log|, s.ring.maxSize, c.log[|c.log| - 1])
    ensures Related(Apply(s, e), Track(c, LabelOf(s, c, e)))
    ensures Next(c, LabelOf(s, c, e), Track(c, LabelOf(s, c, e))) <==> Genuine(c, e)
  {
    RelatedNumbered(s, c);
    ResumeExactly(s.ring, c.log);
    HandedRefines(s, c, e.r, |c.log|, false);
  }

  /** Every step keeps the relation, and is a step of the channel exactly when it is genuine. */
  lemma StepExact(s: System, c: Channel, e: Event)
    requires Related(s, c) && Enabled(s, e)
    ensures Numbered(s, c)
    ensures Related(Apply(s, e), Track(c, LabelOf(s, c, e)))
    ensures Next(c, LabelOf(s, c, e), Track(c, LabelOf(s, c, e))) <==> Genuine(c, e)
  {
    hide Models, Slot;
    RelatedNumbered(s, c);
    match e
    case Open => OpenRefines(s, c);
    case Post(m) => PostRefines(s, c, m);
    case Poll(r) => FetchRefines(s, c, e);
    case Receive(r) => FetchRefines(s, c, e);
    case Resume(r) => ResumeRefines(s, c, e);
    case Timeout(r) =>
      assert ReaderOk(s.readers[r], c.last[r], |c.log|, s.ring.cap);
      HandedRefines(s, c, r, c.last[r], false);
      assert c.last[r := c.last[r]] == c.last;
  }

  // ---------------------------------------------------------------- whole runs

  function SystemAfter(s0: System, es: seq<Event>): System {
    if es == [] then s0
    else
      var s, e := SystemAfter(s0, es[..|es| - 1]), es[|es| - 1];
      if Enabled(s, e) then Apply(s, e) else s
  }

  predicate ValidRun(s0: System, es: seq<Event>) {
    es == [] || (ValidRun(s0, es[..|es| - 1]) && Enabled(SystemAfter(s0, es[..|es| - 1]), es[|es| - 1]))
  }

  /** The label of event `e` in a state and channel that may not belong together. */
  function LabelIn(s: System, c: Channel, e: Event): Label {
    if Enabled(s, e) && Numbered(s, c) then LabelOf(s, c, e) else Silent
  }

  function ChannelAfter(s0: System, c0: Channel, es: seq<Event>): Channel {
    if es == [] then c0
    else
      var front, e := es[..|es| - 1], es[|es| - 1];
      var c := ChannelAfter(s0, c0, front);
      Track(c, LabelIn(SystemAfter(s0, front), c, e))
  }

  /** The channel's states and labels along a run of the ring. */
  function States(s0: System, c0: Channel, es: seq<Event>): (cs: seq<Channel>)
    ensures |cs| == |es| + 1
  {
    seq(|es| + 1, i requires 0 <= i <= |es| => ChannelAfter(s0, c0, es[..i]))
  }

  function Labels(s0: System, c0: Channel, es: seq<Event>): (ls: seq<Label>)
    ensures |ls| == |es|
  {
    seq(|es|, i requires 0 <= i < |es| => LabelIn(SystemAfter(s0, es[..i]), ChannelAfter(s0, c0, es[..i]), es[i]))
  }

  /** A ring just created, with whatever its memory held, and nobody reading. */
  predicate Fresh(s: System) {
    Shaped(s.ring) && s.ring.first == 0 && s.ring.num == 0 && s.readers == []
  }

  lemma {:induction false} RunRelated(s0: System, es: seq<Event>)
    requires Fresh(s0) && ValidRun(s0, es)
    ensures Related(SystemAfter(s0, es), ChannelAfter(s0, Channel([], []), es))
    decreases |es|
  {
    if es != [] {
      var front, e := es[..|es| - 1], es[|es| - 1];
      RunRelated(s0, front);
      hide Related, LabelOf, Track, Apply, Enabled;
      StepExact(SystemAfter(s0, front), ChannelAfter(s0, Channel([], []), front), e);
    }
  }

  lemma {:induction false} PrefixValid(s0: System, es: seq<Event>, i: nat)
    requires ValidRun(s0, es) && i <= |es|
    ensures ValidRun(s0, es[..i])
    ensures i < |es| ==> Enabled(SystemAfter(s0, es[..i]), es[i])
    decreases |es|
  {
    if i == |es| {
      assert es[..i] == es;
    } else {
      var front := es[..|es| - 1];
      PrefixValid(s0, front, i);
      assert front[..i] == es[..i];
    }
  }

  /** At step `i` of a run nobody wakes to a message it has already had. */
  predicate GenuineAt(s0: System, es: seq<Event>, i: nat)
    requires i < |es|
  {
    Genuine(ChannelAfter(s0, Channel([], []), es[..i]), es[i])
  }

  predicate StepAt(cs: seq<Channel>, ls: seq<Label>, i: nat)
    requires |cs| == |ls| + 1 && i < |ls|
  {
    Next(cs[i], ls[i], cs[i + 1])
  }

  lemma PositionExact(s0: System, es: seq<Event>, i: nat)
    requires Fresh(s0) && ValidRun(s0, es) && i < |es|
    ensures var c0 := Channel([], []);
      StepAt(States(s0, c0, es), Labels(s0, c0, es), i) <==> GenuineAt(s0, es, i)
  {
    var c0 := Channel([], []);
    var c, s := ChannelAfter(s0, c0, es[..i]), SystemAfter(s0, es[..i]);
    PrefixValid(s0, es, i);
    RunRelated(s0, es[..i]);
    assert es[..i + 1][..i] == es[..i];
    assert ChannelAfter(s0, c0, es[..i + 1]) == Track(c, LabelIn(s, c, es[i]));
    hide Related, LabelOf, Track, Apply, Enabled, ChannelAfter, SystemAfter;
    StepExact(s, c, es[i]);
  }

  /** A run of the ring is a run of the lossy broadcast channel, with the messages it really handed out
      as labels, exactly when every step is one. */
  lemma StepByStep(s0: System, es: seq<Event>)
    requires Fresh(s0) && ValidRun(s0, es)
    ensures Run(States(s0, Channel([], []), es), Labels(s0, Channel([], []), es))
       <==> forall i :: 0 <= i < |es| ==> GenuineAt(s0, es, i)
  {
    hide *;
    var cs, ls := States(s0, Channel([], []), es), Labels(s0, Channel([], []), es);
    forall i | 0 <= i < |es|
      ensures StepAt(cs, ls, i) <==> GenuineAt(s0, es, i)
    {
      PositionExact(s0, es, i);
    }
    RunIs(cs, ls);
  }

  lemma RunIs(cs: seq<Channel>, ls: seq<Label>)
    requires |cs| == |ls| + 1
    ensures Run(cs, ls) <==> forall i :: 0 <= i < |ls| ==> StepAt(cs, ls, i)
  {
    if forall i :: 0 <= i < |ls| ==> StepAt(cs, ls, i) {
      forall i | 0 <= i < |ls|
        ensures Next(cs[i], ls[i], cs[i + 1])
      {
        assert StepAt(cs, ls, i);
      }
    }
  }

  /** The condition is not idle. A notification is sent outside the lock, so it can reach a reader that
      fetched the message already and waits for the next one: the same message is handed out twice. */
  lemma LateNotificationRepeats(s0: System, m: Msg)
    requires Fresh(s0) && s0.ring.cap > 1 && |m| <= s0.ring.maxSize
    ensures var es := [Open, Post(m), Poll(0), Receive(0), Resume(0)];
      && ValidRun(s0, es) && !GenuineAt(s0, es, 4)
      && Labels(s0, Channel([], []), es)[2] == Labels(s0, Channel([], []), es)[4]
         == Deliver(0, 1, s0.ring.maxSize, m)
  {
    var top, ring, c0 := s0.ring.cap - 1, Send(s0.ring, m), Channel([], []);
    Start(s0, c0);
    FiveSteps(s0, m);
    hide *;
    var all := [Open, Post(m), Poll(0), Receive(0), Resume(0)];
    Grow(s0, c0, [], Open, [Open]);
    Grow(s0, c0, [Open], Post(m), [Open, Post(m)]);
    Grow(s0, c0, [Open, Post(m)], Poll(0), [Open, Post(m), Poll(0)]);
    Grow(s0, c0, [Open, Post(m), Poll(0)], Receive(0), [Open, Post(m), Poll(0), Receive(0)]);
    Grow(s0, c0, [Open, Post(m), Poll(0), Receive(0)], Resume(0), all);
    assert all[..2] == [Open, Post(m)] && all[..4] == [Open, Post(m), Poll(0), Receive(0)];
    AtPosition(s0, all, 2);
    AtPosition(s0, all, 4);
    NotGenuine(m);
  }

  lemma NotGenuine(m: Msg)
    ensures !Genuine(Channel([m], [1]), Resume(0))
  {
  }

  lemma AtPosition(s0: System, es: seq<Event>, i: nat)
    requires i < |es|
    ensures var c := ChannelAfter(s0, Channel([], []), es[..i]);
      && Labels(s0, Channel([], []), es)[i] == LabelIn(SystemAfter(s0, es[..i]), c, es[i])
      && (GenuineAt(s0, es, i) <==> Genuine(c, es[i]))
  {
  }

  lemma Start(s0: System, c0: Channel)
    ensures ValidRun(s0, []) && SystemAfter(s0, []) == s0 && ChannelAfter(s0, c0, []) == c0
  {
  }

  /** `e` takes a system and its channel to the given ones, under the given label. */
  predicate Takes(s: System, c: Channel, e: Event, l: Label, s': System, c': Channel) {
    Enabled(s, e) && Apply(s, e) == s' && LabelIn(s, c, e) == l && Track(c, l) == c'
  }

  lemma FiveSteps(s0: System, m: Msg)
    requires Fresh(s0) && s0.ring.cap > 1 && |m| <= s0.ring.maxSize
    ensures var top, ring, got := s0.ring.cap - 1, Send(s0.ring, m), Deliver(0, 1, s0.ring.maxSize, m);
      var s2 := System(ring, [Reader(0, false)]);
      var s3 := System(ring, [Reader(top, false)]);
      var s4 := System(ring, [Reader(top, true)]);
      && Takes(s0, Channel([], []), Open, Subscribe, s0.(readers := [Reader(0, false)]), Channel([], [0]))
      && Takes(s0.(readers := [Reader(0, false)]), Channel([], [0]), Post(m), Publish(m), s2, Channel([m], [0]))
      && Takes(s2, Channel([m], [0]), Poll(0), got, s3, Channel([m], [1]))
      && Takes(s3, Channel([m], [1]), Receive(0), Silent, s4, Channel([m], [1]))
      && Takes(s4, Channel([m], [1]), Resume(0), got, s3, Channel([m], [1]))
  {
  }

  lemma Grow(s0: System, c0: Channel, es: seq<Event>, e: Event, es': seq<Event>)
    requires ValidRun(s0, es) && es' == es + [e] && Enabled(SystemAfter(s0, es), e)
    ensures ValidRun(s0, es') && SystemAfter(s0, es') == Apply(SystemAfter(s0, es), e)
    ensures var s, c := SystemAfter(s0, es), ChannelAfter(s0, c0, es);
            ChannelAfter(s0, c0, es') == Track(c, LabelIn(s, c, e))
  {
    assert es'[..|es|] == es;
  }
}
