/**
 The log file as the events of a run tell it: what each handler has received and written, who holds the
 output lock, and how the bytes of a record lie in the file.
 */
module LoggerEvents {
  import opened Bits
  import opened LogFile
  import opened Logger

  predicate ValidRun(s0: State, es: seq<Event>) {
    es == [] || (ValidRun(s0, es[..|es| - 1]) && Enabled(After(s0, es[..|es| - 1]), es[|es| - 1]))
  }

  /** What handler h has received, in order. */
  function ReceivedIn(es: seq<Event>, h: nat): seq<Msg> {
    if es == [] then []
    else
      var front, e := ReceivedIn(es[..|es| - 1], h), es[|es| - 1];
      if e.Receive? && e.h == h then front + [e.msg] else front
  }

  /** The message handler h holds: the one received last, unless it has been written since. */
  function InHand(es: seq<Event>, h: nat): Phase {
    if es == [] then Receiving
    else
      var front, e := es[..|es| - 1], es[|es| - 1];
      if e.h != h then InHand(front, h)
      else if e.Receive? then Holding(e.msg)
      else if e.WriteBody? then Receiving
      else InHand(front, h)
  }

  /** The lock, by the last step that took it, went on under it or released it. */
  function LockAfter(es: seq<Event>): Lock {
    if es == [] then Open
    else
      match es[|es| - 1]
      case Take(h) => Held(h, false)
      case WriteLength(h) => Held(h, true)
      case WriteBody(_) => Open
      case Receive(_, _) => LockAfter(es[..|es| - 1])
  }

  /** The records written, in the order of their bodies. */
  function WrittenIn(es: seq<Event>): seq<Entry> {
    if es == [] then []
    else
      var front, e := es[..|es| - 1], es[|es| - 1];
      if e.WriteBody? && InHand(front, e.h).Holding? then WrittenIn(front) + [Entry(e.h, InHand(front, e.h).msg)]
      else WrittenIn(front)
  }

  predicate Told(s: State, es: seq<Event>) {
    && s.lock == LockAfter(es) && s.written == WrittenIn(es)
    && forall h :: 0 <= h < |s.handlers| ==> s.handlers[h] == Handler(InHand(es, h), ReceivedIn(es, h))
  }

  lemma OneStep(es: seq<Event>, e: Event, h: nat)
    ensures var es' := es + [e];
      && ReceivedIn(es', h) == ReceivedIn(es, h) + (if e.Receive? && e.h == h then [e.msg] else [])
      && InHand(es', h) == (if e.h != h then InHand(es, h) else if e.Receive? then Holding(e.msg)
                            else if e.WriteBody? then Receiving else InHand(es, h))
  {
    assert (es + [e])[..|es|] == es;
  }

  lemma LockStep(es: seq<Event>, e: Event)
    ensures LockAfter(es + [e]) == match e
      case Take(h) => Held(h, false)
      case WriteLength(h) => Held(h, true)
      case WriteBody(_) => Open
      case Receive(_, _) => LockAfter(es)
    ensures WrittenIn(es + [e])
         == WrittenIn(es) + if e.WriteBody? && InHand(es, e.h).Holding? then [Entry(e.h, InHand(es, e.h).msg)] else []
  {
    assert (es + [e])[..|es|] == es;
  }

  lemma ToldStep(s: State, e: Event, es: seq<Event>)
    requires Told(s, es) && Enabled(s, e)
    ensures Told(Apply(s, e), es + [e])
  {
    var s' := Apply(s, e);
    forall h | 0 <= h < |s'.handlers|
      ensures s'.handlers[h] == Handler(InHand(es + [e], h), ReceivedIn(es + [e], h))
    {
      OneStep(es, e, h);
    }
    LockStep(es, e);
    hide LeBytes, InHand, ReceivedIn, LockAfter, WrittenIn;
  }

  /** In every run the events determine the lock, the records and the handlers. */
  lemma {:induction false} EventsTell(s0: State, header: seq<Byte>, es: seq<Event>)
    requires Init(s0, header) && ValidRun(s0, es)
    ensures Told(After(s0, es), es) && |After(s0, es).handlers| == |s0.handlers|
    decreases |es|
  {
    if es == [] {
      NothingTold(s0, header, es);
    } else {
      hide *;
      var front, e := es[..|es| - 1], es[|es| - 1];
      LastStep(s0, es);
      EventsTell(s0, header, front);
      assert es == front + [e];
      ToldStep(After(s0, front), e, front);
      SameHandlers(After(s0, front), e);
    }
  }

  lemma NothingTold(s0: State, header: seq<Byte>, es: seq<Event>)
    requires Init(s0, header) && es == []
    ensures After(s0, es) == s0 && Told(s0, es)
  {
  }

  lemma LastStep(s0: State, es: seq<Event>)
    requires ValidRun(s0, es) && es != []
    ensures var s := After(s0, es[..|es| - 1]);
      ValidRun(s0, es[..|es| - 1]) && Enabled(s, es[|es| - 1]) && After(s0, es) == Apply(s, es[|es| - 1])
  {
    hide Enabled, Apply;
  }

  lemma SameHandlers(s: State, e: Event)
    requires Enabled(s, e)
    ensures |Apply(s, e).handlers| == |s.handlers|
  {
    hide LeBytes;
  }

  /** Each queue's records in the file are the messages its handler received, in that order, but for one that is
      in hand; and the file holds nothing else. */
  lemma QueueOrderOnEvents(s0: State, header: seq<Byte>, es: seq<Event>, h: nat)
    requires Init(s0, header) && ValidRun(s0, es) && h < |s0.handlers|
    ensures Of(WrittenIn(es), h) + InFlight(InHand(es, h)) == ReceivedIn(es, h)
  {
    EventsTell(s0, header, es);
    hide *;
    ToldMeans(After(s0, es), es, h);
    QueueOrderKept(s0, header, es, h);
  }

  lemma ToldMeans(s: State, es: seq<Event>, h: nat)
    requires Told(s, es) && h < |s.handlers|
    ensures s.written == WrittenIn(es) && s.handlers[h] == Handler(InHand(es, h), ReceivedIn(es, h))
  {
  }

  /** A turn of a handler that finds the lock free: four steps, all possible, append one record and leave
      everything else as it was. */
  lemma HandlerTurn(s: State, h: nat, m: Msg)
    requires h < |s.handlers| && s.handlers[h].phase == Receiving && s.lock == Open && |m| <= 1024
    ensures var turn := [Receive(h, m), Take(h), WriteLength(h), WriteBody(h)];
      && ValidRun(s, turn)
      && After(s, turn)
         == State(s.out + Record(m), Open, s.handlers[h := Handler(Receiving, s.handlers[h].received + [m])],
                  s.written + [Entry(h, m)])
  {
    hide *;
    var s1, s2, s3, s4 := FourSteps(s, h, m);
    NoEvents(s);
    Grow(s, [], Receive(h, m), [Receive(h, m)], s, s1);
    Grow(s, [Receive(h, m)], Take(h), [Receive(h, m), Take(h)], s1, s2);
    Grow(s, [Receive(h, m), Take(h)], WriteLength(h), [Receive(h, m), Take(h), WriteLength(h)], s2, s3);
    Grow(s, [Receive(h, m), Take(h), WriteLength(h)], WriteBody(h),
         [Receive(h, m), Take(h), WriteLength(h), WriteBody(h)], s3, s4);
  }

  lemma FourSteps(s: State, h: nat, m: Msg) returns (s1: State, s2: State, s3: State, s4: State)
    requires h < |s.handlers| && s.handlers[h].phase == Receiving && s.lock == Open && |m| <= 1024
    ensures Enabled(s, Receive(h, m)) && Apply(s, Receive(h, m)) == s1
    ensures Enabled(s1, Take(h)) && Apply(s1, Take(h)) == s2
    ensures Enabled(s2, WriteLength(h)) && Apply(s2, WriteLength(h)) == s3
    ensures Enabled(s3, WriteBody(h)) && Apply(s3, WriteBody(h)) == s4
    ensures s4 == State(s.out + Record(m), Open, s.handlers[h := Handler(Receiving, s.handlers[h].received + [m])],
                        s.written + [Entry(h, m)])
  {
    RecordIs(m);
    hide LeBytes, Record;
    s1 := Apply(s, Receive(h, m));
    s2 := Apply(s1, Take(h));
    s3 := Apply(s2, WriteLength(h));
    s4 := Apply(s3, WriteBody(h));
    assert s.out + LeBytes(|m|, 2) + m == s.out + (LeBytes(|m|, 2) + m);
  }

  lemma NoEvents(s: State)
    ensures ValidRun(s, []) && After(s, []) == s
  {
  }

  lemma Grow(s0: State, es: seq<Event>, e: Event, es': seq<Event>, s: State, s': State)
    requires ValidRun(s0, es) && es' == es + [e] && After(s0, es) == s && Enabled(s, e) && Apply(s, e) == s'
    ensures ValidRun(s0, es') && After(s0, es') == s'
  {
    assert es'[..|es|] == es;
  }

  // ---------------------------------------------------------------- bytes

  lemma LowByteIs(n: nat)
    ensures LowByte(n) == n % 256 && Rest(n) == n / 256
  {
    assert LowByte(n) == Low(n, 8) && Pow2(8) == 256;
    RestIs(n);
    hide *;
    LowShrAre(n, 8);
  }

  /** A record: the low byte of its length, the high byte, the message. */
  lemma RecordLayout(m: Msg)
    requires |m| <= MAX_BUF
    ensures |Record(m)| == |m| + 2 && Record(m)[0] == |m| % 256 && Record(m)[1] == |m| / 256 && Record(m)[2..] == m
  {
    var n: nat := |m|;
    LeBytesCons(n, 2);
    LeBytesCons(Rest(n), 1);
    LeBytesNil(Rest(Rest(n)));
    LowByteIs(n);
    LowByteIs(Rest(n));
    RecordIs(m);
    hide *;
    assert LeBytes(n, 2) == [LowByte(n), LowByte(Rest(n))];
    assert (LeBytes(n, 2) + m)[2..] == m;
  }

  /** The start time's bytes, lowest first. */
  lemma {:induction false} LeBytesAt(n: nat, m: nat, i: nat)
    requires i < m
    ensures LeBytes(n, m)[i] == (n / Pow2(8 * i)) % 256
    decreases i
  {
    LeBytesCons(n, m);
    LowByteIs(n);
    if i == 0 {
      assert Pow2(0) == 1;
    } else {
      LeBytesAt(Rest(n), m - 1, i - 1);
      DivDiv(n, i);
    }
    hide *;
  }

  lemma DivDiv(n: nat, i: nat)
    requires i > 0
    ensures (n / 256) / Pow2(8 * (i - 1)) == n / Pow2(8 * i)
  {
    var k := 8 * (i - 1);
    assert Pow2(8) == 256;
    hide *;
    ShrTwice(n, 8, k);
    LowShrAre(n, 8);
    LowShrAre(Shr(n, 8), k);
    LowShrAre(n, 8 + k);
  }

  lemma {:induction false} ShrTwice(x: int, a: nat, b: nat)
    ensures Shr(Shr(x, a), b) == Shr(x, a + b)
    decreases a
  {
    if a != 0 {
      ShrTwice(x / 2, a - 1, b);
    }
  }

  lemma HeaderLayout(startTime: nat, i: nat)
    requires i < 8
    ensures |Header(startTime)| == 8 && Header(startTime)[i] == (startTime / Pow2(8 * i)) % 256
  {
    HeaderIs(startTime);
    hide *;
    LeBytesAt(startTime, 8, i);
  }
}
