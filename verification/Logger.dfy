/**
 The handler threads of the logger (util/logger.cc), interleaved in any way: each receives messages from
 its own queue and appends records to the one output stream under the output lock.
 */
module Logger {
  import opened Bits
  import opened LogFile

  /** Where a handler is in its loop: receiving, or holding a message it has not finished writing. */
  datatype Phase = Receiving | Holding(msg: Msg)

  datatype Handler = Handler(phase: Phase, received: seq<Msg>)

  /** out_lock_; its holder may have written the length but not yet the message. */
  datatype Lock = Open | Held(holder: nat, halfway: bool)

  /** A record in the file, and the handler that wrote it. */
  datatype Entry = Entry(writer: nat, msg: Msg)

  datatype State = State(out: seq<Byte>, lock: Lock, handlers: seq<Handler>, written: seq<Entry>)

  datatype Event =
    | Receive(h: nat, msg: Msg)   // q.receive returns true, into a buffer of MAX_BUF bytes
    | Take(h: nat)                // out_lock_ is taken
    | WriteLength(h: nat)
    | WriteBody(h: nat)           // and the lock is released

  predicate Enabled(s: State, e: Event) {
    e.h < |s.handlers| &&
    match e
    case Receive(h, m) => s.handlers[h].phase.Receiving? && |m| <= 1024
    case Take(h) => s.handlers[h].phase.Holding? && s.lock.Open?
    case WriteLength(h) => s.handlers[h].phase.Holding? && s.lock == Held(h, false)
    case WriteBody(h) => s.handlers[h].phase.Holding? && s.lock == Held(h, true)
  }

  function Apply(s: State, e: Event): State
    requires Enabled(s, e)
  {
    var x := s.handlers[e.h];
    match e
    case Receive(h, m) => s.(handlers := s.handlers[h := Handler(Holding(m), x.received + [m])])
    case Take(h) => s.(lock := Held(h, false))
    case WriteLength(h) => s.(out := s.out + LeBytes(|x.phase.msg|, 2), lock := Held(h, true))
    case WriteBody(h) =>
      State(s.out + x.phase.msg, Open, s.handlers[h := x.(phase := Receiving)], s.written + [Entry(h, x.phase.msg)])
  }

  /** The logger's output stream. One turn of RunLogHandler under the lock appends one record. */
  class LogWriter {
    var out: seq<Byte>

    constructor (startTime: nat)
      ensures out == Header(startTime)
    {
      out := LeBytes(startTime, 8);
    }

    method WriteRecord(buf: Msg)
      modifies this
      ensures out == old(out) + Record(buf)
    {
      hide LeBytes;
      var n := LeBytes(|buf|, 2);
      out := out + n;
      out := out + buf;
    }
  }

  // ---------------------------------------------------------------- what the file holds

  function Msgs(es: seq<Entry>): (ms: seq<Msg>)
    ensures |ms| == |es|
  {
    seq(|es|, i requires 0 <= i < |es| => es[i].msg)
  }

  /** The messages one handler has written, in file order. */
  function Of(es: seq<Entry>, h: nat): seq<Msg> {
    if es == [] then []
    else
      var front, last := Of(es[..|es| - 1], h), es[|es| - 1];
      if last.writer == h then front + [last.msg] else front
  }

  function InFlight(p: Phase): seq<Msg> {
    if p.Receiving? then [] else [p.msg]
  }

  /** A handler has written, in the order it received them, all its messages but the one in hand. */
  predicate HandlerOk(x: Handler, h: nat, es: seq<Entry>) {
    x.received == Of(es, h) + InFlight(x.phase) && (x.phase.Holding? ==> |x.phase.msg| <= 1024)
  }

  /** The bytes of a record that has been started. */
  function Started(s: State): seq<Byte> {
    if s.lock.Held? && s.lock.halfway && s.lock.holder < |s.handlers| && s.handlers[s.lock.holder].phase.Holding?
    then LeBytes(|s.handlers[s.lock.holder].phase.msg|, 2) else []
  }

  /** The file is the header, whole records, and at most the length of one more. */
  predicate Inv(s: State, header: seq<Byte>) {
    && s.out == header + Records(Msgs(s.written)) + Started(s)
    && (forall h :: 0 <= h < |s.handlers| ==> HandlerOk(s.handlers[h], h, s.written))
    && (forall i :: 0 <= i < |s.written| ==> |s.written[i].msg| <= 1024)
    && (s.lock.Held? ==> s.lock.holder < |s.handlers| && s.handlers[s.lock.holder].phase.Holding?)
  }

  predicate Init(s: State, header: seq<Byte>) {
    && s.out == header && s.lock == Open && s.written == []
    && forall h :: 0 <= h < |s.handlers| ==> s.handlers[h] == Handler(Receiving, [])
  }

  lemma OfAppend(es: seq<Entry>, e: Entry, h: nat)
    ensures Of(es + [e], h) == Of(es, h) + if e.writer == h then [e.msg] else []
  {
    assert (es + [e])[..|es|] == es;
  }

  lemma MsgsAppend(es: seq<Entry>, e: Entry)
    ensures Msgs(es + [e]) == Msgs(es) + [e.msg]
  {
  }

  lemma ReceiveKeeps(s: State, header: seq<Byte>, e: Event)
    requires Inv(s, header) && Enabled(s, e) && e.Receive?
    ensures Inv(Apply(s, e), header)
  {
    hide Records, Msgs, Of;
    assert HandlerOk(s.handlers[e.h], e.h, s.written);
  }

  lemma LockKeeps(s: State, header: seq<Byte>, e: Event)
    requires Inv(s, header) && Enabled(s, e) && (e.Take? || e.WriteLength?)
    ensures Inv(Apply(s, e), header)
  {
    hide Records, Msgs, Of, LeBytes;
    var base := header + Records(Msgs(s.written));
    assert base + [] == base;
  }

  lemma BodyKeeps(s: State, header: seq<Byte>, e: Event)
    requires Inv(s, header) && Enabled(s, e) && e.WriteBody?
    ensures Inv(Apply(s, e), header)
  {
    var m := s.handlers[e.h].phase.msg;
    var s' := Apply(s, e);
    assert s'.out == header + Records(Msgs(s.written)) + LeBytes(|m|, 2) + m;
    HandlersAfter(s, header, e);
    assert s'.written == s.written + [Entry(e.h, m)] && s'.lock == Open && |m| <= 1024;
    MsgsAppend(s.written, Entry(e.h, m));
    RecordsAppend(Msgs(s.written), m);
    RecordIs(m);
    assert forall i :: 0 <= i < |s.written| ==> |s.written[i].msg| <= 1024;
    hide Records, Msgs, LeBytes, Of, Record, HandlerOk, Apply, Enabled;
    BytesAssoc(header, Records(Msgs(s.written)), LeBytes(|m|, 2), m);
  }

  lemma HandlersAfter(s: State, header: seq<Byte>, e: Event)
    requires Inv(s, header) && Enabled(s, e) && e.WriteBody?
    ensures |s.handlers[e.h].phase.msg| <= 1024
    ensures var s' := Apply(s, e);
            forall h :: 0 <= h < |s'.handlers| ==> HandlerOk(s'.handlers[h], h, s'.written)
  {
    var s', entry := Apply(s, e), Entry(e.h, s.handlers[e.h].phase.msg);
    hide Records, Msgs, LeBytes, Of;
    assert HandlerOk(s.handlers[e.h], e.h, s.written);
    forall h | 0 <= h < |s'.handlers|
      ensures HandlerOk(s'.handlers[h], h, s'.written)
    {
      assert HandlerOk(s.handlers[h], h, s.written);
      OfAppend(s.written, entry, h);
    }
  }

  lemma BytesAssoc(a: seq<Byte>, b: seq<Byte>, c: seq<Byte>, d: seq<Byte>)
    ensures (a + b + c) + d == a + (b + (c + d)) + []
  {
  }

  // ---------------------------------------------------------------- whole runs

  function After(s0: State, es: seq<Event>): State {
    if es == [] then s0
    else
      var s := After(s0, es[..|es| - 1]);
      if Enabled(s, es[|es| - 1]) then Apply(s, es[|es| - 1]) else s
  }

  lemma {:induction false} Reachable(s0: State, header: seq<Byte>, es: seq<Event>)
    requires Init(s0, header)
    ensures Inv(After(s0, es), header)
    decreases |es|
  {
    if es == [] {
      assert Records(Msgs(s0.written)) == [];
    } else {
      Reachable(s0, header, es[..|es| - 1]);
      var s, e := After(s0, es[..|es| - 1]), es[|es| - 1];
      hide Inv, Init, Apply;
      if Enabled(s, e) {
        match e
        case Receive(_, _) => ReceiveKeeps(s, header, e);
        case Take(_) => LockKeeps(s, header, e);
        case WriteLength(_) => LockKeeps(s, header, e);
        case WriteBody(_) => BodyKeeps(s, header, e);
      }
    }
  }

  /** The messages of all records begun: those written, and the one whose length is written. */
  function Begun(s: State): seq<Msg> {
    Msgs(s.written) +
    if s.lock.Held? && s.lock.halfway && s.lock.holder < |s.handlers| then InFlight(s.handlers[s.lock.holder].phase) else []
  }

  lemma FileIsPrefix(s: State, header: seq<Byte>)
    requires Inv(s, header)
    ensures header <= s.out <= header + Records(Begun(s))
  {
    var ms := Msgs(s.written);
    if s.lock.Held? && s.lock.halfway {
      var m := s.handlers[s.lock.holder].phase.msg;
      RecordsAppend(ms, m);
      RecordIs(m);
      hide Records, Msgs, LeBytes, Record;
      BytesPrefix(header, Records(ms), LeBytes(|m|, 2), m);
    } else {
      hide Records, Msgs;
      assert Begun(s) == ms;
    }
  }

  lemma RecordIs(m: Msg)
    ensures Record(m) == LeBytes(|m|, 2) + m
  {
  }

  lemma BytesPrefix(a: seq<Byte>, b: seq<Byte>, c: seq<Byte>, d: seq<Byte>)
    ensures a <= a + b + c <= a + (b + (c + d))
  {
    assert a + (b + (c + d)) == (a + b + c) + d;
  }

  /** At any moment of any run, and cut off anywhere after the header, the file reads back as the longest
      prefix of the records begun that survived whole, as long as no message fills the buffer. */
  lemma LogReadsBack(s0: State, header: seq<Byte>, es: seq<Event>, k: nat)
    requires Init(s0, header) && |header| <= k <= |After(s0, es).out| && AllShort(Begun(After(s0, es)))
    ensures var s := After(s0, es);
      ReadAll(s.out[|header|..k]) == Contents(Begun(s)[..WholeIn(Begun(s), k - |header|)], true)
  {
    hide *;
    Reachable(s0, header, es);
    var s := After(s0, es);
    FileIsPrefix(s, header);
    CutPrefix(s.out, header, Records(Begun(s)), k);
    TruncatedRead(Begun(s), k - |header|);
  }

  lemma CutPrefix(out: seq<Byte>, header: seq<Byte>, records: seq<Byte>, k: nat)
    requires out <= header + records && |header| <= k <= |out|
    ensures k - |header| <= |records| && out[|header|..k] == records[..k - |header|]
  {
  }

  /** The records of each queue are the messages its handler received, in order, but for one in hand. */
  lemma QueueOrderKept(s0: State, header: seq<Byte>, es: seq<Event>, h: nat)
    requires Init(s0, header) && h < |After(s0, es).handlers|
    ensures var s := After(s0, es);
      Of(s.written, h) + InFlight(s.handlers[h].phase) == s.handlers[h].received
  {
    Reachable(s0, header, es);
    assert HandlerOk(After(s0, es).handlers[h], h, After(s0, es).written);
  }
}
