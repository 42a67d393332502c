/**
 The in-process stand-in for the message ring (ipc/test_queue.cc, ipc/test_queue.h): one buffer with the
 newest message, a counter, and a table of what each instance has received, all under one mutex. It
 keeps the same lossy broadcast contract as the ring, over the life of one entry of the queue table
 (first constructor to last destructor) and without shutdown.
 */
module TestQueue {
  import opened Channel

  /** What an instance is inside of: nothing, a receive, or a send that made message `number`. */
  datatype Phase = Idle | Receiving | Sending(number: nat)

  datatype Instance = Instance(alive: bool, lastInc: nat, phase: Phase)

  /** QueueData (counter, buffer, users) and the instances that use it. */
  datatype System = System(maxSize: nat, inc: nat, data: Msg, users: seq<int>, insts: seq<Instance>)

  datatype Event =
    | Construct
    | Destroy(i: nat)
    | StartSend(i: nat, msg: Msg)        // up to the wait for readers
    | FinishSend(i: nat)                 // the wait ends because its predicate holds
    | GiveUpSend(i: nat)                 // the wait times out
    | StartReceive(i: nat)               // up to the wait for a message
    | FinishReceive(i: nat, size: nat)   // the counter has moved: copy the message out

  /** The predicate send waits for: no registered reader is behind the counter. */
  predicate CaughtUp(users: seq<int>, inc: int) {
    forall k :: 0 <= k < |users| ==> !(users[k] >= 0 && users[k] < inc)
  }

  predicate Live(s: System, i: nat) {
    i < |s.insts| && s.insts[i].alive
  }

  predicate Enabled(s: System, e: Event) {
    |s.users| == |s.insts| &&
    match e
    case Construct => true
    case Destroy(i) => Live(s, i) && s.insts[i].phase.Idle?
    case StartSend(i, m) => Live(s, i) && s.insts[i].phase.Idle?
    case FinishSend(i) => Live(s, i) && s.insts[i].phase.Sending? && CaughtUp(s.users, s.inc)
    case GiveUpSend(i) => Live(s, i) && s.insts[i].phase.Sending?
    case StartReceive(i) => Live(s, i) && s.insts[i].phase.Idle?
    case FinishReceive(i, n) => Live(s, i) && s.insts[i].phase.Receiving? && s.inc != s.insts[i].lastInc
  }

  function SetPhase(s: System, i: nat, p: Phase): System
    requires i < |s.insts|
  {
    s.(insts := s.insts[i := s.insts[i].(phase := p)])
  }

  function Apply(s: System, e: Event): System
    requires Enabled(s, e)
  {
    match e
    case Construct => s.(users := s.users + [-1], insts := s.insts + [Instance(true, 0, Idle)])
    case Destroy(i) => s.(users := s.users[i := -1], insts := s.insts[i := s.insts[i].(alive := false)])
    case StartSend(i, m) => SetPhase(s, i, Sending(s.inc + 1)).(inc := s.inc + 1, data := Cut(m, s.maxSize))
    case FinishSend(i) => SetPhase(s, i, Idle)
    case GiveUpSend(i) => SetPhase(s, i, Idle)
    case StartReceive(i) =>
      SetPhase(s, i, Receiving).(users := if s.insts[i].lastInc == 0 then s.users[i := 0] else s.users)
    case FinishReceive(i, n) =>
      s.(users := s.users[i := s.inc], insts := s.insts[i := Instance(true, s.inc, Idle)])
  }

  /** What a step means for the channel. */
  function LabelOf(s: System, e: Event): Label {
    match e
    case Construct => Subscribe
    case StartSend(i, m) => Publish(Cut(m, s.maxSize))
    case FinishReceive(i, n) => Deliver(i, s.inc, n, Cut(s.data, n))
    case _ => Silent
  }

  // ---------------------------------------------------------------- the invariant

  /** The table entry of a live instance is the number it last received, or -1 if it never tried. */
  predicate InstanceOk(inst: Instance, user: int, last: nat, inc: nat) {
    && inst.lastInc == last <= inc
    && (inst.alive ==> user == last || (user == -1 && last == 0))
    && (!inst.alive ==> user == -1)
    && (inst.phase.Receiving? ==> user == last)
    && (inst.phase.Sending? ==> 0 < inst.phase.number <= inc)
  }

  predicate Related(s: System, c: Channel) {
    && |s.users| == |s.insts| == |c.last| && s.inc == |c.log|
    && (s.inc > 0 ==> s.data == c.log[s.inc - 1])
    && forall i :: 0 <= i < |s.insts| ==> InstanceOk(s.insts[i], s.users[i], c.last[i], s.inc)
  }

  /** Every step is a step of the channel: what a reader gets is the newest message, under a number
      strictly larger than the one it had. */
  lemma StepRefines(s: System, c: Channel, e: Event)
    requires Related(s, c) && Enabled(s, e)
    ensures Related(Apply(s, e), Track(c, LabelOf(s, e)))
    ensures Next(c, LabelOf(s, e), Track(c, LabelOf(s, e)))
  {
    if !e.Construct? {
      assert InstanceOk(s.insts[e.i], s.users[e.i], c.last[e.i], s.inc);
    }
  }

  /** When send comes back through its predicate, every live reader that has ever asked for a message
      has had one at least as new as the message sent. */
  lemma SendReachesReaders(s: System, c: Channel, i: nat, j: nat)
    requires Related(s, c) && Enabled(s, FinishSend(i))
    requires Live(s, j) && s.users[j] >= 0
    ensures s.insts[i].phase.number <= c.last[j]
  {
    assert InstanceOk(s.insts[i], s.users[i], c.last[i], s.inc);
    assert InstanceOk(s.insts[j], s.users[j], c.last[j], s.inc);
  }

  /** A reader inside receive is registered, so send waits for it. */
  lemma WaitingReaderIsRegistered(s: System, c: Channel, j: nat)
    requires Related(s, c) && Live(s, j) && (s.insts[j].phase.Receiving? || c.last[j] > 0)
    ensures s.users[j] >= 0
  {
    assert InstanceOk(s.insts[j], s.users[j], c.last[j], s.inc);
  }

  // ---------------------------------------------------------------- whole runs

  function SystemAfter(s0: System, es: seq<Event>): System {
    if es == [] then s0
    else
      var s, e := SystemAfter(s0, es[..|es| - 1]), es[|es| - 1];
      if Enabled(s, e) then Apply(s, e) else s
  }

  predicate ValidRun(s0: System, es: seq<Event>) {
    es == [] || (ValidRun(s0, es[..|es| - 1]) && Enabled(SystemAfter(s0, es[..|es| - 1]), es[|es| - 1]))
  }

  predicate Fresh(s: System) {
    s.inc == 0 && s.users == [] && s.insts == []
  }

  function LabelAt(s0: System, es: seq<Event>, i: nat): Label
    requires i < |es|
  {
    LabelOf(SystemAfter(s0, es[..i]), es[i])
  }

  /** A run of the test queue is a run of the lossy broadcast channel. */
  lemma {:induction false} TestQueueIsChannel(s0: System, es: seq<Event>) returns (cs: seq<Channel>, ls: seq<Label>)
    requires Fresh(s0) && ValidRun(s0, es)
    ensures |ls| == |es| && |cs| == |es| + 1 && Run(cs, ls) && cs[0] == Channel([], [])
    ensures Related(SystemAfter(s0, es), cs[|es|])
    ensures forall i :: 0 <= i < |es| ==> ls[i] == LabelAt(s0, es, i)
    decreases |es|
  {
    if es == [] {
      cs, ls := [Channel([], [])], [];
    } else {
      RunStep(s0, es);
      hide *;
      var front, e := es[..|es| - 1], es[|es| - 1];
      cs, ls := TestQueueIsChannel(s0, front);
      var s, c := SystemAfter(s0, front), cs[|front|];
      StepRefines(s, c, e);
      var l := LabelOf(s, e);
      RunExtend(cs, ls, l, Track(c, l));
      cs, ls := cs + [Track(c, l)], ls + [l];
      forall i | 0 <= i < |es|
        ensures ls[i] == LabelAt(s0, es, i)
      {
        LabelPrefix(s0, es, i);
      }
    }
  }

  lemma RunStep(s0: System, es: seq<Event>)
    requires ValidRun(s0, es) && es != []
    ensures var s := SystemAfter(s0, es[..|es| - 1]);
            && ValidRun(s0, es[..|es| - 1])
            && Enabled(s, es[|es| - 1])
            && SystemAfter(s0, es) == Apply(s, es[|es| - 1])
  {
  }

  lemma LabelPrefix(s0: System, es: seq<Event>, i: nat)
    requires i < |es|
    ensures i == |es| - 1 ==> LabelAt(s0, es, i) == LabelOf(SystemAfter(s0, es[..|es| - 1]), es[|es| - 1])
    ensures i < |es| - 1 ==> LabelAt(s0, es, i) == LabelAt(s0, es[..|es| - 1], i)
  {
    if i < |es| - 1 {
      assert es[..|es| - 1][..i] == es[..i];
    }
  }
}
