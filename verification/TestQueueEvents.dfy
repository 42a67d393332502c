/**
 The state of the in-process queue, said of the events of a run alone, and what its blocking send achieves
 in those terms.
 */
module TestQueueEvents {
  import opened Channel
  import opened TestQueue

  /** Messages sent so far: the number of the newest. */
  function SendCount(es: seq<Event>): nat {
    if es == [] then 0 else SendCount(es[..|es| - 1]) + if es[|es| - 1].StartSend? then 1 else 0
  }

  function Made(es: seq<Event>): nat {
    if es == [] then 0 else Made(es[..|es| - 1]) + if es[|es| - 1].Construct? then 1 else 0
  }

  /** The number of the message instance i received last: the newest at that moment. */
  function LastGot(es: seq<Event>, i: nat): nat {
    if es == [] then 0
    else
      var front, e := es[..|es| - 1], es[|es| - 1];
      if e.FinishReceive? && e.i == i then SendCount(front) else LastGot(front, i)
  }

  /** What instance i is inside of. */
  function PhaseOf(es: seq<Event>, i: nat): Phase {
    if es == [] then Idle
    else
      var front, e := es[..|es| - 1], es[|es| - 1];
      if e.Construct? || e.i != i then PhaseOf(front, i)
      else
        match e
        case StartSend(_, _) => Sending(SendCount(es))
        case StartReceive(_) => Receiving
        case Destroy(_) => PhaseOf(front, i)
        case _ => Idle
  }

  /** The instance's entry in the users table: -1 unless it is alive and has asked for a message. */
  function UserOf(es: seq<Event>, i: nat): int {
    if Destroy(i) in es || StartReceive(i) !in es then -1 else LastGot(es, i)
  }

  function InstanceOf(es: seq<Event>, i: nat): Instance {
    Instance(Destroy(i) !in es, LastGot(es, i), PhaseOf(es, i))
  }

  /** An instance that has not been made has done nothing. */
  predicate Untouched(es: seq<Event>, i: nat) {
    Destroy(i) !in es && StartReceive(i) !in es && LastGot(es, i) == 0 && PhaseOf(es, i) == Idle
  }

  /** The newest message sent, cut to the queue's size. */
  predicate Newest(es: seq<Event>, maxSize: nat, data: Msg) {
    es != [] &&
    (var e := es[|es| - 1];
     if e.StartSend? then data == Cut(e.msg, maxSize) else Newest(es[..|es| - 1], maxSize, data))
  }

  /** The state is the one the events tell. */
  predicate Told(s: System, es: seq<Event>) {
    && s.inc == SendCount(es) && |s.insts| == |s.users| == Made(es)
    && (s.inc > 0 ==> Newest(es, s.maxSize, s.data))
    && forall i :: 0 <= i < Made(es) ==> ToldOf(s, es, i)
  }

  predicate ToldOf(s: System, es: seq<Event>, i: nat) {
    && i < |s.insts| == |s.users|
    && s.insts[i] == InstanceOf(es, i) && s.users[i] == UserOf(es, i)
    && (PhaseOf(es, i).Receiving? || LastGot(es, i) > 0 ==> StartReceive(i) in es)
  }

  lemma CountStep(es: seq<Event>, e: Event)
    ensures SendCount(es + [e]) == SendCount(es) + if e.StartSend? then 1 else 0
    ensures Made(es + [e]) == Made(es) + if e.Construct? then 1 else 0
  {
    assert (es + [e])[..|es|] == es;
  }

  /** What one more event means for instance i. */
  lemma OneStep(es: seq<Event>, e: Event, i: nat)
    ensures var es' := es + [e];
      && LastGot(es', i) == (if e.FinishReceive? && e.i == i then SendCount(es) else LastGot(es, i))
      && (Destroy(i) in es' <==> Destroy(i) in es || e == Destroy(i))
      && (StartReceive(i) in es' <==> StartReceive(i) in es || e == StartReceive(i))
      && PhaseOf(es', i) == (if e.Construct? || e.i != i || e.Destroy? then PhaseOf(es, i)
                             else if e.StartSend? then Sending(SendCount(es) + 1)
                             else if e.StartReceive? then Receiving else Idle)
  {
    CountStep(es, e);
    assert (es + [e])[..|es|] == es;
  }

  lemma ToldStep(s: System, e: Event, es: seq<Event>, i: nat)
    requires Enabled(s, e) && s.inc == SendCount(es) && |s.insts| == |s.users| == Made(es)
    requires i < Made(es) ==> ToldOf(s, es, i)
    requires i >= Made(es) ==> Untouched(es, i)
    ensures i < Made(es + [e]) ==> ToldOf(Apply(s, e), es + [e], i)
    ensures i >= Made(es + [e]) ==> Untouched(es + [e], i)
  {
    CountStep(es, e);
    OneStep(es, e, i);
    hide SendCount, Made, LastGot, PhaseOf;
  }

  lemma NewestStep(es: seq<Event>, e: Event, maxSize: nat, data: Msg)
    ensures e.StartSend? ==> Newest(es + [e], maxSize, Cut(e.msg, maxSize))
    ensures !e.StartSend? && Newest(es, maxSize, data) ==> Newest(es + [e], maxSize, data)
  {
    assert (es + [e])[..|es|] == es;
  }

  lemma DataStep(s: System, e: Event)
    requires Enabled(s, e)
    ensures var s' := Apply(s, e);
      && s'.maxSize == s.maxSize && |s'.insts| == |s'.users| == |s.insts| + (if e.Construct? then 1 else 0)
      && s'.inc == s.inc + (if e.StartSend? then 1 else 0)
      && s'.data == if e.StartSend? then Cut(e.msg, s.maxSize) else s.data
  {
  }

  /** In every run the events determine the state: counter, buffer, users table and instances. */
  lemma {:induction false} EventsTell(s0: System, es: seq<Event>)
    requires Fresh(s0) && ValidRun(s0, es)
    ensures Told(SystemAfter(s0, es), es) && forall i: nat :: i >= Made(es) ==> Untouched(es, i)
    decreases |es|
  {
    if es != [] {
      var front, e := es[..|es| - 1], es[|es| - 1];
      RunStep(s0, es);
      EventsTell(s0, front);
      var s := SystemAfter(s0, front);
      assert es == front + [e];
      hide Apply, Enabled, SystemAfter, ValidRun, SendCount, Made, ToldOf, Untouched, Newest;
      forall i: nat
        ensures i < Made(es) ==> ToldOf(Apply(s, e), es, i)
        ensures i >= Made(es) ==> Untouched(es, i)
      {
        ToldStep(s, e, front, i);
      }
      CountStep(front, e);
      DataStep(s, e);
      NewestStep(front, e, s.maxSize, s.data);
    }
  }

  /** Send comes back through its predicate exactly when every instance that is alive and has asked for a
      message has received the newest; so each has received one at least as new as the message sent. */
  lemma SendReturnsExactly(s0: System, es: seq<Event>, i: nat)
    requires Fresh(s0) && ValidRun(s0, es)
    ensures Enabled(SystemAfter(s0, es), FinishSend(i)) <==>
      && i < Made(es) && Destroy(i) !in es && PhaseOf(es, i).Sending?
      && forall r: nat :: r < Made(es) && Destroy(r) !in es && StartReceive(r) in es ==> LastGot(es, r) >= SendCount(es)
  {
    EventsTell(s0, es);
    var s := SystemAfter(s0, es);
    hide SystemAfter, ValidRun, SendCount, Made, LastGot, PhaseOf, Newest;
    if i < Made(es) {
      assert ToldOf(s, es, i);
    }
    CaughtUpMeans(s, es);
  }

  lemma CaughtUpMeans(s: System, es: seq<Event>)
    requires Told(s, es)
    ensures CaughtUp(s.users, s.inc) <==>
      forall r: nat :: r < Made(es) && Destroy(r) !in es && StartReceive(r) in es ==> LastGot(es, r) >= SendCount(es)
  {
    hide SendCount, Made, LastGot, PhaseOf, Newest;
    if CaughtUp(s.users, s.inc) {
      forall r: nat | r < Made(es) && Destroy(r) !in es && StartReceive(r) in es
        ensures LastGot(es, r) >= SendCount(es)
      {
        assert ToldOf(s, es, r);
        assert !(s.users[r] >= 0 && s.users[r] < s.inc);
      }
    } else {
      var k :| 0 <= k < |s.users| && s.users[k] >= 0 && s.users[k] < s.inc;
      assert ToldOf(s, es, k);
    }
  }

  /** And the number of the message a send made is the number of sends up to it. */
  lemma SendReachesAskers(s0: System, es: seq<Event>, i: nat, r: nat)
    requires Fresh(s0) && ValidRun(s0, es) && Enabled(SystemAfter(s0, es), FinishSend(i))
    requires r < Made(es) && Destroy(r) !in es && StartReceive(r) in es
    ensures PhaseOf(es, i).Sending? && PhaseOf(es, i).number <= LastGot(es, r)
  {
    SendReturnsExactly(s0, es, i);
    hide SystemAfter, ValidRun, Enabled, Made;
    NumbersSoFar(es, i);
  }

  lemma {:induction false} NumbersSoFar(es: seq<Event>, i: nat)
    ensures PhaseOf(es, i).Sending? ==> PhaseOf(es, i).number <= SendCount(es)
    decreases |es|
  {
    if es != [] {
      NumbersSoFar(es[..|es| - 1], i);
    }
  }
}
