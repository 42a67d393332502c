/**
 One client thread's view of the simulated clock, read off a run: the calls of SleepUntil it made since
 it joined, with the times it read before and after each.
 */
module ClockView {
  import opened FakeClock
  import opened ClockInvariant
  import opened ClockRuns

  /** A completed SleepUntil(deadline): called at time `issued`, came back at time `returned`. */
  datatype Call = Call(issued: int, deadline: int, returned: int)

  datatype Pending = NotWaiting | Since(issued: int, deadline: int)

  datatype View = View(start: int, calls: seq<Call>, pending: Pending)

  function Max(a: int, b: int): int {
    if a < b then b else a
  }

  /** The time a sequential observer reads after its calls. */
  function Now(start: int, calls: seq<Call>): int {
    if calls == [] then start else calls[|calls| - 1].returned
  }

  /** The specification: each call starts when the previous one ended and ends at the later of that
      moment and its deadline. */
  predicate Sequential(start: int, calls: seq<Call>) {
    calls == [] ||
    (var front, last := calls[..|calls| - 1], calls[|calls| - 1];
     && Sequential(start, front)
     && last.issued == Now(start, front)
     && last.returned == Max(last.issued, last.deadline))
  }

  /** How one event in state `s` extends the view of thread `t`. */
  function Observe(v: View, s: State, e: Event, t: nat): View {
    match e
    case Join(u) => if u == t then View(s.time, [], NotWaiting) else v
    case SleepPast(u, d) => if u == t then v.(calls := v.calls + [Call(s.time, d, s.time)]) else v
    case SleepFuture(u, d) => if u == t then v.(pending := Since(s.time, d)) else v
    case Check(u) =>
      if u == t && t < |s.threads| && s.threads[t].Checking? && s.threads[t].deadline <= s.time && v.pending.Since?
      then View(v.start, v.calls + [Call(v.pending.issued, v.pending.deadline, s.time)], NotWaiting)
      else v
    case _ => v
  }

  /** The view of thread `t` after a run. */
  function ViewOf(s0: State, es: seq<Event>, t: nat): View {
    if es == [] then View(s0.time, [], NotWaiting)
    else Observe(ViewOf(s0, es[..|es| - 1], t), After(s0, es[..|es| - 1]), es[|es| - 1], t)
  }

  /** A view agrees with the thread's status: a running thread reads the time its last call returned
      at; a sleeping thread waits for exactly the deadline it asked for. */
  predicate Faithful(v: View, th: Thread, time: int) {
    && (!th.Detached? ==> Sequential(v.start, v.calls))
    && (th.Running? ==> v.pending == NotWaiting && Now(v.start, v.calls) == time)
    && (th.Sleeping() ==> v.pending == Since(Now(v.start, v.calls), th.deadline)
                          && th.deadline > Now(v.start, v.calls))
  }

  lemma SequentialAppend(start: int, calls: seq<Call>, c: Call)
    requires Sequential(start, calls) && c.issued == Now(start, calls)
    requires c.returned == Max(c.issued, c.deadline)
    ensures Sequential(start, calls + [c]) && Now(start, calls + [c]) == c.returned
  {
    assert (calls + [c])[..|calls|] == calls;
  }

  /** The deadlines a thread slept for. */
  function Asked(calls: seq<Call>): (ds: seq<int>)
    ensures |ds| == |calls|
  {
    seq(|calls|, k requires 0 <= k < |calls| => calls[k].deadline)
  }

  /** A sequential clock leaves no freedom: what a thread asks for determines what it is told. */
  lemma {:induction false} AskedDetermines(start: int, a: seq<Call>, b: seq<Call>)
    requires Sequential(start, a) && Sequential(start, b) && Asked(a) == Asked(b)
    ensures a == b
    decreases |a|
  {
    assert |a| == |Asked(a)| == |Asked(b)| == |b|;
    if a != [] {
      var n := |a| - 1;
      assert Asked(a[..n]) == Asked(a)[..n] == Asked(b[..n]);
      AskedDetermines(start, a[..n], b[..n]);
      assert Asked(a)[n] == a[n].deadline && Asked(b)[n] == b[n].deadline;
      assert a[n] == b[n];
      assert a == a[..n] + [a[n]] && b == b[..n] + [b[n]];
    }
  }

  /** What an event of another thread, or of the manager, does to thread `t`: at most notify it. */
  lemma OthersOnlyNotify(s: State, e: Event, t: nat)
    requires Enabled(s, e) && t < |s.threads|
    requires e.Pass? || e.Acquire? || e.Release? || e.t != t
    ensures var th := Apply(s, e).threads[t];
            th == s.threads[t] || (s.threads[t].Asleep? && th == Asleep(s.threads[t].deadline, true))
  {
  }

  lemma OtherStep(s: State, e: Event, t: nat, v: View)
    requires Inv(s) && Enabled(s, e) && t < |s.threads|
    requires e.Pass? || e.Acquire? || e.Release? || e.t != t
    requires Faithful(v, s.threads[t], s.time)
    ensures Observe(v, s, e, t) == v
    ensures Faithful(v, Apply(s, e).threads[t], Apply(s, e).time)
  {
    OthersOnlyNotify(s, e, t);
    if s.threads[t].Running? {
      HeldMeansStill(s, e, t);
    }
  }

  lemma OwnStep(s: State, e: Event, t: nat, v: View)
    requires Inv(s) && Enabled(s, e) && t < |s.threads| && !e.Pass? && !e.Acquire? && !e.Release? && e.t == t
    requires Faithful(v, s.threads[t], s.time)
    ensures Faithful(Observe(v, s, e, t), Apply(s, e).threads[t], Apply(s, e).time)
  {
    match e
    case SleepPast(_, d) =>
      SequentialAppend(v.start, v.calls, Call(s.time, d, s.time));
    case Check(_) =>
      if s.threads[t].deadline <= s.time {
        WokenOnTime(s, t);
        SequentialAppend(v.start, v.calls, Call(v.pending.issued, v.pending.deadline, s.time));
      }
    case _ =>
  }

  /** In every run, whatever the other threads and the scheduler do, every thread's view is that of a
      sequential clock: the fake clock is indistinguishable from one that jumps on SleepUntil. */
  lemma {:induction false} ThreadSeesSequentialClock(s0: State, es: seq<Event>, t: nat)
    requires Init(s0) && ValidRun(s0, es) && t < |s0.threads|
    ensures |After(s0, es).threads| == |s0.threads|
    ensures Faithful(ViewOf(s0, es, t), After(s0, es).threads[t], After(s0, es).time)
    decreases |es|
  {
    InitEstablishes(s0);
    Reachable(s0, es);
    if es != [] {
      var front, e := es[..|es| - 1], es[|es| - 1];
      var s, v := After(s0, front), ViewOf(s0, front, t);
      RunStep(s0, es);
      Reachable(s0, front);
      ThreadSeesSequentialClock(s0, front, t);
      assert ViewOf(s0, es, t) == Observe(v, s, e, t);
      hide *;
      if e.Pass? || e.Acquire? || e.Release? || e.t != t {
        OtherStep(s, e, t, v);
      } else {
        OwnStep(s, e, t, v);
      }
    }
  }

  lemma {:induction false} SequentialPrefix(start: int, calls: seq<Call>, n: nat)
    requires Sequential(start, calls) && n <= |calls|
    ensures Sequential(start, calls[..n])
    decreases |calls|
  {
    if n == |calls| {
      assert calls[..n] == calls;
    } else {
      var front := calls[..|calls| - 1];
      SequentialPrefix(start, front, n);
      assert front[..n] == calls[..n];
    }
  }

  /** So a program can be studied on a sequential clock of its own. If it makes the calls `calls` there, and a
      thread of the fake clock that started at the same time has so far slept for the same deadlines, then in
      every run that thread has been told exactly what the program was told. */
  lemma ThreadSeesWhatProgramSaw(s0: State, es: seq<Event>, t: nat, calls: seq<Call>)
    requires Init(s0) && ValidRun(s0, es) && t < |s0.threads| && |After(s0, es).threads| == |s0.threads|
    requires !After(s0, es).threads[t].Detached?
    requires Sequential(ViewOf(s0, es, t).start, calls) && Asked(ViewOf(s0, es, t).calls) <= Asked(calls)
    ensures ViewOf(s0, es, t).calls <= calls
  {
    var v := ViewOf(s0, es, t);
    var n := |v.calls|;
    ThreadSeesSequentialClock(s0, es, t);
    assert n == |Asked(v.calls)| <= |Asked(calls)| == |calls|;
    assert Asked(calls[..n]) == Asked(calls)[..n] == Asked(v.calls);
    hide ViewOf, After, ValidRun, Init, Sequential, Asked;
    SequentialPrefix(v.start, calls, n);
    AskedDetermines(v.start, v.calls, calls[..n]);
  }

  /** Whenever everyone sleeps and the manager is idle, five more steps wake a sleeper with the earliest
      deadline, at that deadline: the clock cannot get stuck. */
  lemma Progress(s: State) returns (t: nat, es: seq<Event>)
    requires Inv(s) && s.manager.Waiting? && NoHolders(s.threads) && s.wakeups != multiset{}
    ensures t < |s.threads| && s.threads[t].Asleep? && s.threads[t].deadline == Min(s.wakeups)
    ensures |es| == 5 && ValidRun(s, es)
    ensures After(s, es) == State(Min(s.wakeups), s.wakeups - multiset{Min(s.wakeups)},
                                  NotifyAll(s.threads)[t := Running], Waiting)
  {
    t := EarliestSleeper(s);
    var m := Min(s.wakeups);
    es := [];
    var s1 := s.(manager := Holding);
    var s2 := State(m, s.wakeups, NotifyAll(s.threads), Passed);
    var s3 := s2.(manager := Waiting);
    var s4 := s3.(threads := s3.threads[t := Checking(m)]);
    var s5 := State(m, s.wakeups - multiset{m}, s3.threads[t := Running], Waiting);
    ManagerRound(s);
    WakeRound(s3, t);
    assert ValidRun(s, []) && After(s, []) == s;
    hide *;
    es := Extend(s, es, Acquire, s1);
    es := Extend(s, es, Pass, s2);
    es := Extend(s, es, Release, s3);
    es := Extend(s, es, Reacquire(t), s4);
    es := Extend(s, es, Check(t), s5);
  }

  lemma EarliestSleeper(s: State) returns (t: nat)
    requires Inv(s) && NoHolders(s.threads) && s.wakeups != multiset{}
    ensures t < |s.threads| && s.threads[t].Asleep? && s.threads[t].deadline == Min(s.wakeups) >= s.time
  {
    t := DeadlineOwner(s.threads, Min(s.wakeups));
    NoneInPast(s);
  }

  lemma ManagerRound(s: State)
    requires s.manager.Waiting? && NoHolders(s.threads) && s.wakeups != multiset{} && Min(s.wakeups) >= s.time
    ensures Enabled(s, Acquire)
    ensures var s1 := Apply(s, Acquire);
            && s1 == s.(manager := Holding) && Enabled(s1, Pass)
            && var s2 := Apply(s1, Pass);
            && s2 == State(Min(s.wakeups), s.wakeups, NotifyAll(s.threads), Passed) && Enabled(s2, Release)
            && Apply(s2, Release) == s2.(manager := Waiting)
  {
  }

  lemma WakeRound(s: State, t: nat)
    requires s.manager.Waiting? && t < |s.threads| && s.threads[t] == Asleep(s.time, true)
    requires s.wakeups != multiset{} && Min(s.wakeups) == s.time
    ensures Enabled(s, Reacquire(t))
    ensures var s1 := Apply(s, Reacquire(t));
            && s1 == s.(threads := s.threads[t := Checking(s.time)]) && Enabled(s1, Check(t))
            && Apply(s1, Check(t)) == State(s.time, s.wakeups - multiset{s.time}, s.threads[t := Running], Waiting)
  {
    assert s.threads[t := Checking(s.time)][t := Running] == s.threads[t := Running];
  }

  lemma Extend(s0: State, es: seq<Event>, e: Event, s: State) returns (es': seq<Event>)
    requires ValidRun(s0, es) && Enabled(After(s0, es), e) && Apply(After(s0, es), e) == s
    ensures es' == es + [e] && ValidRun(s0, es') && After(s0, es') == s
  {
    es' := es + [e];
    assert es'[..|es|] == es;
  }
}
