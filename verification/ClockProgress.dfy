/**
 The simulated clock makes progress. When every client is inside sleep_until, each step that does some
 work brings the return of an earliest sleeper nearer, whatever the order the steps are taken in, and there
 is always such a step to take. Steps that do no work are spurious wake-ups and extra rounds of the manager.
 */
module ClockProgress {
  import opened FakeClock
  import opened ClockInvariant
  import opened ClockRuns

  /** No client runs and some sleep; the manager is at work only to move time to the earliest deadline. */
  predicate Idle(s: State) {
    && Inv(s) && s.wakeups != multiset{}
    && (forall i :: 0 <= i < |s.threads| ==> !s.threads[i].Running?)
    && (s.manager.Holding? ==> s.time < Min(s.wakeups)) && (s.manager.Passed? ==> s.time == Min(s.wakeups))
  }

  /** A step that does some work. The manager's round does if time has not come to the earliest deadline. */
  predicate Works(s: State, e: Event) {
    e.Reacquire? || e.Check? || e.Pass? || e.Release?
    || (e.Acquire? && s.wakeups != multiset{} && s.time < Min(s.wakeups))
  }

  /** A sleeper returns, and it is one with the earliest deadline, at that deadline. */
  predicate Returns(s: State, e: Event) {
    && e.Check? && e.t < |s.threads| && s.threads[e.t].Checking? && s.wakeups != multiset{}
    && s.threads[e.t].deadline == Min(s.wakeups) == s.time
  }

  // ---------------------------------------------------------------- the rank

  /** The steps a sleeper may still take before it needs another notification. */
  function Effort(th: Thread): nat {
    if th.Asleep? && th.notified then 2 else if th.Checking? then 1 else 0
  }

  function Efforts(ts: seq<Thread>): (n: nat)
    ensures n <= 2 * |ts|
  {
    if ts == [] then 0 else Effort(ts[0]) + Efforts(ts[1..])
  }

  /** An upper bound on the working steps before an earliest sleeper returns. */
  function Rank(s: State): nat
    requires s.wakeups != multiset{}
  {
    Efforts(s.threads) +
    if s.time < Min(s.wakeups) then 2 * |s.threads| + (if s.manager.Waiting? then 3 else 2)
    else if s.manager.Waiting? then 0 else 1
  }

  lemma {:induction false} EffortsUpdate(ts: seq<Thread>, t: nat, th: Thread)
    requires t < |ts|
    ensures Efforts(ts[t := th]) + Effort(ts[t]) == Efforts(ts) + Effort(th)
    decreases t
  {
    if t == 0 {
      assert ts[t := th][1..] == ts[1..];
    } else {
      assert ts[t := th][1..] == ts[1..][t - 1 := th];
      EffortsUpdate(ts[1..], t - 1, th);
    }
    hide Effort;
  }

  lemma ReacquireWorks(s: State, t: nat)
    requires Idle(s) && Enabled(s, Reacquire(t))
    ensures Idle(Apply(s, Reacquire(t))) && Apply(s, Reacquire(t)).wakeups == s.wakeups
    ensures Rank(Apply(s, Reacquire(t))) < Rank(s)
  {
    ReacquireKeeps(s, t);
    EffortsUpdate(s.threads, t, Checking(s.threads[t].deadline));
    hide Inv, Efforts, Min;
  }

  lemma CheckWorks(s: State, t: nat)
    requires Idle(s) && Enabled(s, Check(t))
    ensures Returns(s, Check(t)) || Idle(Apply(s, Check(t)))
    ensures Returns(s, Check(t)) || Apply(s, Check(t)).wakeups == s.wakeups
    ensures Returns(s, Check(t)) || Rank(Apply(s, Check(t))) < Rank(s)
  {
    if s.threads[t].deadline <= s.time {
      WokenOnTime(s, t);
    } else {
      CheckKeeps(s, t);
      EffortsUpdate(s.threads, t, Asleep(s.threads[t].deadline, false));
    }
    hide Inv, Efforts, Min;
  }

  lemma ManagerWorks(s: State, e: Event)
    requires Idle(s) && Enabled(s, e) && Works(s, e) && (e.Acquire? || e.Pass? || e.Release?)
    ensures Idle(Apply(s, e)) && Apply(s, e).wakeups == s.wakeups && Rank(Apply(s, e)) < Rank(s)
  {
    StepKeepsInv(s, e);
    hide Inv, Efforts, Min, NoHolders;
  }

  /** Every working step brings the rank down, until an earliest sleeper returns. */
  lemma StepWorks(s: State, e: Event)
    requires Idle(s) && Enabled(s, e) && Works(s, e)
    ensures Returns(s, e) || (Idle(Apply(s, e)) && Apply(s, e).wakeups == s.wakeups && Rank(Apply(s, e)) < Rank(s))
  {
    hide Idle, Enabled, Apply, Returns, Rank;
    match e
    case Reacquire(t) => ReacquireWorks(s, t);
    case Check(t) => CheckWorks(s, t);
    case Acquire => ManagerWorks(s, e);
    case Pass => ManagerWorks(s, e);
    case Release => ManagerWorks(s, e);
  }

  /** And there is always one to take: the clock does not get stuck. */
  lemma NeverStuck(s: State) returns (e: Event)
    requires Idle(s)
    ensures Enabled(s, e) && Works(s, e)
  {
    if t: nat :| t < |s.threads| && s.threads[t].Checking? {
      e := Check(t);
    } else if s.manager.Holding? {
      e := Pass;
    } else if s.manager.Passed? {
      e := Release;
    } else if s.time < Min(s.wakeups) {
      e := Acquire;
    } else {
      var t := DeadlineOwner(s.threads, Min(s.wakeups));
      NoneInPast(s);
      assert ThreadOk(s.threads[t], s.time, false);
      e := Reacquire(t);
    }
    hide Min, Deadlines;
  }

  // ---------------------------------------------------------------- whole runs

  /** Every step of the run works. */
  predicate AllWork(s0: State, es: seq<Event>) {
    forall i :: 0 <= i < |es| ==> Works(After(s0, es[..i]), es[i])
  }

  /** Step i is the first return of a sleeper, at the earliest deadline there was at the start. */
  predicate ReturnsAt(s0: State, es: seq<Event>, i: nat)
    requires i < |es|
  {
    Returns(After(s0, es[..i]), es[i]) && After(s0, es[..i]).wakeups == s0.wakeups
  }

  lemma {:induction false} RankFalls(s0: State, es: seq<Event>)
    requires Idle(s0) && ValidRun(s0, es) && AllWork(s0, es)
    ensures (exists i :: 0 <= i < |es| && ReturnsAt(s0, es, i))
         || (Idle(After(s0, es)) && After(s0, es).wakeups == s0.wakeups && Rank(After(s0, es)) + |es| <= Rank(s0))
    decreases |es|
  {
    if es != [] {
      var n := |es| - 1;
      var front := es[..n];
      RunStep(s0, es);
      FrontWorks(s0, es);
      RankFalls(s0, front);
      assert Works(After(s0, es[..n]), es[n]);
      hide *;
      if i :| 0 <= i < n && ReturnsAt(s0, front, i) {
        SameReturn(s0, es, i);
      } else {
        StepWorks(After(s0, front), es[n]);
        ReturnsIs(s0, es, n);
      }
    } else {
      assert After(s0, es) == s0;
    }
  }

  lemma FrontWorks(s0: State, es: seq<Event>)
    requires es != [] && AllWork(s0, es)
    ensures AllWork(s0, es[..|es| - 1])
  {
    hide Works, After;
    var front := es[..|es| - 1];
    forall i | 0 <= i < |front|
      ensures Works(After(s0, front[..i]), front[i])
    {
      assert front[..i] == es[..i];
    }
  }

  lemma SameReturn(s0: State, es: seq<Event>, i: nat)
    requires es != [] && i < |es| - 1 && ReturnsAt(s0, es[..|es| - 1], i)
    ensures ReturnsAt(s0, es, i)
  {
    assert es[..|es| - 1][..i] == es[..i];
  }

  lemma ReturnsIs(s0: State, es: seq<Event>, i: nat)
    requires i < |es|
    ensures ReturnsAt(s0, es, i) <==> Returns(After(s0, es[..i]), es[i]) && After(s0, es[..i]).wakeups == s0.wakeups
  {
  }

  /** Whenever everyone sleeps: in any run of working steps longer than the rank, whichever they are, a sleeper
      with the earliest deadline has returned at exactly that deadline. */
  lemma ProgressBound(s0: State, es: seq<Event>)
    requires Idle(s0) && ValidRun(s0, es) && AllWork(s0, es) && |es| > Rank(s0)
    ensures exists i :: 0 <= i < |es| && ReturnsAt(s0, es, i)
  {
    hide *;
    RankFalls(s0, es);
  }
}
