/**
 Every step of the simulated clock keeps its invariant: the queue of pending wake-ups is exactly the
 bag of sleepers' deadlines, none of them in the past, and a sleeper nobody has notified sleeps on.
 */
module ClockInvariant {
  import opened FakeClock

  lemma InitEstablishes(s: State)
    requires Init(s)
    ensures Inv(s)
  {
    DeadlinesEmpty(s.threads);
  }

  /** Nothing in the queue is in the past, so set_wakeup's clean-up loop has nothing to do. */
  lemma DropPastNothing(s: multiset<int>, time: int)
    requires forall d :: d in s ==> d >= time
    ensures DropPast(s, time) == s
  {
  }

  /** A change of one thread's status changes the bag of deadlines by that thread's own entry. */
  lemma Swap(ts: seq<Thread>, t: nat, th: Thread)
    requires t < |ts|
    ensures Own(ts[t]) == Own(th) ==> Deadlines(ts[t := th]) == Deadlines(ts)
    ensures Own(ts[t]) == multiset{} ==> Deadlines(ts[t := th]) == Deadlines(ts) + Own(th)
    ensures Own(th) == multiset{} ==> Deadlines(ts[t := th]) == Deadlines(ts) - Own(ts[t])
  {
    DeadlinesUpdate(ts, t, th);
    Cancel(Deadlines(ts[t := th]), Own(ts[t]), Deadlines(ts), Own(th));
  }

  lemma Cancel(a: multiset<int>, b: multiset<int>, c: multiset<int>, d: multiset<int>)
    requires a + b == c + d
    ensures b == d ==> a == c
    ensures b == multiset{} ==> a == c + d
    ensures d == multiset{} ==> a == c - b
  {
    assert a == (c + d) - b;
  }

  /** A sleeper that finds its time come finds the clock at exactly its deadline and itself on top. */
  lemma WokenOnTime(s: State, t: nat)
    requires Inv(s) && t < |s.threads| && s.threads[t].Sleeping() && s.threads[t].deadline <= s.time
    ensures s.threads[t].deadline == s.time
    ensures s.wakeups != multiset{} && Min(s.wakeups) == s.time
    ensures PopIfTop(s.wakeups, s.threads[t].deadline) == s.wakeups - multiset{s.time}
  {
    DeadlineIn(s.threads, t);
    NoneInPast(s);
  }

  lemma CheckKeeps(s: State, t: nat)
    requires Inv(s) && Enabled(s, Check(t))
    ensures Inv(Apply(s, Check(t)))
    ensures Apply(s, Check(t)).time == s.time
  {
    if s.threads[t].deadline <= s.time {
      ReturnKeeps(s, t);
    } else {
      hide Deadlines;
      Swap(s.threads, t, Asleep(s.threads[t].deadline, false));
    }
  }

  lemma ReturnKeeps(s: State, t: nat)
    requires Inv(s) && t < |s.threads| && s.threads[t].Checking? && s.threads[t].deadline <= s.time
    ensures Inv(s.(wakeups := PopIfTop(s.wakeups, s.threads[t].deadline), threads := s.threads[t := Running]))
  {
    hide Deadlines, Min, PopIfTop;
    assert ThreadOk(s.threads[t], s.time, !s.manager.Waiting?);
    WokenOnTime(s, t);
    Swap(s.threads, t, Running);
  }

  lemma SleepKeeps(s: State, t: nat, d: int)
    requires Inv(s) && Enabled(s, SleepFuture(t, d))
    ensures Inv(Apply(s, SleepFuture(t, d)))
    ensures Apply(s, SleepFuture(t, d)).time == s.time
  {
    hide Deadlines, Min, DropPast;
    NoneInPast(s);
    DropPastNothing(s.wakeups + multiset{d}, s.time);
    DeadlinesNotify(s.threads);
    Swap(NotifyAll(s.threads), t, Checking(d));
    assert ThreadOk(s.threads[t], s.time, !s.manager.Waiting?);
  }

  lemma PassKeeps(s: State)
    requires Inv(s) && Enabled(s, Pass)
    ensures Inv(Apply(s, Pass))
    ensures Apply(s, Pass).time >= s.time
  {
    hide Deadlines, Min, DropPast;
    NoneInPast(s);
    DeadlinesNotify(s.threads);
    EarliestFirst(s);
  }

  lemma EarliestFirst(s: State)
    requires s.wakeups == Deadlines(s.threads)
    ensures forall i :: 0 <= i < |s.threads| && s.threads[i].Sleeping() ==> s.threads[i].deadline >= NextWakeup(s)
  {
    hide Deadlines, Min;
    forall i | 0 <= i < |s.threads| && s.threads[i].Sleeping()
      ensures s.threads[i].deadline >= NextWakeup(s)
    {
      DeadlineIn(s.threads, i);
    }
  }

  lemma StatusKeeps(s: State, t: nat, th: Thread)
    requires Inv(s) && t < |s.threads| && Own(th) == Own(s.threads[t])
    requires ThreadOk(th, s.time, !s.manager.Waiting?)
    ensures Inv(s.(threads := s.threads[t := th]))
  {
    hide Deadlines;
    Swap(s.threads, t, th);
  }

  lemma QuietKeeps(s: State, e: Event)
    requires Inv(s) && Enabled(s, e)
    requires e.SleepPast? || e.Acquire? || e.Release?
    ensures Inv(Apply(s, e)) && Apply(s, e).time == s.time
  {
    hide Deadlines;
  }

  lemma JoinKeeps(s: State, t: nat)
    requires Inv(s) && Enabled(s, Join(t))
    ensures Inv(Apply(s, Join(t))) && Apply(s, Join(t)).time == s.time
  {
    hide Deadlines;
    StatusKeeps(s, t, Running);
  }

  lemma LeaveKeeps(s: State, t: nat)
    requires Inv(s) && Enabled(s, Leave(t))
    ensures Inv(Apply(s, Leave(t))) && Apply(s, Leave(t)).time == s.time
  {
    hide Deadlines;
    StatusKeeps(s, t, Detached);
  }

  lemma WakeKeeps(s: State, t: nat)
    requires Inv(s) && Enabled(s, Wake(t))
    ensures Inv(Apply(s, Wake(t))) && Apply(s, Wake(t)).time == s.time
  {
    hide Deadlines;
    assert ThreadOk(s.threads[t], s.time, !s.manager.Waiting?);
    StatusKeeps(s, t, Asleep(s.threads[t].deadline, true));
  }

  lemma ReacquireKeeps(s: State, t: nat)
    requires Inv(s) && Enabled(s, Reacquire(t))
    ensures Inv(Apply(s, Reacquire(t))) && Apply(s, Reacquire(t)).time == s.time
  {
    hide Deadlines;
    assert ThreadOk(s.threads[t], s.time, !s.manager.Waiting?);
    StatusKeeps(s, t, Checking(s.threads[t].deadline));
  }

  lemma StepKeepsInv(s: State, e: Event)
    requires Inv(s) && Enabled(s, e)
    ensures Inv(Apply(s, e))
    ensures Apply(s, e).time >= s.time
    ensures !e.Pass? ==> Apply(s, e).time == s.time
  {
    hide *;
    match e
    case Join(t) => JoinKeeps(s, t);
    case Leave(t) => LeaveKeeps(s, t);
    case SleepPast(t, d) => QuietKeeps(s, e);
    case SleepFuture(t, d) => SleepKeeps(s, t, d);
    case Check(t) => CheckKeeps(s, t);
    case Wake(t) => WakeKeeps(s, t);
    case Reacquire(t) => ReacquireKeeps(s, t);
    case Acquire => QuietKeeps(s, e);
    case Pass => PassKeeps(s);
    case Release => QuietKeeps(s, e);
  }
}
