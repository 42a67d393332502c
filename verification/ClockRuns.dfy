/**
 What holds over whole runs of the simulated clock: any number of threads, any interleaving, any
 spurious wake-ups, no shutdown. The main result is that each client thread sees a sequential clock:
 time stands still while it runs, and SleepUntil(d) returns at exactly the later of now and d.
 */
module ClockRuns {
  import opened FakeClock
  import opened ClockInvariant

  /** The state a run reaches. Events that are not enabled do not happen. */
  function After(s0: State, es: seq<Event>): State {
    if es == [] then s0
    else
      var s := After(s0, es[..|es| - 1]);
      if Enabled(s, es[|es| - 1]) then Apply(s, es[|es| - 1]) else s
  }

  predicate ValidRun(s0: State, es: seq<Event>) {
    es == [] || (ValidRun(s0, es[..|es| - 1]) && Enabled(After(s0, es[..|es| - 1]), es[|es| - 1]))
  }

  lemma RunStep(s0: State, es: seq<Event>)
    requires ValidRun(s0, es) && es != []
    ensures var s := After(s0, es[..|es| - 1]);
            && ValidRun(s0, es[..|es| - 1])
            && Enabled(s, es[|es| - 1])
            && After(s0, es) == Apply(s, es[|es| - 1])
  {
  }

  /** The invariant holds in every reachable state. */
  lemma {:induction false} Reachable(s0: State, es: seq<Event>)
    requires Inv(s0) && ValidRun(s0, es)
    ensures Inv(After(s0, es)) && |After(s0, es).threads| == |s0.threads|
    decreases |es|
  {
    if es != [] {
      RunStep(s0, es);
      Reachable(s0, es[..|es| - 1]);
      hide *;
      StepKeepsInv(After(s0, es[..|es| - 1]), es[|es| - 1]);
    }
  }

  /** Time never runs backwards. */
  lemma {:induction false} TimeMonotone(s0: State, es: seq<Event>, i: nat)
    requires Inv(s0) && ValidRun(s0, es) && i <= |es|
    ensures After(s0, es[..i]).time <= After(s0, es).time
    decreases |es|
  {
    if i == |es| {
      assert es[..i] == es;
    } else {
      var front := es[..|es| - 1];
      RunStep(s0, es);
      TimeMonotone(s0, front, i);
      Reachable(s0, front);
      assert front[..i] == es[..i];
      hide *;
      StepKeepsInv(After(s0, front), es[|es| - 1]);
    }
  }

  /** The manager's pass is out of the question while a client holds the shared lock. */
  lemma HeldMeansStill(s: State, e: Event, t: nat)
    requires Inv(s) && Enabled(s, e) && t < |s.threads| && s.threads[t].HoldsLock()
    ensures Apply(s, e).time == s.time
  {
    assert ThreadOk(s.threads[t], s.time, !s.manager.Waiting?);
    hide Deadlines, Min, DropPast;
    if e.Pass? {
      assert false;
    } else {
      hide *;
      StepKeepsInv(s, e);
    }
  }

  /** Time is frozen for as long as any one thread keeps the lock. */
  lemma {:induction false} FrozenWhileHeld(s0: State, es: seq<Event>, i: nat, t: nat)
    requires Inv(s0) && ValidRun(s0, es) && i <= |es| && t < |s0.threads|
    requires forall k :: i <= k < |es| ==>
               t < |After(s0, es[..k]).threads| && After(s0, es[..k]).threads[t].HoldsLock()
    ensures After(s0, es).time == After(s0, es[..i]).time
    decreases |es|
  {
    if i == |es| {
      assert es[..i] == es;
    } else {
      var front := es[..|es| - 1];
      RunStep(s0, es);
      Reachable(s0, front);
      assert forall k :: i <= k < |front| ==> front[..k] == es[..k];
      FrozenWhileHeld(s0, front, i, t);
      assert front[..i] == es[..i];
      hide *;
      HeldMeansStill(After(s0, front), es[|es| - 1], t);
    }
  }

  /** Sleepers come back in the order of their deadlines: nobody is overtaken. */
  lemma NoOvertaking(s: State, t: nat, u: nat)
    requires Inv(s) && t < |s.threads| && u < |s.threads|
    requires s.threads[t].Checking? && s.threads[t].deadline <= s.time && s.threads[u].Sleeping()
    ensures Apply(s, Check(t)).threads[t].Running?
    ensures s.threads[t].deadline <= s.threads[u].deadline
    ensures Apply(s, Check(t)).wakeups == s.wakeups - multiset{s.threads[t].deadline}
    ensures Apply(s, Check(t)).wakeups == Deadlines(s.threads[t := Running])
  {
    assert ThreadOk(s.threads[u], s.time, !s.manager.Waiting?);
    CheckKeeps(s, t);
    WokenOnTime(s, t);
  }

  /** No wake-up is lost: once every clock holder sleeps, either a notified sleeper is due now, or the
      manager's pass strictly advances time to the earliest deadline. */
  lemma NoLostWakeup(s: State)
    requires Inv(s) && NoHolders(s.threads) && s.wakeups != multiset{}
    ensures (exists t :: 0 <= t < |s.threads| && s.threads[t] == Asleep(s.time, true))
         || (s.time < Min(s.wakeups) && Apply(s.(manager := Holding), Pass).time == Min(s.wakeups))
  {
    NoneInPast(s);
    if Min(s.wakeups) == s.time {
      var t := DeadlineOwner(s.threads, s.time);
      assert ThreadOk(s.threads[t], s.time, !s.manager.Waiting?);
      assert s.threads[t] == Asleep(s.time, true);
    }
  }
}
