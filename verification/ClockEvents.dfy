/**
 Where every client of the simulated clock stands, said of the events of a run alone: who holds a
 ClockInstance, who is inside sleep_until, and who has been woken.
 */
module ClockEvents {
  import opened FakeClock
  import opened ClockInvariant
  import opened ClockRuns

  // ---------------------------------------------------------------- who holds a ClockInstance

  predicate ComesOrGoes(e: Event, t: nat) {
    e == Join(t) || e == Leave(t)
  }

  /** The last time thread t constructed or cleaned up a ClockInstance, it constructed one. */
  predicate Attached(es: seq<Event>, t: nat) {
    exists k :: 0 <= k < |es| && es[k] == Join(t) && forall j :: k < j < |es| ==> !ComesOrGoes(es[j], t)
  }

  lemma AttachedStep(es: seq<Event>, e: Event, t: nat)
    ensures Attached(es + [e], t) <==> e == Join(t) || (e != Leave(t) && Attached(es, t))
  {
    var all := es + [e];
    if Attached(all, t) {
      var k :| 0 <= k < |all| && all[k] == Join(t) && forall j :: k < j < |all| ==> !ComesOrGoes(all[j], t);
      if k < |es| {
        assert es[k] == Join(t);
        assert forall j :: k < j < |es| ==> es[j] == all[j];
        assert all[|es|] == e;
      }
    }
    if e == Join(t) {
      assert all[|es|] == Join(t);
    } else if e != Leave(t) && Attached(es, t) {
      var k :| 0 <= k < |es| && es[k] == Join(t) && forall j :: k < j < |es| ==> !ComesOrGoes(es[j], t);
      assert all[k] == Join(t);
      assert forall j :: k < j < |all| ==> all[j] == if j < |es| then es[j] else e;
    }
  }

  lemma AttachStep(s: State, e: Event, t: nat)
    requires Enabled(s, e) && t < |s.threads|
    ensures !Apply(s, e).threads[t].Detached? <==> e == Join(t) || (e != Leave(t) && !s.threads[t].Detached?)
  {
  }

  /** In every run, a thread takes part in the clock exactly if its last construction or clean-up was a
      construction. */
  lemma {:induction false} AttachedExactly(s0: State, es: seq<Event>, t: nat)
    requires Init(s0) && ValidRun(s0, es) && t < |s0.threads|
    ensures |After(s0, es).threads| == |s0.threads|
    ensures !After(s0, es).threads[t].Detached? <==> Attached(es, t)
    decreases |es|
  {
    if es == [] {
      NobodyYet(s0, es, t);
    } else {
      hide *;
      var front, e := es[..|es| - 1], es[|es| - 1];
      RunStep(s0, es);
      AttachedExactly(s0, front, t);
      assert es == front + [e];
      AttachStep(After(s0, front), e, t);
      AttachedStep(front, e, t);
      SameThreads(After(s0, front), e);
    }
  }

  lemma NobodyYet(s0: State, es: seq<Event>, t: nat)
    requires Init(s0) && t < |s0.threads| && es == []
    ensures After(s0, es) == s0 && s0.threads[t].Detached? && !Attached(es, t)
  {
  }

  lemma SameThreads(s: State, e: Event)
    requires Enabled(s, e)
    ensures |Apply(s, e).threads| == |s.threads|
  {
  }

  /** Threads that have left do not hold the clock up: as soon as every thread still attached is asleep, the
      manager can take the lock. */
  lemma ManagerGetsItsTurn(s0: State, es: seq<Event>)
    requires Init(s0) && ValidRun(s0, es) && After(s0, es).manager.Waiting?
    requires |After(s0, es).threads| == |s0.threads|
    requires forall t :: 0 <= t < |s0.threads| && Attached(es, t) ==> After(s0, es).threads[t].Asleep?
    ensures Enabled(After(s0, es), Acquire)
  {
    hide After, ValidRun, Attached, Init;
    forall t | 0 <= t < |s0.threads|
      ensures !After(s0, es).threads[t].HoldsLock()
    {
      AttachedExactly(s0, es, t);
    }
  }

  // ---------------------------------------------------------------- what a client is doing

  /** Out of the clock; running; about to test whether its time has come; or having tested it, and if that
      put it to sleep, woken since or not. */
  datatype Story = Out | In | Testing | Tested(woken: bool)

  /** What an event means for thread t. Sleepers are woken one by one or, when somebody goes to sleep and
      when the manager makes its pass, all together. */
  function Told(story: Story, e: Event, t: nat): Story {
    match e
    case Join(u) => if u == t then In else story
    case Leave(u) => if u == t then Out else story
    case SleepPast(u, _) => if u == t then In else story
    case SleepFuture(u, _) => if u == t then Testing else Roused(story)
    case Check(u) => if u == t then Tested(false) else story
    case Wake(u) => if u == t then Roused(story) else story
    case Reacquire(u) => if u == t then Testing else story
    case Pass => Roused(story)
    case Acquire => story
    case Release => story
  }

  function Roused(story: Story): Story {
    if story.Tested? then Tested(true) else story
  }

  function StoryOf(es: seq<Event>, t: nat): Story {
    if es == [] then Out else Told(StoryOf(es[..|es| - 1], t), es[|es| - 1], t)
  }

  predicate Fits(th: Thread, story: Story) {
    match story
    case Out => th.Detached?
    case In => th.Running?
    case Testing => th.Checking?
    case Tested(woken) => th.Running? || (th.Asleep? && th.notified == woken)
  }

  lemma PassWakesAll(s: State)
    requires Inv(s) && Enabled(s, Pass)
    ensures Apply(s, Pass).threads == NotifyAll(s.threads)
  {
    if s.wakeups != multiset{} {
      NoneInPast(s);
    }
  }

  lemma StoryStep(s: State, e: Event, t: nat, story: Story)
    requires Inv(s) && Enabled(s, e) && t < |s.threads| && Fits(s.threads[t], story)
    ensures Fits(Apply(s, e).threads[t], Told(story, e, t))
  {
    if e.Pass? {
      PassWakesAll(s);
    }
    hide Inv, Min, DropPast, NextWakeup;
  }

  /** In every run the events tell what each client is doing; in particular a sleeper has a notification
      pending exactly if it was woken since it last looked at the clock. */
  lemma {:induction false} StoryIsTrue(s0: State, es: seq<Event>, t: nat)
    requires Init(s0) && ValidRun(s0, es) && t < |s0.threads|
    ensures |After(s0, es).threads| == |s0.threads|
    ensures Fits(After(s0, es).threads[t], StoryOf(es, t))
    decreases |es|
  {
    InitEstablishes(s0);
    Reachable(s0, es);
    if es != [] {
      var front, e := es[..|es| - 1], es[|es| - 1];
      RunStep(s0, es);
      Reachable(s0, front);
      StoryIsTrue(s0, front, t);
      assert StoryOf(es, t) == Told(StoryOf(front, t), e, t);
      hide *;
      StoryStep(After(s0, front), e, t, StoryOf(front, t));
    }
  }

  // ---------------------------------------------------------------- the clean-up loop

  /** set_wakeup's clean-up removes exactly the entries in the past. */
  lemma {:induction false} DropPastExactly(s: multiset<int>, time: int, d: int)
    ensures DropPast(s, time)[d] == if d < time then 0 else s[d]
    decreases |s|
  {
    if s != multiset{} {
      var m := Min(s);
      if m < time {
        DropPastExactly(s - multiset{m}, time, d);
      } else if d < time {
        assert d !in s;
      }
    }
  }
}
