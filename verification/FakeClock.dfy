/**
 The simulated clock (util/clock.cc, util/clock.h) as a state machine.

 Every client thread holds the shared mutex while it runs and gives it up inside sleep_until; the
 clock manager takes the mutex exclusively and moves time to the earliest pending wake-up. Steps are
 the stretches of code between lock operations. The condition variable may wake a sleeper at any time.
 */
module FakeClock {

  /** What a client thread is doing.
      Detached: it holds no ClockInstance. Running: it holds the shared lock.
      Checking: it holds the shared lock and is about to evaluate the predicate of its wait.
      Asleep: it has given the lock up; `notified` once it has been woken and must reacquire it. */
  datatype Thread = Detached | Running | Checking(deadline: int) | Asleep(deadline: int, notified: bool)
  {
    predicate HoldsLock() {
      Running? || Checking?
    }
    predicate Sleeping() {
      Checking? || Asleep?
    }
  }

  /** The manager: waiting on the condition variable, or holding the mutex before or after its pass. */
  datatype Manager = Waiting | Holding | Passed

  datatype State = State(time: int, wakeups: multiset<int>, threads: seq<Thread>, manager: Manager)

  datatype Event =
    | Join(t: nat)                       // ClockInstance constructed
    | Leave(t: nat)                      // ClockInstance::CleanUp
    | SleepPast(t: nat, deadline: int)   // sleep_until a time that has already come
    | SleepFuture(t: nat, deadline: int) // sleep_until up to and including set_wakeup and notify_all
    | Check(t: nat)                      // the predicate of the wait, then return or release the lock
    | Wake(t: nat)                       // a notification, or a spurious wake-up, reaches a sleeper
    | Reacquire(t: nat)                  // a woken sleeper takes the shared lock again
    | Acquire                            // the manager takes the mutex exclusively
    | Pass                               // the manager's pass over next_wakeup
    | Release                            // the manager goes back to waiting

  function Min(s: multiset<int>): (m: int)
    requires s != multiset{}
    ensures m in s && forall x :: x in s ==> m <= x
  {
    MinExists(s);
    var m :| m in s && forall x :: x in s ==> m <= x;
    m
  }

  lemma MinExists(s: multiset<int>)
    requires s != multiset{}
    ensures exists m :: m in s && forall x :: x in s ==> m <= x
  {
    var m := Least(s);
  }

  lemma NoneIn(s: multiset<int>)
    requires forall x :: x !in s
    ensures s == multiset{}
  {
    assert forall x: int :: s[x] == 0;
  }

  lemma Some(s: multiset<int>) returns (m: int)
    requires s != multiset{}
    ensures m in s
  {
    if x :| x in s {
      m := x;
    } else {
      NoneIn(s);
      assert false;
    }
  }

  lemma {:induction false} Least(s: multiset<int>) returns (m: int)
    requires s != multiset{}
    ensures m in s && forall x :: x in s ==> m <= x
    decreases |s|
  {
    m := Some(s);
    var rest := s - multiset{m};
    assert forall x :: x in s ==> x == m || x in rest;
    if rest != multiset{} {
      var b := Least(rest);
      m := if m <= b then m else b;
    }
  }

  /** monotonic_clock::next_wakeup. */
  function NextWakeup(s: State): int {
    if s.wakeups == multiset{} then s.time else Min(s.wakeups)
  }

  /** tick_.notify_all. */
  function NotifyAll(ts: seq<Thread>): (r: seq<Thread>)
    ensures |r| == |ts|
    ensures forall i :: 0 <= i < |ts| ==> r[i] == (if ts[i].Asleep? then Asleep(ts[i].deadline, true) else ts[i])
  {
    seq(|ts|, i requires 0 <= i < |ts| => if ts[i].Asleep? then Asleep(ts[i].deadline, true) else ts[i])
  }

  /** The entries set_wakeup leaves in the queue: those that are not in the past. */
  function DropPast(s: multiset<int>, time: int): multiset<int>
    decreases |s|
  {
    if s == multiset{} || Min(s) >= time then s else DropPast(s - multiset{Min(s)}, time)
  }

  /** The pop a returning sleeper performs. */
  function PopIfTop(s: multiset<int>, deadline: int): multiset<int> {
    if s != multiset{} && Min(s) == deadline then s - multiset{deadline} else s
  }

  predicate NoHolders(ts: seq<Thread>) {
    forall i :: 0 <= i < |ts| ==> !ts[i].HoldsLock()
  }

  predicate Enabled(s: State, e: Event) {
    match e
    case Join(t) => t < |s.threads| && s.threads[t].Detached? && s.manager.Waiting?
    case Leave(t) => t < |s.threads| && s.threads[t].Running?
    case SleepPast(t, d) => t < |s.threads| && s.threads[t].Running? && d <= s.time
    case SleepFuture(t, d) => t < |s.threads| && s.threads[t].Running? && d > s.time
    case Check(t) => t < |s.threads| && s.threads[t].Checking?
    case Wake(t) => t < |s.threads| && s.threads[t].Asleep?
    case Reacquire(t) => t < |s.threads| && s.threads[t].Asleep? && s.threads[t].notified && s.manager.Waiting?
    case Acquire => s.manager.Waiting? && NoHolders(s.threads)
    case Pass => s.manager.Holding?
    case Release => s.manager.Passed?
  }

  function Apply(s: State, e: Event): (s': State)
    requires Enabled(s, e)
    ensures |s'.threads| == |s.threads|
  {
    match e
    case Join(t) => s.(threads := s.threads[t := Running])
    case Leave(t) => s.(threads := s.threads[t := Detached])
    case SleepPast(t, d) => s
    case SleepFuture(t, d) =>
      s.(wakeups := DropPast(s.wakeups + multiset{d}, s.time),
         threads := NotifyAll(s.threads)[t := Checking(d)])
    case Check(t) =>
      var d := s.threads[t].deadline;
      if d <= s.time then s.(wakeups := PopIfTop(s.wakeups, d), threads := s.threads[t := Running])
      else s.(threads := s.threads[t := Asleep(d, false)])
    case Wake(t) => s.(threads := s.threads[t := Asleep(s.threads[t].deadline, true)])
    case Reacquire(t) => s.(threads := s.threads[t := Checking(s.threads[t].deadline)])
    case Acquire => s.(manager := Holding)
    case Pass =>
      if NextWakeup(s) >= s.time
      then s.(time := NextWakeup(s), threads := NotifyAll(s.threads), manager := Passed)
      else s.(manager := Passed)
    case Release => s.(manager := Waiting)
  }

  // ---------------------------------------------------------------- the invariant

  /** The queue entry a thread accounts for. */
  function Own(th: Thread): multiset<int> {
    if th.Sleeping() then multiset{th.deadline} else multiset{}
  }

  /** The deadlines of all threads inside sleep_until. */
  function Deadlines(ts: seq<Thread>): multiset<int> {
    if ts == [] then multiset{} else Own(ts[0]) + Deadlines(ts[1..])
  }

  /** A deadline is never in the past; a sleeper nobody has notified is not due; and no client holds
      the shared lock while the manager is `busy` with the exclusive one. */
  predicate ThreadOk(th: Thread, time: int, busy: bool) {
    && (th.Sleeping() ==> th.deadline >= time)
    && (th.Asleep? && !th.notified ==> th.deadline > time)
    && (busy ==> !th.HoldsLock())
  }

  /** What every step of a run without shutdown keeps. */
  predicate Inv(s: State) {
    && s.wakeups == Deadlines(s.threads)
    && forall i :: 0 <= i < |s.threads| ==> ThreadOk(s.threads[i], s.time, !s.manager.Waiting?)
  }

  /** Nobody is asleep and the manager waits: the state after set_time(start_time). */
  predicate Init(s: State) {
    && s.wakeups == multiset{} && s.manager.Waiting?
    && forall i :: 0 <= i < |s.threads| ==> s.threads[i].Detached?
  }

  lemma {:induction false} DeadlinesUpdate(ts: seq<Thread>, t: nat, th: Thread)
    requires t < |ts|
    ensures Deadlines(ts[t := th]) + Own(ts[t]) == Deadlines(ts) + Own(th)
    decreases t
  {
    hide *;
    DeadlinesForm(ts);
    DeadlinesForm(ts[t := th]);
    if t == 0 {
      assert ts[t := th][1..] == ts[1..];
    } else {
      assert ts[t := th][1..] == ts[1..][t - 1 := th];
      DeadlinesUpdate(ts[1..], t - 1, th);
      Regroup(Own(ts[0]), Deadlines(ts[1..][t - 1 := th]), Own(ts[t]), Deadlines(ts[1..]), Own(th));
    }
  }

  lemma DeadlinesForm(ts: seq<Thread>)
    requires ts != []
    ensures Deadlines(ts) == Own(ts[0]) + Deadlines(ts[1..])
  {
  }

  lemma Regroup(o: multiset<int>, a: multiset<int>, b: multiset<int>, c: multiset<int>, d: multiset<int>)
    requires a + b == c + d
    ensures (o + a) + b == (o + c) + d
  {
    assert (o + a) + b == o + (a + b);
    assert (o + c) + d == o + (c + d);
  }

  lemma {:induction false} DeadlinesNotify(ts: seq<Thread>)
    ensures Deadlines(NotifyAll(ts)) == Deadlines(ts)
    decreases |ts|
  {
    if ts != [] {
      assert NotifyAll(ts)[1..] == NotifyAll(ts[1..]);
      DeadlinesNotify(ts[1..]);
    }
  }

  lemma {:induction false} DeadlinesEmpty(ts: seq<Thread>)
    requires forall i :: 0 <= i < |ts| ==> !ts[i].Sleeping()
    ensures Deadlines(ts) == multiset{}
    decreases |ts|
  {
    if ts != [] {
      DeadlinesEmpty(ts[1..]);
    }
  }

  /** Every pending deadline belongs to a thread. */
  lemma {:induction false} DeadlineOwner(ts: seq<Thread>, d: int) returns (t: nat)
    requires d in Deadlines(ts)
    ensures t < |ts| && ts[t].Sleeping() && ts[t].deadline == d
    decreases |ts|
  {
    if ts[0].Sleeping() && ts[0].deadline == d {
      t := 0;
    } else {
      t := DeadlineOwner(ts[1..], d);
      t := t + 1;
    }
  }

  lemma {:induction false} DeadlineIn(ts: seq<Thread>, t: nat)
    requires t < |ts| && ts[t].Sleeping()
    ensures ts[t].deadline in Deadlines(ts)
    decreases t
  {
    if t != 0 {
      DeadlineIn(ts[1..], t - 1);
    }
  }

  lemma NoneInPast(s: State)
    requires Inv(s)
    ensures forall d :: d in s.wakeups ==> d >= s.time
  {
    forall d | d in s.wakeups
      ensures d >= s.time
    {
      var t := DeadlineOwner(s.threads, d);
    }
  }
}
