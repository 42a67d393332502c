/**
 Periodic execution (util/clock.cc: Loop; util/node.cc: Node::Run) for a client of the simulated clock.
 A client thread sees a sequential clock (ClockView.ThreadSeesSequentialClock), which is what the
 VirtualClock object below provides to imperative code.
 */
module PeriodicLoop {
  import opened ClockView
  import ClockRuns
  import FakeClock

  /** One thread's clock: it stands still except in SleepUntil, which jumps to the deadline. `calls` records
      every SleepUntil made, so that what imperative code asks of its clock can be put beside what a thread
      asks of the fake clock. */
  class VirtualClock {
    var now: int
    ghost const start: int
    ghost var calls: seq<Call>

    ghost predicate Valid()
      reads this
    {
      Sequential(start, calls) && now == Now(start, calls)
    }

    constructor (start: int)
      ensures Valid() && now == start == this.start && calls == []
    {
      now, this.start, calls := start, start, [];
    }

    method SleepUntil(deadline: int)
      requires Valid()
      modifies this
      ensures Valid() && now == Max(old(now), deadline)
      ensures calls == old(calls) + [Call(old(now), deadline, now)]
    {
      ghost var issued := now;
      if deadline > now {
        now := deadline;
      }
      SequentialAppend(start, calls, Call(issued, deadline, now));
      calls := calls + [Call(issued, deadline, now)];
    }
  }

  /** Loop::WaitForNext stops at all exactly when the period is positive or one step is enough. */
  predicate Terminates(last: int, period: int, now: int) {
    period > 0 || now <= last + period
  }

  /** The trigger time WaitForNext picks. */
  function NextTrigger(last: int, period: int, now: int): int
    requires Terminates(last, period, now)
    decreases if period > 0 then now - last else 0
  {
    if now > last + period then NextTrigger(last + period, period, now) else last + period
  }

  /** start + k * period. */
  function Grid(start: int, period: int, k: nat): int {
    if k == 0 then start else Grid(start, period, k - 1) + period
  }

  lemma {:induction false} GridIs(start: int, period: int, k: nat)
    ensures Grid(start, period, k) == start + k * period
    decreases k
  {
    if k != 0 {
      GridIs(start, period, k - 1);
    }
  }

  lemma {:induction false} GridFrom(start: int, period: int, k: nat)
    ensures Grid(start, period, k + 1) == Grid(start + period, period, k)
    decreases k
  {
    if k != 0 {
      GridFrom(start, period, k - 1);
    }
  }

  /** The trigger is the first later point of the grid that is not in the past. */
  lemma {:induction false} NextTriggerIsLeast(last: int, period: int, now: int) returns (k: nat)
    requires Terminates(last, period, now)
    ensures k >= 1 && NextTrigger(last, period, now) == Grid(last, period, k) >= now
    ensures forall j :: 1 <= j < k ==> Grid(last, period, j) < now
    decreases if period > 0 then now - last else 0
  {
    if now > last + period {
      var i := NextTriggerIsLeast(last + period, period, now);
      k := i + 1;
      GridFrom(last, period, i);
      forall j | 1 <= j < k
        ensures Grid(last, period, j) < now
      {
        GridFrom(last, period, j - 1);
        if j == 1 {
          assert Grid(last + period, period, 0) == last + period;
        }
      }
    } else {
      k := 1;
      assert Grid(last, period, 0) == last;
    }
  }

  /** Otherwise no number of steps reaches the present: the do-while never ends. */
  lemma {:induction false} NeverReached(last: int, period: int, now: int, k: nat)
    requires !Terminates(last, period, now) && k >= 1
    ensures Grid(last, period, k) < now
    decreases k
  {
    if k > 1 {
      NeverReached(last, period, now, k - 1);
    } else {
      assert Grid(last, period, 0) == last;
    }
  }

  class Loop {
    const clock: VirtualClock
    const period: int
    var lastTrigger: int

    constructor (clock: VirtualClock, period: int)
      ensures this.clock == clock && this.period == period && lastTrigger == clock.now
    {
      this.clock, this.period, lastTrigger := clock, period, clock.now;
    }

    /** Loop::WaitForNext: returns at exactly the trigger time it picked. */
    method WaitForNext()
      requires clock.Valid() && Terminates(lastTrigger, period, clock.now)
      modifies this, clock
      ensures clock.Valid() && lastTrigger == NextTrigger(old(lastTrigger), period, old(clock.now))
      ensures clock.now == lastTrigger
      ensures clock.calls == old(clock.calls) + [Call(old(clock.now), lastTrigger, lastTrigger)]
    {
      var time := clock.now;
      ghost var goal := NextTrigger(lastTrigger, period, time);
      lastTrigger := lastTrigger + period;
      while time > lastTrigger
        invariant time == clock.now == old(clock.now) && clock.Valid() && clock.calls == old(clock.calls)
        invariant time > lastTrigger ==> period > 0 && NextTrigger(lastTrigger, period, time) == goal
        invariant time <= lastTrigger ==> lastTrigger == goal
        decreases time - lastTrigger
      {
        time := clock.now;
        lastTrigger := lastTrigger + period;
      }
      clock.SleepUntil(lastTrigger);
    }
  }

  // ---------------------------------------------------------------- periodic nodes

  function LastTrigger(start: int, calls: seq<Call>): int {
    if calls == [] then start else calls[|calls| - 1].deadline
  }

  /** Every SleepUntil of the thread is the one WaitForNext makes. */
  predicate FollowsLoop(start: int, period: int, calls: seq<Call>)
    requires period > 0
  {
    calls == [] ||
    (var front, last := calls[..|calls| - 1], calls[|calls| - 1];
     && FollowsLoop(start, period, front)
     && last.deadline == NextTrigger(LastTrigger(start, front), period, last.issued))
  }

  lemma {:induction false} LoopOnGrid(start: int, period: int, calls: seq<Call>)
    requires period > 0 && Sequential(start, calls) && FollowsLoop(start, period, calls)
    ensures Now(start, calls) == LastTrigger(start, calls) == Grid(start, period, |calls|)
    ensures forall j :: 0 <= j < |calls| ==> calls[j].returned == Grid(start, period, j + 1)
    decreases |calls|
  {
    if calls != [] {
      var front := calls[..|calls| - 1];
      LoopOnGrid(start, period, front);
      assert forall j :: 0 <= j < |front| ==> front[j] == calls[j];
    }
  }

  /** Node::Run for a node with a positive period, until shutdown comes after `n` iterations. The body
      does not sleep. Iteration j happens at start + (j+1) * period: no drift and no missed cycle. The
      sleeps it makes, `made`, are those of a thread that follows the loop. */
  method RunNode(clock: VirtualClock, period: int, n: nat) returns (iterations: seq<int>, ghost made: seq<Call>)
    requires clock.Valid() && period > 0
    modifies clock
    ensures |iterations| == n
    ensures forall j :: 0 <= j < n ==> iterations[j] == Grid(old(clock.now), period, j + 1)
    ensures clock.Valid() && clock.calls == old(clock.calls) + made && |made| == n
    ensures Sequential(old(clock.now), made) && FollowsLoop(old(clock.now), period, made)
  {
    ghost var start := clock.now;
    var loop := new Loop(clock, period);
    iterations, made := [], [];
    for i := 0 to n
      invariant fresh(loop) && loop.clock == clock && loop.period == period
      invariant clock.Valid() && clock.calls == old(clock.calls) + made && |made| == i
      invariant Sequential(start, made) && FollowsLoop(start, period, made)
      invariant Now(start, made) == LastTrigger(start, made) == clock.now == loop.lastTrigger == Grid(start, period, i)
      invariant |iterations| == i
      invariant forall j :: 0 <= j < i ==> iterations[j] == Grid(start, period, j + 1)
    {
      ghost var issued := clock.now;
      loop.WaitForNext();
      ghost var call := Call(issued, loop.lastTrigger, clock.now);
      LoopStep(start, period, made, call, i);
      made := made + [call];
      iterations := iterations + [clock.now];
    }
  }

  lemma LoopStep(start: int, period: int, made: seq<Call>, call: Call, i: nat)
    requires period > 0 && Sequential(start, made) && FollowsLoop(start, period, made)
    requires Now(start, made) == LastTrigger(start, made) == call.issued == Grid(start, period, i)
    requires call.deadline == call.returned == NextTrigger(call.issued, period, call.issued)
    ensures Sequential(start, made + [call]) && FollowsLoop(start, period, made + [call])
    ensures Now(start, made + [call]) == LastTrigger(start, made + [call]) == call.returned == Grid(start, period, i + 1)
  {
    SequentialAppend(start, made, call);
    assert (made + [call])[..|made|] == made;
  }

  /** In every run of the fake clock, beside any other threads, a thread that makes the sleeps RunNode makes
      wakes from its j-th wait at exactly its start time plus j+1 periods. */
  lemma NodeNeverDrifts(s0: FakeClock.State, es: seq<FakeClock.Event>, t: nat, period: int)
    requires FakeClock.Init(s0) && ClockRuns.ValidRun(s0, es) && t < |s0.threads| && period > 0
    requires |ClockRuns.After(s0, es).threads| == |s0.threads| && !ClockRuns.After(s0, es).threads[t].Detached?
    requires FollowsLoop(ViewOf(s0, es, t).start, period, ViewOf(s0, es, t).calls)
    ensures var v := ViewOf(s0, es, t);
            forall j :: 0 <= j < |v.calls| ==> v.calls[j].returned == Grid(v.start, period, j + 1)
  {
    ThreadSeesSequentialClock(s0, es, t);
    hide FakeClock.Apply, FakeClock.Enabled;
    LoopOnGrid(ViewOf(s0, es, t).start, period, ViewOf(s0, es, t).calls);
  }
}
