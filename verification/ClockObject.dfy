/**
 monotonic_clock's static state (util/clock.cc, util/clock.h) as an object: the current time and the
 queue of wake-up times, earliest first. Its methods are the code between lock operations; each is
 proved to perform exactly the part of the state machine's step that it implements.
 */
module ClockObject {
  import opened FakeClock

  ghost predicate Ascending(w: seq<int>) {
    forall i, j :: 0 <= i < j < |w| ==> w[i] <= w[j]
  }

  /** The top of an ascending queue is the minimum of its entries. */
  lemma TopIsMin(w: seq<int>)
    requires w != [] && Ascending(w)
    ensures multiset(w) != multiset{} && Min(multiset(w)) == w[0]
  {
    assert w[0] in multiset(w);
    assert forall x :: x in multiset(w) ==> x in w;
  }

  lemma PopTop(w: seq<int>)
    requires w != [] && Ascending(w)
    ensures Ascending(w[1..]) && multiset(w[1..]) == multiset(w) - multiset{w[0]}
  {
    assert w == [w[0]] + w[1..];
  }

  lemma InsertSorted(w: seq<int>, i: nat, t: int)
    requires Ascending(w) && i <= |w| && (i < |w| ==> t <= w[i])
    requires forall k :: 0 <= k < i ==> w[k] < t
    ensures Ascending(w[..i] + [t] + w[i..])
  {
    var r := w[..i] + [t] + w[i..];
    forall a, b | 0 <= a < b < |r|
      ensures r[a] <= r[b]
    {
      if i < b {
        assert r[b] == w[b - 1];
      }
      if i < a {
        assert r[a] == w[a - 1];
      }
    }
  }

  lemma InsertBag(w: seq<int>, i: nat, t: int)
    requires i <= |w|
    ensures multiset(w[..i] + [t] + w[i..]) == multiset(w) + multiset{t}
  {
    assert w == w[..i] + w[i..];
  }

  lemma DropTop(w: seq<int>, time: int)
    requires w != [] && Ascending(w) && w[0] < time
    ensures Ascending(w[1..]) && DropPast(multiset(w[1..]), time) == DropPast(multiset(w), time)
  {
    TopIsMin(w);
    PopTop(w);
  }

  lemma KeepAll(w: seq<int>, time: int)
    requires Ascending(w) && (w != [] ==> w[0] >= time)
    ensures DropPast(multiset(w), time) == multiset(w)
  {
    if w != [] {
      TopIsMin(w);
    }
  }

  class MonotonicClock {
    var time: int
    var wakeups: seq<int>

    /** The part of the state machine's state that this object holds, beside given threads. */
    ghost function View(threads: seq<Thread>, manager: Manager): State
      reads this
    {
      State(time, multiset(wakeups), threads, manager)
    }

    constructor (start: int)
      ensures Ascending(wakeups) && time == start && wakeups == []
    {
      time, wakeups := start, [];
    }

    method NextWakeup(ghost threads: seq<Thread>, ghost manager: Manager) returns (next: int)
      requires Ascending(wakeups)
      ensures next == FakeClock.NextWakeup(View(threads, manager))
    {
      if wakeups == [] {
        next := time;
      } else {
        TopIsMin(wakeups);
        next := wakeups[0];
      }
    }

    method SetTime(t: int)
      requires Ascending(wakeups)
      modifies this
      ensures Ascending(wakeups) && time == t && wakeups == old(wakeups)
    {
      time := t;
    }

    /** priority_queue::push, keeping the earliest entry first. */
    method Push(t: int)
      requires Ascending(wakeups)
      modifies this
      ensures Ascending(wakeups) && time == old(time)
      ensures multiset(wakeups) == multiset(old(wakeups)) + multiset{t}
    {
      var i := 0;
      while i < |wakeups| && wakeups[i] < t
        invariant 0 <= i <= |wakeups|
        invariant forall k :: 0 <= k < i ==> wakeups[k] < t
      {
        i := i + 1;
      }
      InsertSorted(wakeups, i, t);
      InsertBag(wakeups, i, t);
      hide *;
      wakeups := wakeups[..i] + [t] + wakeups[i..];
    }

    /** monotonic_clock::set_wakeup: push a future time, then drop entries that are in the past. */
    method SetWakeup(t: int)
      requires Ascending(wakeups)
      modifies this
      ensures Ascending(wakeups) && time == old(time)
      ensures multiset(wakeups) ==
              DropPast(multiset(old(wakeups)) + (if t > time then multiset{t} else multiset{}), time)
    {
      hide *;
      if t > time {
        Push(t);
      }
      ghost var pushed := multiset(wakeups);
      assert pushed == multiset(old(wakeups)) + (if t > time then multiset{t} else multiset{});
      while wakeups != [] && wakeups[0] < time
        invariant Ascending(wakeups) && time == old(time)
        invariant DropPast(multiset(wakeups), time) == DropPast(pushed, time)
        decreases |wakeups|
      {
        DropTop(wakeups, time);
        wakeups := wakeups[1..];
      }
      KeepAll(wakeups, time);
    }

    /** The predicate of the wait in sleep_until: true once the time has come, having popped the queue
        if this sleeper's entry is on top. */
    method WaitPredicate(deadline: int) returns (done: bool)
      requires Ascending(wakeups)
      modifies this
      ensures Ascending(wakeups) && time == old(time)
      ensures done == (deadline <= time)
      ensures multiset(wakeups) ==
              if done then PopIfTop(multiset(old(wakeups)), deadline) else multiset(old(wakeups))
    {
      if deadline <= time {
        if wakeups != [] {
          TopIsMin(wakeups);
          PopTop(wakeups);
        }
        if wakeups != [] && wakeups[0] == deadline {
          wakeups := wakeups[1..];
        }
        return true;
      }
      return false;
    }

    /** One turn of ClockManager::Run under the exclusive lock; `ticked` when it notified the sleepers. */
    method ManagerPass(ghost threads: seq<Thread>) returns (ticked: bool)
      requires Ascending(wakeups)
      modifies this
      ensures Ascending(wakeups) && wakeups == old(wakeups)
      ensures View(if ticked then NotifyAll(threads) else threads, Passed) == Apply(old(View(threads, Holding)), Pass)
    {
      ticked := false;
      var next := NextWakeup(threads, Holding);
      if next >= time {
        SetTime(next);
        ticked := true;
      }
    }
  }
}
