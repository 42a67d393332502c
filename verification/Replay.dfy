/**
 Log replay (util/log-replay.cc): the records of a log are sent again, each when the simulated clock
 reaches its time stamp. Parsing, renaming inside a message and the compatibility handlers are
 functions given from outside.
 */
module Replay {
  import opened Bits
  import opened ClockView
  import opened PeriodicLoop
  import ClockRuns
  import FakeClock

  /** A set field of a log entry: its time stamp in nanoseconds, or the message of a queue. */
  datatype LogField = Stamp(nanos: int) | Message(queue: string)

  datatype Entry = Entry(fields: seq<LogField>, bytes: seq<Byte>)

  datatype Config = Config(
    start: int,                                        // the clock when replay starts
    skipBefore: real,                                  // --start_log_replay, in seconds
    rename: map<string, string>,
    ignoreByDefault: bool,
    known: set<string>,                                // the fields of the LogEntry type
    handle: (string, seq<Byte>) -> seq<Byte>,          // compatibility handlers
    move: (string, string, seq<Byte>) -> seq<Byte>)    // moving a message to another field

  datatype Send = Send(time: int, queue: string, bytes: seq<Byte>)

  datatype Outcome = Finished | Fatal

  /** The queue that messages of a given name are replayed on; empty when they are ignored. */
  function Target(c: Config, queue: string): string {
    if queue in c.rename then c.rename[queue] else if c.ignoreByDefault then "" else queue
  }

  // ---------------------------------------------------------------- what a log says

  /** The time stamp in force after the first `i` records: the last one seen, or the start time. */
  function StampAt(c: Config, log: seq<Entry>, i: nat): int
    requires i <= |log|
  {
    if i == 0 then c.start else LastStamp(log[i - 1].fields, StampAt(c, log, i - 1))
  }

  function LastStamp(fields: seq<LogField>, before: int): int {
    if fields == [] then before
    else
      var f := fields[|fields| - 1];
      if f.Stamp? then f.nanos else LastStamp(fields[..|fields| - 1], before)
  }

  /** The queue name in force after the first `i` records. */
  function QueueAt(log: seq<Entry>, i: nat): string
    requires i <= |log|
  {
    if i == 0 then "" else LastQueue(log[i - 1].fields, QueueAt(log, i - 1))
  }

  function LastQueue(fields: seq<LogField>, before: string): string {
    if fields == [] then before
    else
      var f := fields[|fields| - 1];
      if f.Message? then f.queue else LastQueue(fields[..|fields| - 1], before)
  }

  function Handled(c: Config, fields: seq<LogField>, bytes: seq<Byte>): seq<Byte> {
    if fields == [] then bytes
    else
      var f := fields[|fields| - 1];
      var b := Handled(c, fields[..|fields| - 1], bytes);
      if f.Message? then c.handle(f.queue, b) else b
  }

  /** Record `i` (counting from 1) comes before the replay window. */
  predicate Skipped(c: Config, log: seq<Entry>, i: nat)
    requires 0 < i <= |log|
  {
    StampAt(c, log, i) as real / 1000000000.0 < c.skipBefore
  }

  /** The queue is renamed, to a name or from a name that is not a field of the log entry type. */
  predicate BadRename(c: Config, queue: string) {
    queue in c.rename && c.rename[queue] != queue && !(c.rename[queue] in c.known && queue in c.known)
  }

  /** Record `i` stops the process. */
  predicate Breaks(c: Config, log: seq<Entry>, i: nat)
    requires 0 < i <= |log|
  {
    |log[i - 1].fields| > 2 || (!Skipped(c, log, i) && BadRename(c, QueueAt(log, i)))
  }

  predicate Intact(c: Config, log: seq<Entry>, n: nat)
    requires n <= |log|
  {
    forall i :: 0 < i <= n ==> !Breaks(c, log, i)
  }

  function Moved(c: Config, queue: string, bytes: seq<Byte>): seq<Byte> {
    if queue in c.rename && c.rename[queue] != queue then c.move(queue, c.rename[queue], bytes) else bytes
  }

  /** The bytes sent for record `i`: through its handlers, then moved to its new field. */
  function Outgoing(c: Config, log: seq<Entry>, i: nat): seq<Byte>
    requires 0 < i <= |log|
  {
    Moved(c, QueueAt(log, i), Handled(c, log[i - 1].fields, log[i - 1].bytes))
  }

  /** The time the clock shows once the first `i` records have been dealt with. */
  function ClockAt(c: Config, log: seq<Entry>, i: nat): int
    requires i <= |log|
  {
    if i == 0 then c.start
    else if Skipped(c, log, i) then ClockAt(c, log, i - 1)
    else Max(ClockAt(c, log, i - 1), StampAt(c, log, i))
  }

  /** The sends of the first `i` records: those in the window whose queue is replayed, in file order. */
  function Sends(c: Config, log: seq<Entry>, i: nat): seq<Send>
    requires i <= |log|
  {
    if i == 0 then []
    else
      var q, rest := QueueAt(log, i), Sends(c, log, i - 1);
      if Skipped(c, log, i) || q == "" || Target(c, q) == "" then rest
      else rest + [Send(ClockAt(c, log, i), Target(c, q), Outgoing(c, log, i))]
  }

  /** The deadlines the first `i` records make replay sleep for. */
  function Requests(c: Config, log: seq<Entry>, i: nat): seq<int>
    requires i <= |log|
  {
    if i == 0 then []
    else if Skipped(c, log, i) || StampAt(c, log, i) <= ClockAt(c, log, i - 1) then Requests(c, log, i - 1)
    else Requests(c, log, i - 1) + [StampAt(c, log, i)]
  }

  // ---------------------------------------------------------------- the replay loop

  /** The queues opened so far are open on their targets, and the current one is open if it has any. */
  predicate QueuesOk(c: Config, queues: map<string, string>, current: string) {
    && (forall n :: n in queues ==> Target(c, n) != "" && queues[n] == Target(c, n))
    && (current != "" && Target(c, current) != "" ==> current in queues)
  }

  /** The loop over the set fields of one record. */
  method TakeFields(c: Config, fields: seq<LogField>, bytes: seq<Byte>, time: int, queue: string,
                    queues: map<string, string>)
    returns (bytes': seq<Byte>, time': int, queue': string, queues': map<string, string>)
    requires QueuesOk(c, queues, queue)
    ensures bytes' == Handled(c, fields, bytes) && time' == LastStamp(fields, time)
    ensures queue' == LastQueue(fields, queue) && QueuesOk(c, queues', queue')
  {
    bytes', time', queue', queues' := bytes, time, queue, queues;
    for i := 0 to |fields|
      invariant bytes' == Handled(c, fields[..i], bytes) && time' == LastStamp(fields[..i], time)
      invariant queue' == LastQueue(fields[..i], queue) && QueuesOk(c, queues', queue')
    {
      assert fields[..i + 1][..i] == fields[..i];
      match fields[i]
      case Stamp(t) =>
        time' := t;
      case Message(q) =>
        queue' := q;
        bytes' := c.handle(q, bytes');
        if q !in queues' {
          var qname := if c.ignoreByDefault then "" else q;
          if q in c.rename {
            qname := c.rename[q];
          }
          if qname != "" {
            queues' := queues'[q := qname];
          }
        }
    }
    assert fields[..|fields|] == fields;
  }

  lemma AskedMore(calls: seq<Call>, call: Call)
    ensures Asked(calls + [call]) == Asked(calls) + [call.deadline]
  {
  }

  /** LogReplay::Run. It asks its clock for exactly the sleeps the log calls for. */
  method Run(c: Config, log: seq<Entry>, clock: VirtualClock) returns (sends: seq<Send>, outcome: Outcome)
    requires clock.Valid() && clock.calls == [] && clock.now == c.start
    modifies clock
    ensures clock.Valid() && Sequential(c.start, clock.calls)
    ensures outcome == Finished ==> Asked(clock.calls) == Requests(c, log, |log|)
    ensures outcome == Finished ==> Intact(c, log, |log|) && sends == Sends(c, log, |log|)
    ensures outcome == Finished ==> clock.now == ClockAt(c, log, |log|)
    ensures outcome == Fatal ==>
              exists i :: 0 < i <= |log| && Intact(c, log, i - 1) && Breaks(c, log, i) && sends == Sends(c, log, i - 1)
                          && (Asked(clock.calls) == Requests(c, log, i - 1) || Asked(clock.calls) == Requests(c, log, i))
  {
    sends, outcome := [], Finished;
    var curTime := clock.now;
    var msgTime := curTime;
    var queueName := "";
    var queues: map<string, string> := map[];
    for i := 0 to |log|
      invariant Intact(c, log, i) && sends == Sends(c, log, i) && outcome == Finished
      invariant curTime == clock.now == ClockAt(c, log, i)
      invariant clock.Valid() && Asked(clock.calls) == Requests(c, log, i)
      invariant msgTime == StampAt(c, log, i)
      invariant queueName == QueueAt(log, i) && QueuesOk(c, queues, queueName)
    {
      var entry := log[i];
      if |entry.fields| > 2 {
        assert Breaks(c, log, i + 1);
        return sends, Fatal;
      }
      var bytes;
      bytes, msgTime, queueName, queues := TakeFields(c, entry.fields, entry.bytes, msgTime, queueName, queues);
      if msgTime as real / 1000000000.0 < c.skipBefore {
        continue;
      }
      if msgTime > curTime {
        ghost var calls := clock.calls;
        clock.SleepUntil(msgTime);
        AskedMore(calls, Call(curTime, msgTime, clock.now));
        curTime := clock.now;
      }
      if queueName in c.rename && c.rename[queueName] != queueName {
        if !(c.rename[queueName] in c.known && queueName in c.known) {
          assert Breaks(c, log, i + 1);
          return sends, Fatal;
        }
        bytes := c.move(queueName, c.rename[queueName], bytes);
      }
      if queueName != "" && queueName in queues {
        sends := sends + [Send(clock.now, queues[queueName], bytes)];
      }
    }
  }

  // ---------------------------------------------------------------- what the schedule means

  /** Record `i` is not before the replay window: its time in nanoseconds has come to the flag's seconds. */
  predicate InWindow(c: Config, log: seq<Entry>, i: nat)
    requires 0 < i <= |log|
  {
    StampAt(c, log, i) as real >= c.skipBefore * 1000000000.0
  }

  lemma WindowExactly(c: Config, log: seq<Entry>, i: nat)
    requires 0 < i <= |log|
    ensures Skipped(c, log, i) <==> !InWindow(c, log, i)
  {
    var t := StampAt(c, log, i) as real;
    assert (t / 1000000000.0) * 1000000000.0 == t;
  }

  /** `t` is the largest of the start time and the stamps of the records in the window up to `i`. */
  predicate LatestStamp(c: Config, log: seq<Entry>, i: nat, t: int)
    requires i <= |log|
  {
    && c.start <= t
    && (forall k :: 0 < k <= i && InWindow(c, log, k) ==> StampAt(c, log, k) <= t)
    && (t == c.start || exists k :: 0 < k <= i && InWindow(c, log, k) && StampAt(c, log, k) == t)
  }

  lemma {:induction false} ClockIsLatestStamp(c: Config, log: seq<Entry>, i: nat)
    requires i <= |log|
    ensures LatestStamp(c, log, i, ClockAt(c, log, i))
    decreases i
  {
    if i != 0 {
      ClockIsLatestStamp(c, log, i - 1);
      WindowExactly(c, log, i);
      hide InWindow, Skipped, StampAt;
    }
  }

  /** Which record each send came from. */
  function Origins(c: Config, log: seq<Entry>, i: nat): (o: seq<nat>)
    requires i <= |log|
    ensures |o| == |Sends(c, log, i)|
  {
    if i == 0 then []
    else
      var q, rest := QueueAt(log, i), Origins(c, log, i - 1);
      if Skipped(c, log, i) || q == "" || Target(c, q) == "" then rest else rest + [i]
  }

  /** Record `i` is in the window and has a queue that is replayed. */
  predicate Replayed(c: Config, log: seq<Entry>, i: nat)
    requires 0 < i <= |log|
  {
    InWindow(c, log, i) && QueueAt(log, i) != "" && Target(c, QueueAt(log, i)) != ""
  }

  lemma {:induction false} OriginsAscend(c: Config, log: seq<Entry>, n: nat)
    requires n <= |log|
    ensures forall a :: 0 <= a < |Origins(c, log, n)| ==> 0 < Origins(c, log, n)[a] <= n
    ensures forall a, b :: 0 <= a < b < |Origins(c, log, n)| ==> Origins(c, log, n)[a] < Origins(c, log, n)[b]
    decreases n
  {
    if n != 0 {
      OriginsAscend(c, log, n - 1);
    }
  }

  lemma {:induction false} OriginsExact(c: Config, log: seq<Entry>, n: nat, i: nat)
    requires 0 < i <= |log| && n <= |log|
    ensures i in Origins(c, log, n) <==> i <= n && Replayed(c, log, i)
    decreases n
  {
    if n != 0 {
      OriginsExact(c, log, n - 1, i);
      OriginsForm(c, log, n);
      hide *;
    } else {
      assert Origins(c, log, 0) == [];
    }
  }

  lemma OriginsForm(c: Config, log: seq<Entry>, n: nat)
    requires 0 < n <= |log|
    ensures Origins(c, log, n) == Origins(c, log, n - 1) + if Replayed(c, log, n) then [n] else []
  {
    WindowExactly(c, log, n);
    hide Skipped, InWindow, QueueAt, Target;
  }

  lemma {:induction false} SendTime(c: Config, log: seq<Entry>, n: nat, a: nat)
    requires n <= |log| && a < |Origins(c, log, n)|
    ensures 0 < Origins(c, log, n)[a] <= n
    ensures Sends(c, log, n)[a].time == ClockAt(c, log, Origins(c, log, n)[a])
    ensures Sends(c, log, n)[a].queue == Target(c, QueueAt(log, Origins(c, log, n)[a]))
    ensures Sends(c, log, n)[a].bytes == Outgoing(c, log, Origins(c, log, n)[a])
    decreases n
  {
    var rest := Origins(c, log, n - 1);
    if a < |rest| {
      SendTime(c, log, n - 1, a);
    }
  }

  /** Sends happen in file order, one for each replayed record and no others, each at the latest stamp
      so far: `origins` lists the replayed records in ascending order. */
  lemma ReplaySchedule(c: Config, log: seq<Entry>, n: nat)
    requires n <= |log|
    ensures var o, s := Origins(c, log, n), Sends(c, log, n);
      && |o| == |s|
      && (forall a, b :: 0 <= a < b < |o| ==> o[a] < o[b])
      && (forall i :: 0 < i <= n ==> (i in o <==> Replayed(c, log, i)))
      && (forall a :: 0 <= a < |o| ==> 0 < o[a] <= n && LatestStamp(c, log, o[a], s[a].time)
                                       && s[a].queue == Target(c, QueueAt(log, o[a]))
                                       && s[a].bytes == Outgoing(c, log, o[a]))
  {
    hide *;
    var o, s := Origins(c, log, n), Sends(c, log, n);
    OriginsAscend(c, log, n);
    forall i | 0 < i <= n
      ensures i in o <==> Replayed(c, log, i)
    {
      OriginsExact(c, log, n, i);
    }
    forall a | 0 <= a < |o|
      ensures 0 < o[a] <= n && LatestStamp(c, log, o[a], s[a].time)
      ensures s[a].queue == Target(c, QueueAt(log, o[a])) && s[a].bytes == Outgoing(c, log, o[a])
    {
      SendTime(c, log, n, a);
      ClockIsLatestStamp(c, log, o[a]);
    }
  }

  // ---------------------------------------------------------------- in runs of the fake clock

  lemma {:induction false} RequestsSetClock(c: Config, log: seq<Entry>, i: nat, calls: seq<Call>)
    requires i <= |log| && Sequential(c.start, calls) && Asked(calls) == Requests(c, log, i)
    ensures Now(c.start, calls) == ClockAt(c, log, i)
    decreases i
  {
    if i != 0 {
      if Requests(c, log, i) == Requests(c, log, i - 1) {
        RequestsSetClock(c, log, i - 1, calls);
      } else {
        var front := calls[..|calls| - 1];
        assert Asked(front) == Asked(calls)[..|calls| - 1] == Requests(c, log, i - 1);
        RequestsSetClock(c, log, i - 1, front);
        assert Asked(calls)[|calls| - 1] == StampAt(c, log, i);
      }
    }
  }

  /** In every run of the fake clock, beside any other threads: when the replay thread has made the calls
      of its first `i` records, the clock shows what the schedule says. */
  lemma ReplayOnFakeClock(s0: FakeClock.State, es: seq<FakeClock.Event>, t: nat, c: Config, log: seq<Entry>, i: nat)
    requires FakeClock.Init(s0) && ClockRuns.ValidRun(s0, es) && t < |s0.threads| && i <= |log|
    requires |ClockRuns.After(s0, es).threads| == |s0.threads| && ClockRuns.After(s0, es).threads[t].Running?
    requires ViewOf(s0, es, t).start == c.start && Asked(ViewOf(s0, es, t).calls) == Requests(c, log, i)
    ensures ClockRuns.After(s0, es).time == ClockAt(c, log, i)
  {
    hide *;
    ThreadSeesSequentialClock(s0, es, t);
    RunningView(ViewOf(s0, es, t), ClockRuns.After(s0, es).threads[t], ClockRuns.After(s0, es).time);
    RequestsSetClock(c, log, i, ViewOf(s0, es, t).calls);
  }

  /** Every prefix of the sleeps of a log is the sleeps of some of its first records. */
  lemma {:induction false} RequestsPrefix(c: Config, log: seq<Entry>, n: nat, asked: seq<int>) returns (i: nat)
    requires n <= |log| && asked <= Requests(c, log, n)
    ensures i <= n && asked == Requests(c, log, i)
    decreases n
  {
    if asked == Requests(c, log, n) {
      i := n;
    } else {
      assert |asked| < |Requests(c, log, n)|;
      i := RequestsPrefix(c, log, n - 1, asked);
    }
  }

  /** At any moment of any run at which the replay thread is not asleep, having made some of the sleeps of
      Run, the clock shows the schedule's time after some of the first records. */
  lemma ReplayMidway(s0: FakeClock.State, es: seq<FakeClock.Event>, t: nat, c: Config, log: seq<Entry>)
    returns (i: nat)
    requires FakeClock.Init(s0) && ClockRuns.ValidRun(s0, es) && t < |s0.threads|
    requires |ClockRuns.After(s0, es).threads| == |s0.threads| && ClockRuns.After(s0, es).threads[t].Running?
    requires ViewOf(s0, es, t).start == c.start && Asked(ViewOf(s0, es, t).calls) <= Requests(c, log, |log|)
    ensures i <= |log| && Asked(ViewOf(s0, es, t).calls) == Requests(c, log, i)
    ensures ClockRuns.After(s0, es).time == ClockAt(c, log, i)
  {
    hide *;
    i := RequestsPrefix(c, log, |log|, Asked(ViewOf(s0, es, t).calls));
    ReplayOnFakeClock(s0, es, t, c, log, i);
  }

  lemma RunningView(v: View, th: FakeClock.Thread, time: int)
    requires Faithful(v, th, time) && th.Running?
    ensures Sequential(v.start, v.calls) && Now(v.start, v.calls) == time
  {
  }
}
