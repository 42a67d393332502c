/**
 What log replay (util/log-replay.cc) comes to, apart from how its loop is written: which time stamp a
 record counts under, which records are in the replay window, and where renamed queues go.
 */
module ReplayLaws {
  import opened Bits
  import opened Replay

  /** Field `f` is the last time stamp among the fields of a record. */
  predicate LastIn(fields: seq<LogField>, f: nat) {
    f < |fields| && fields[f].Stamp? && forall g :: f < g < |fields| ==> !fields[g].Stamp?
  }

  /** The last time stamp in the first `i` records is field `f` of record `k`. */
  predicate LastStampIs(log: seq<Entry>, i: nat, k: nat, f: nat)
    requires i <= |log|
  {
    0 < k <= i && LastIn(log[k - 1].fields, f) && NoStamps(log, k, i)
  }

  /** None of the records after the first `k`, up to the first `i`, has a time stamp. */
  predicate NoStamps(log: seq<Entry>, k: nat, i: nat)
    requires i <= |log|
  {
    forall m :: k <= m < i ==> Unstamped(log[m].fields)
  }

  predicate Unstamped(fields: seq<LogField>) {
    forall g :: 0 <= g < |fields| ==> !fields[g].Stamp?
  }

  lemma {:induction false} LastOfFields(fields: seq<LogField>, before: int, f: nat)
    requires LastIn(fields, f)
    ensures LastStamp(fields, before) == fields[f].nanos
    decreases |fields|
  {
    if f < |fields| - 1 {
      LastOfFields(fields[..|fields| - 1], before, f);
    }
  }

  lemma {:induction false} UnstampedKeeps(fields: seq<LogField>, before: int)
    requires Unstamped(fields)
    ensures LastStamp(fields, before) == before
    decreases |fields|
  {
    if fields != [] {
      UnstampedKeeps(fields[..|fields| - 1], before);
    }
  }

  /** A record without a time stamp counts under the last one before it in the file. */
  lemma {:induction false} StampIsLast(c: Config, log: seq<Entry>, i: nat, k: nat, f: nat)
    requires i <= |log| && LastStampIs(log, i, k, f)
    ensures StampAt(c, log, i) == log[k - 1].fields[f].nanos
    decreases i
  {
    if k == i {
      LastOfFields(log[i - 1].fields, StampAt(c, log, i - 1), f);
    } else {
      StampIsLast(c, log, i - 1, k, f);
      UnstampedKeeps(log[i - 1].fields, StampAt(c, log, i - 1));
    }
  }

  /** And under the start time if there is none. */
  lemma {:induction false} StampIsStart(c: Config, log: seq<Entry>, i: nat)
    requires i <= |log| && NoStamps(log, 0, i)
    ensures StampAt(c, log, i) == c.start
    decreases i
  {
    if i != 0 {
      StampIsStart(c, log, i - 1);
      UnstampedKeeps(log[i - 1].fields, StampAt(c, log, i - 1));
    }
  }

  /** None of the records after the first `k`, up to the first `i`, has a message. */
  predicate NoMessages(log: seq<Entry>, k: nat, i: nat)
    requires i <= |log|
  {
    forall m :: k <= m < i ==> Unnamed(log[m].fields)
  }

  predicate Unnamed(fields: seq<LogField>) {
    forall g :: 0 <= g < |fields| ==> !fields[g].Message?
  }

  /** Field `f` is the last message among the fields of a record. */
  predicate LastNamed(fields: seq<LogField>, f: nat) {
    f < |fields| && fields[f].Message? && forall g :: f < g < |fields| ==> !fields[g].Message?
  }

  lemma {:induction false} NameOfFields(fields: seq<LogField>, before: string, f: nat)
    requires LastNamed(fields, f)
    ensures LastQueue(fields, before) == fields[f].queue
    decreases |fields|
  {
    if f < |fields| - 1 {
      NameOfFields(fields[..|fields| - 1], before, f);
    }
  }

  lemma {:induction false} UnnamedKeeps(fields: seq<LogField>, before: string)
    requires Unnamed(fields)
    ensures LastQueue(fields, before) == before
    decreases |fields|
  {
    if fields != [] {
      UnnamedKeeps(fields[..|fields| - 1], before);
    }
  }

  /** A record without a message counts under the queue of the last message before it in the file. */
  lemma {:induction false} QueueIsLast(log: seq<Entry>, i: nat, k: nat, f: nat)
    requires 0 < k <= i <= |log| && LastNamed(log[k - 1].fields, f) && NoMessages(log, k, i)
    ensures QueueAt(log, i) == log[k - 1].fields[f].queue
    decreases i
  {
    if k == i {
      NameOfFields(log[i - 1].fields, QueueAt(log, i - 1), f);
    } else {
      QueueIsLast(log, i - 1, k, f);
      UnnamedKeeps(log[i - 1].fields, QueueAt(log, i - 1));
    }
  }

  /** And under none if there is none. */
  lemma {:induction false} QueueIsNone(log: seq<Entry>, i: nat)
    requires i <= |log| && NoMessages(log, 0, i)
    ensures QueueAt(log, i) == ""
    decreases i
  {
    if i != 0 {
      QueueIsNone(log, i - 1);
      UnnamedKeeps(log[i - 1].fields, QueueAt(log, i - 1));
    }
  }

  /** With the flag at zero, its default, or below, and no time before the epoch, nothing is skipped. */
  lemma DefaultReplaysAll(c: Config, log: seq<Entry>, i: nat)
    requires 0 < i <= |log| && c.skipBefore <= 0.0 && StampAt(c, log, i) >= 0
    ensures Replayed(c, log, i) <==> QueueAt(log, i) != "" && Target(c, QueueAt(log, i)) != ""
  {
    hide StampAt, QueueAt, Target;
  }

  /** Raising the flag only removes records from the replay. */
  lemma LaterFlagReplaysLess(c: Config, flag: real, log: seq<Entry>, i: nat)
    requires 0 < i <= |log| && c.skipBefore <= flag && Replayed(c.(skipBefore := flag), log, i)
    ensures Replayed(c, log, i)
  {
    SameStamps(c, flag, log, i);
    hide StampAt, QueueAt;
  }

  lemma {:induction false} SameStamps(c: Config, flag: real, log: seq<Entry>, i: nat)
    requires i <= |log|
    ensures StampAt(c.(skipBefore := flag), log, i) == StampAt(c, log, i)
    decreases i
  {
    if i != 0 {
      SameStamps(c, flag, log, i - 1);
    }
  }

  /** Plain replay: no renaming, nothing ignored, no compatibility handlers, the flag at its default. */
  ghost predicate PlainConfig(c: Config) {
    c.rename == map[] && !c.ignoreByDefault && c.skipBefore <= 0.0 && forall q, b :: c.handle(q, b) == b
  }

  /** A log of one stamped message a record, no time before the epoch. */
  predicate PlainLog(log: seq<Entry>) {
    forall i :: 0 <= i < |log| ==>
      && |log[i].fields| == 2 && log[i].fields[0].Stamp? && log[i].fields[0].nanos >= 0
      && log[i].fields[1].Message? && log[i].fields[1].queue != ""
  }

  lemma PlainRecord(c: Config, log: seq<Entry>, i: nat)
    requires PlainConfig(c) && PlainLog(log) && 0 < i <= |log|
    ensures var e := log[i - 1];
      && StampAt(c, log, i) == e.fields[0].nanos && QueueAt(log, i) == e.fields[1].queue
      && Target(c, QueueAt(log, i)) == e.fields[1].queue && Outgoing(c, log, i) == e.bytes
      && InWindow(c, log, i)
  {
    var fields := log[i - 1].fields;
    LastOfFields(fields, StampAt(c, log, i - 1), 0);
    assert fields[..2] == fields && fields[..1][..0] == [];
    assert LastQueue(fields, QueueAt(log, i - 1)) == fields[1].queue;
    HandledPlain(c, fields, log[i - 1].bytes);
    assert StampAt(c, log, i) == fields[0].nanos;
    hide StampAt, LastStamp, LastQueue, Handled;
  }

  lemma {:induction false} HandledPlain(c: Config, fields: seq<LogField>, bytes: seq<Byte>)
    requires PlainConfig(c)
    ensures Handled(c, fields, bytes) == bytes
    decreases |fields|
  {
    if fields != [] {
      HandledPlain(c, fields[..|fields| - 1], bytes);
    }
  }

  /** A send of record `i`: on its own queue, with its own bytes, at the latest stamp so far. */
  predicate SentAsIs(c: Config, log: seq<Entry>, i: nat, s: Send)
    requires PlainLog(log) && i < |log|
  {
    s.queue == log[i].fields[1].queue && s.bytes == log[i].bytes && LatestStamp(c, log, i + 1, s.time)
  }

  /** Then replay sends every record, in file order. */
  lemma {:induction false} PlainReplay(c: Config, log: seq<Entry>, n: nat)
    requires PlainConfig(c) && PlainLog(log) && n <= |log|
    ensures |Sends(c, log, n)| == n
    ensures forall i :: 0 <= i < n ==> SentAsIs(c, log, i, Sends(c, log, n)[i])
    decreases n
  {
    hide *;
    if n != 0 {
      PlainReplay(c, log, n - 1);
      PlainSend(c, log, n);
    } else {
      NoSends(c, log);
    }
  }

  lemma NoSends(c: Config, log: seq<Entry>)
    ensures Sends(c, log, 0) == []
  {
  }

  lemma PlainSend(c: Config, log: seq<Entry>, n: nat)
    requires PlainConfig(c) && PlainLog(log) && 0 < n <= |log|
    ensures exists s :: Sends(c, log, n) == Sends(c, log, n - 1) + [s] && SentAsIs(c, log, n - 1, s)
  {
    PlainRecord(c, log, n);
    WindowExactly(c, log, n);
    ClockIsLatestStamp(c, log, n);
    var e := log[n - 1];
    assert e.fields[1].queue != "";
    var s := Send(ClockAt(c, log, n), e.fields[1].queue, e.bytes);
    hide InWindow, Skipped, LatestStamp, ClockAt, QueueAt, Target, Outgoing, PlainConfig;
    assert Sends(c, log, n) == Sends(c, log, n - 1) + [s];
  }

  /** A queue renamed to another is sent there, its message moved to the other field; one renamed to nothing is
      not sent; and when other queues are ignored, only renamed ones are sent. */
  lemma RenamedReplay(c: Config, log: seq<Entry>, i: nat, to: string)
    requires 0 < i <= |log| && QueueAt(log, i) in c.rename && c.rename[QueueAt(log, i)] == to
    ensures Replayed(c, log, i) <==> InWindow(c, log, i) && QueueAt(log, i) != "" && to != ""
    ensures Target(c, QueueAt(log, i)) == to
    ensures to != QueueAt(log, i) ==>
              Outgoing(c, log, i) == c.move(QueueAt(log, i), to, Handled(c, log[i - 1].fields, log[i - 1].bytes))
  {
    hide QueueAt, InWindow, Handled;
  }

  lemma IgnoredReplay(c: Config, log: seq<Entry>, i: nat)
    requires 0 < i <= |log| && QueueAt(log, i) !in c.rename
    ensures Replayed(c, log, i) ==> !c.ignoreByDefault && Target(c, QueueAt(log, i)) == QueueAt(log, i)
    ensures Outgoing(c, log, i) == Handled(c, log[i - 1].fields, log[i - 1].bytes)
  {
    hide QueueAt, InWindow, Handled;
  }

  /** A record stops the process if and only if it has more than two fields, or is in the window and renamed to
      another name where the old or the new name is not a field of the log entry. */
  lemma BreaksExactly(c: Config, log: seq<Entry>, i: nat)
    requires 0 < i <= |log|
    ensures var q := QueueAt(log, i);
      Breaks(c, log, i) <==>
        || |log[i - 1].fields| > 2
        || (InWindow(c, log, i) && q in c.rename && c.rename[q] != q && (q !in c.known || c.rename[q] !in c.known))
  {
    WindowExactly(c, log, i);
    hide QueueAt, InWindow, Skipped;
  }

  /** So a plain replay runs to its end. */
  lemma PlainNeverBreaks(c: Config, log: seq<Entry>)
    requires PlainConfig(c) && PlainLog(log)
    ensures Intact(c, log, |log|)
  {
    hide QueueAt, InWindow, Skipped;
    forall i | 0 < i <= |log|
      ensures !Breaks(c, log, i)
    {
      BreaksExactly(c, log, i);
    }
  }
}
