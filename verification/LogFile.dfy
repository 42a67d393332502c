/**
 The log file (util/logger.cc, util/log-replay.cc): an 8-byte start time, then length-prefixed records
 appended by one handler thread per queue under a lock; and the reader of the replay program.
 */
module LogFile {
  import opened Bits

  type Msg = seq<Byte>

  /** Logger::MAX_BUF, the size of both the writer's and the reader's buffer. */
  const MAX_BUF: nat := 1024

  /** A record: two little-endian bytes of length, cut to 16 bits, and the message. */
  function Record(m: Msg): seq<Byte> {
    LeBytes(|m|, 2) + m
  }

  function Records(ms: seq<Msg>): seq<Byte> {
    if ms == [] then [] else Record(ms[0]) + Records(ms[1..])
  }

  function Header(startTime: nat): seq<Byte> {
    LeBytes(startTime, 8)
  }

  // ---------------------------------------------------------------- reading

  /** What one ReadLogMessage finds at the front of the remaining stream. */
  datatype Found = Message(msg: Msg, rest: seq<Byte>) | EndOfFile | TooLarge

  function ReadOne(s: seq<Byte>): Found {
    if |s| < 2 then EndOfFile
    else
      var len := LeValue(s[..2]);
      if len >= MAX_BUF then TooLarge
      else if |s| - 2 < len then EndOfFile
      else Message(s[2..2 + len], s[2 + len..])
  }

  /** Everything the reader gets out of a stream, and whether it came to an orderly end. */
  datatype Contents = Contents(msgs: seq<Msg>, orderly: bool)

  function ReadAll(s: seq<Byte>): Contents
    decreases |s|
  {
    match ReadOne(s)
    case EndOfFile => Contents([], true)
    case TooLarge => Contents([], false)
    case Message(m, rest) =>
      var more := ReadAll(rest);
      Contents([m] + more.msgs, more.orderly)
  }

  /** LogReplay's input stream. */
  class LogReader {
    const input: seq<Byte>
    var pos: nat
    var eof: bool

    constructor (input: seq<Byte>)
      ensures this.input == input && pos == 0 && !eof
    {
      this.input, pos, eof := input, 0, false;
    }

    /** ifstream::read: short at the end of the file, which it then notes. */
    method Read(n: nat) returns (bytes: seq<Byte>)
      requires pos <= |input| && !eof
      modifies this
      ensures pos <= |input| && eof == (|input| - old(pos) < n)
      ensures !eof ==> pos == old(pos) + n && bytes == input[old(pos)..pos]
    {
      if |input| - pos < n {
        bytes, pos, eof := input[pos..], |input|, true;
      } else {
        bytes, pos := input[pos..pos + n], pos + n;
      }
    }

    /** LogReplay::ReadLogMessage. */
    method ReadLogMessage() returns (found: Found)
      requires pos <= |input| && !eof
      modifies this
      ensures pos <= |input|
      ensures found == ReadOne(input[old(pos)..])
      ensures found.Message? ==> !eof && pos > old(pos) && found.rest == input[pos..]
    {
      ghost var s := input[pos..];
      var head := Read(2);
      if eof {
        return EndOfFile;
      }
      assert head == s[..2] && input[pos..] == s[2..];
      hide LeValue;
      var len := LeValue(head);
      if len >= MAX_BUF {
        return TooLarge;
      }
      var body := Read(len);
      if eof {
        return EndOfFile;
      }
      assert body == s[2..2 + len] && input[pos..] == s[2 + len..];
      return Message(body, input[pos..]);
    }

    /** The reading side of LogReplay::Run, after the header. */
    method ReadRecords() returns (msgs: seq<Msg>, orderly: bool)
      requires pos <= |input| && !eof
      modifies this
      ensures Contents(msgs, orderly) == ReadAll(input[old(pos)..])
    {
      hide *;
      msgs := [];
      ghost var all := ReadAll(input[pos..]);
      assert all == Contents([] + all.msgs, all.orderly);
      while true
        invariant pos <= |input| && !eof
        invariant all == Contents(msgs + ReadAll(input[pos..]).msgs, ReadAll(input[pos..]).orderly)
        decreases |input| - pos
      {
        ReadAllForm(input[pos..]);
        var found := ReadLogMessage();
        match found
        case EndOfFile =>
          assert msgs + [] == msgs;
          return msgs, true;
        case TooLarge =>
          assert msgs + [] == msgs;
          return msgs, false;
        case Message(m, _) =>
          assert msgs + ([m] + ReadAll(input[pos..]).msgs) == (msgs + [m]) + ReadAll(input[pos..]).msgs;
          msgs := msgs + [m];
      }
    }
  }

  // ---------------------------------------------------------------- reading what was written

  lemma LengthRead(m: Msg)
    requires |m| <= 1024
    ensures LeValue(LeBytes(|m|, 2)) == |m|
  {
    assert Pow2(11) == 2048;
    Pow2Mono(11, 16);
    hide *;
    LeRoundTrip(|m|, 2);
    LowFits(|m|, 16);
  }

  /** A record at the front of a stream is read back, or refused if it fills the buffer exactly. */
  lemma ReadRecord(m: Msg, rest: seq<Byte>)
    requires |m| <= MAX_BUF
    ensures ReadOne(Record(m) + rest) == if |m| < MAX_BUF then Message(m, rest) else TooLarge
  {
    LengthRead(m);
    var s := Record(m) + rest;
    assert s[..2] == LeBytes(|m|, 2);
    hide LeBytes, LeValue;
    assert s[2..2 + |m|] == m && s[2 + |m|..] == rest;
  }

  /** The messages before the first one that is too large for the reader. */
  function Readable(ms: seq<Msg>): seq<Msg> {
    if ms == [] || |ms[0]| >= MAX_BUF then [] else [ms[0]] + Readable(ms[1..])
  }

  /** Reading back a whole log gives exactly what was written if and only if every message is smaller
      than the buffer; a message that fills it stops the reader there. */
  lemma {:induction false} RoundTrip(ms: seq<Msg>)
    requires forall i :: 0 <= i < |ms| ==> |ms[i]| <= MAX_BUF
    ensures ReadAll(Records(ms)) == Contents(Readable(ms), AllShort(ms))
    ensures Readable(ms) == ms <==> AllShort(ms)
    decreases |ms|
  {
    if ms != [] {
      ReadRecord(ms[0], Records(ms[1..]));
      RoundTrip(ms[1..]);
      hide Record, ReadOne;
      assert ms == [ms[0]] + ms[1..];
      assert AllShort(ms) <==> |ms[0]| < MAX_BUF && AllShort(ms[1..]);
    }
  }

  // ---------------------------------------------------------------- truncated logs

  /** No message fills the reader's buffer of 1024 bytes. */
  predicate AllShort(ms: seq<Msg>) {
    forall i :: 0 <= i < |ms| ==> |ms[i]| < 1024
  }

  /** How many of the records fit whole into the first `k` bytes of the stream. */
  function WholeIn(ms: seq<Msg>, k: nat): (n: nat)
    ensures n <= |ms|
    decreases |ms|
  {
    if ms == [] || |Record(ms[0])| > k then 0 else 1 + WholeIn(ms[1..], k - |Record(ms[0])|)
  }

  /** It is the largest number: n records end within k bytes exactly when n is at most WholeIn. */
  lemma {:induction false} WholeInIsLargest(ms: seq<Msg>, k: nat, n: nat)
    requires n <= |ms|
    ensures |Records(ms[..n])| <= k <==> n <= WholeIn(ms, k)
    decreases |ms|
  {
    if n != 0 {
      assert ms[..n][1..] == ms[1..][..n - 1];
      hide Record;
      assert Records(ms[..n]) == Record(ms[0]) + Records(ms[1..][..n - 1]);
      if |Record(ms[0])| <= k {
        WholeInIsLargest(ms[1..], k - |Record(ms[0])|, n - 1);
      }
    }
  }

  lemma ReadCutRecord(m: Msg, rest: seq<Byte>, k: nat)
    requires |m| < MAX_BUF && k < |Record(m)|
    ensures ReadOne((Record(m) + rest)[..k]) == EndOfFile
  {
    LengthRead(m);
    var s := (Record(m) + rest)[..k];
    if k >= 2 {
      assert s[..2] == LeBytes(|m|, 2);
    }
    hide LeBytes, LeValue;
  }

  /** However the file was cut off, the reader gets the longest prefix of whole records, in an orderly
      way. */
  lemma {:induction false} TruncatedRead(ms: seq<Msg>, k: nat)
    requires k <= |Records(ms)| && AllShort(ms)
    ensures ReadAll(Records(ms)[..k]) == Contents(ms[..WholeIn(ms, k)], true)
    decreases |ms|
  {
    hide *;
    if ms == [] {
      NothingLeft(k);
    } else {
      var r, rest := Record(ms[0]), Records(ms[1..]);
      RecordsForm(ms, k);
      if |r| > k {
        ReadCutRecord(ms[0], rest, k);
        ReadAllForm((r + rest)[..k]);
      } else {
        var j := k - |r|;
        TakeSecond(r, rest, k);
        ReadRecord(ms[0], rest[..j]);
        TruncatedRead(ms[1..], j);
        ReadAllForm(r + rest[..j]);
        assert ms[..1 + WholeIn(ms[1..], j)] == [ms[0]] + ms[1..][..WholeIn(ms[1..], j)];
      }
    }
  }

  lemma NothingLeft(k: nat)
    requires k <= |Records([])|
    ensures ReadAll(Records([])[..k]) == Contents([], true) && WholeIn([], k) == 0
  {
    assert ReadOne([]) == EndOfFile;
  }

  lemma RecordsForm(ms: seq<Msg>, k: nat)
    requires ms != [] && AllShort(ms)
    ensures Records(ms) == Record(ms[0]) + Records(ms[1..]) && |ms[0]| < MAX_BUF && AllShort(ms[1..])
    ensures WholeIn(ms, k) == if |Record(ms[0])| > k then 0 else 1 + WholeIn(ms[1..], k - |Record(ms[0])|)
  {
  }

  lemma ReadAllForm(s: seq<Byte>)
    ensures ReadOne(s).EndOfFile? ==> ReadAll(s) == Contents([], true)
    ensures ReadOne(s).TooLarge? ==> ReadAll(s) == Contents([], false)
    ensures ReadOne(s).Message? ==>
              var more := ReadAll(ReadOne(s).rest);
              ReadAll(s) == Contents([ReadOne(s).msg] + more.msgs, more.orderly)
  {
    hide ReadOne;
  }

  lemma TakeSecond(a: seq<Byte>, b: seq<Byte>, k: nat)
    requires |a| <= k <= |a + b|
    ensures (a + b)[..k] == a + b[..k - |a|]
  {
  }

  lemma {:induction false} RecordsAppend(ms: seq<Msg>, m: Msg)
    ensures Records(ms + [m]) == Records(ms) + Record(m)
    decreases |ms|
  {
    hide Record;
    if ms == [] {
      assert ms + [m] == [m] && [m][1..] == [];
      assert Records([m]) == Record(m) + Records([]);
    } else {
      assert (ms + [m])[1..] == ms[1..] + [m];
      RecordsAppend(ms[1..], m);
    }
  }

  lemma HeaderRoundTrip(startTime: nat, rest: seq<Byte>)
    requires startTime < Pow2(64)
    ensures |Header(startTime)| == 8 && LeValue((Header(startTime) + rest)[..8]) == startTime
  {
    assert |Header(startTime)| == 8;
    assert (Header(startTime) + rest)[..8] == Header(startTime);
    HeaderIs(startTime);
    hide *;
    LeRoundTrip(startTime, 8);
    LowFits(startTime, 64);
  }

  lemma HeaderIs(startTime: nat)
    ensures Header(startTime) == LeBytes(startTime, 8)
  {
  }
}
