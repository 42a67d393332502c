/**
 NMEA 2000 fast packets (can/can.cc, can/canboat-pgn.h): a payload of up to 223 bytes travels as
 numbered frames, 6 payload bytes in frame 0 and 7 in each later one, and the receiver stores every
 frame straight at its place in the message buffer.
 */
module FastPacket {
  import opened Bits

  /** The 5-bit index in the first byte of a frame. */
  function Index(frame: seq<Byte>): nat
    requires |frame| > 0
  {
    frame[0] % 32
  }

  function DataStart(index: nat): nat {
    if index == 0 then 0 else 7 * index - 1
  }

  /** The payload bytes of a frame: frame 0 spends a second header byte on the length. */
  function Body(frame: seq<Byte>): seq<Byte>
    requires |frame| > 0 && (Index(frame) == 0 ==> |frame| > 1)
  {
    if Index(frame) == 0 then frame[2..] else frame[1..]
  }

  /** A frame long enough for its header, landing inside the buffer. */
  predicate Storable(size: nat, frame: seq<Byte>) {
    && |frame| > 0 && (Index(frame) == 0 ==> |frame| > 1)
    && DataStart(Index(frame)) + |Body(frame)| <= size
  }

  /** The buffer after a frame has been stored in it. */
  function Placed(buf: seq<Byte>, frame: seq<Byte>): (r: seq<Byte>)
    requires Storable(|buf|, frame)
    ensures |r| == |buf|
  {
    var at := DataStart(Index(frame));
    buf[..at] + Body(frame) + buf[at + |Body(frame)|..]
  }

  /** The store in CanNode::Iterate for a multi-frame message; also returns the sequence prefix. */
  method StoreFrame(buf: array<Byte>, frame: seq<Byte>) returns (prefix: nat)
    requires Storable(buf.Length, frame)
    modifies buf
    ensures buf[..] == Placed(old(buf[..]), frame)
    ensures prefix + Index(frame) == frame[0] && prefix % 32 == 0
  {
    var index := frame[0] % 32;
    prefix := frame[0] - index;
    var dataStart := if index == 0 then 0 else index * 7 - 1;
    var data := frame[1..];
    if index == 0 {
      data := data[1..];
    }
    CopyAt(buf, dataStart, data);
  }

  /** The byte-copy loop. */
  method CopyAt(buf: array<Byte>, at: nat, data: seq<Byte>)
    requires at + |data| <= buf.Length
    modifies buf
    ensures buf[..] == old(buf[..at]) + data + old(buf[at + |data|..])
  {
    for i := 0 to |data|
      invariant forall k :: 0 <= k < i ==> buf[at + k] == data[k]
      invariant forall k :: 0 <= k < buf.Length && !(at <= k < at + i) ==> buf[k] == old(buf[k])
    {
      buf[at + i] := data[i];
    }
    assert buf[at..at + |data|] == data;
  }

  // ---------------------------------------------------------------- the frames of a payload

  /** The number of frames a payload needs. */
  function FrameCount(len: nat): nat {
    len / 7 + 1
  }

  /** The frame that carries payload byte `j`. */
  function Carrier(j: nat): nat {
    (j + 1) / 7
  }

  /** The payload bytes a frame has room for. */
  function Room(index: nat): nat {
    if index == 0 then 6 else 7
  }

  /** The part of the payload that frame `i` carries: all it has room for, or what is left. */
  function Share(payload: seq<Byte>, i: nat): (s: seq<Byte>)
    requires i < FrameCount(|payload|)
    ensures |s| <= Room(i)
  {
    var at := DataStart(i);
    payload[at..if at + Room(i) <= |payload| then at + Room(i) else |payload|]
  }

  /** A frame of the payload: behind its header comes its share, and then, room permitting, anything. */
  predicate Carries(frame: seq<Byte>, payload: seq<Byte>) {
    && |frame| > 0 && (Index(frame) == 0 ==> |frame| > 1)
    && Index(frame) < FrameCount(|payload|)
    && |Body(frame)| <= Room(Index(frame)) && Share(payload, Index(frame)) <= Body(frame)
  }

  /** Frames of one payload, in any order and number, all landing inside a buffer. */
  predicate Arrivals(size: nat, payload: seq<Byte>, frames: seq<seq<Byte>>) {
    forall k :: 0 <= k < |frames| ==> Carries(frames[k], payload) && Storable(size, frames[k])
  }

  /** The buffer after the frames have arrived, in that order. */
  function Received(buf: seq<Byte>, payload: seq<Byte>, frames: seq<seq<Byte>>): (r: seq<Byte>)
    requires Arrivals(|buf|, payload, frames)
    ensures |r| == |buf|
  {
    if frames == [] then buf
    else Placed(Received(buf, payload, frames[..|frames| - 1]), frames[|frames| - 1])
  }

  predicate Seen(frames: seq<seq<Byte>>, i: nat) {
    exists k :: 0 <= k < |frames| && IsIndex(frames[k], i)
  }

  predicate IsIndex(frame: seq<Byte>, i: nat) {
    |frame| > 0 && Index(frame) == i
  }

  /** Where the last frame's room ends: the only bytes past the payload that are ever written lie before. */
  function LastEnd(len: nat): nat {
    DataStart(FrameCount(len) - 1) + Room(FrameCount(len) - 1)
  }

  /** What storing one frame does to byte `j` of the buffer. */
  lemma PlacedByte(buf: seq<Byte>, payload: seq<Byte>, frame: seq<Byte>, j: nat)
    requires Carries(frame, payload) && Storable(|buf|, frame) && |payload| <= |buf| && j < |buf|
    ensures var b := Placed(buf, frame)[j];
      && (j < |payload| ==> b == if Index(frame) == Carrier(j) then payload[j] else buf[j])
      && (j >= |payload| && (Index(frame) != FrameCount(|payload|) - 1 || j >= LastEnd(|payload|)) ==> b == buf[j])
  {
    var i := Index(frame);
    var at, body, share := DataStart(i), Body(frame), Share(payload, i);
    Tiles(|payload|, i, j);
    assert share <= body;
    assert at <= j < at + |share| ==> body[j - at] == share[j - at] == payload[j];
    hide Carrier, FrameCount, Index, Body;
  }

  /** The rooms of the frames tile the payload: byte j lies in the room of its carrier and of no other frame,
      and only the last frame's room reaches past the payload. */
  lemma Tiles(len: nat, i: nat, j: nat)
    requires i < FrameCount(len)
    ensures j < len ==> (Carrier(j) == i <==> DataStart(i) <= j < DataStart(i) + Room(i))
    ensures i != FrameCount(len) - 1 ==> DataStart(i) + Room(i) <= len
    ensures len <= LastEnd(len)
  {
  }

  /** At every moment, whatever frames have arrived, in whatever order, however often repeated and however
      padded: the payload bytes of the frames seen are in place, those of the others are untouched, and so
      is everything past the last frame's room, or past the payload while the last frame is missing. */
  lemma {:induction false} ReceivedByte(buf: seq<Byte>, payload: seq<Byte>, frames: seq<seq<Byte>>, j: nat)
    requires Arrivals(|buf|, payload, frames) && |payload| <= |buf| && j < |buf|
    ensures var b := Received(buf, payload, frames)[j];
      && (j < |payload| ==> b == if Seen(frames, Carrier(j)) then payload[j] else buf[j])
      && (j >= |payload| && (!Seen(frames, FrameCount(|payload|) - 1) || j >= LastEnd(|payload|)) ==>
            b == buf[j])
    decreases |frames|
  {
    if frames != [] {
      var front, last := frames[..|frames| - 1], frames[|frames| - 1];
      ReceivedByte(buf, payload, front, j);
      PlacedByte(Received(buf, payload, front), payload, last, j);
      assert Carries(last, payload);
      hide Placed, Carries, Storable, Carrier, FrameCount, LastEnd;
      SeenMore(frames, Carrier(j));
      SeenMore(frames, FrameCount(|payload|) - 1);
    }
  }

  lemma SeenMore(frames: seq<seq<Byte>>, i: nat)
    requires frames != [] && |frames[|frames| - 1]| > 0
    ensures Seen(frames, i) <==>
            Seen(frames[..|frames| - 1], i) || Index(frames[|frames| - 1]) == i
  {
    var front, n := frames[..|frames| - 1], |frames| - 1;
    if Seen(frames, i) {
      var k :| 0 <= k < |frames| && IsIndex(frames[k], i);
      assert k < n ==> IsIndex(front[k], i);
    }
    if Seen(front, i) {
      var k :| 0 <= k < |front| && IsIndex(front[k], i);
      assert IsIndex(frames[k], i);
    }
    if Index(frames[n]) == i {
      assert IsIndex(frames[n], i);
    }
  }

  /** Once every index has arrived the buffer starts with exactly the payload. */
  lemma Reassembly(buf: seq<Byte>, payload: seq<Byte>, frames: seq<seq<Byte>>)
    requires Arrivals(|buf|, payload, frames) && |payload| <= |buf|
    requires forall i :: 0 <= i < FrameCount(|payload|) ==> Seen(frames, i)
    ensures var r := Received(buf, payload, frames);
      r[..|payload|] == payload && forall j :: LastEnd(|payload|) <= j < |buf| ==> r[j] == buf[j]
  {
    var r := Received(buf, payload, frames);
    forall j | 0 <= j < |buf|
      ensures (j < |payload| ==> r[j] == payload[j]) && (j >= LastEnd(|payload|) ==> r[j] == buf[j])
    {
      ReceivedByte(buf, payload, frames, j);
      if j < |payload| {
        assert Carrier(j) < FrameCount(|payload|);
      }
      Tiles(|payload|, 0, j);
    }
    hide Received, Seen;
  }

  // ---------------------------------------------------------------- a sender

  /** The header of frame `i` under sequence counter `order`. */
  function Header(len: nat, order: nat, i: nat): (h: seq<Byte>)
    requires len <= 223 && order < 8 && i < 32
    ensures |h| == if i == 0 then 2 else 1
  {
    var first: Byte := 32 * order + i;
    var size: Byte := len;
    if i == 0 then [first, size] else [first]
  }

  /** Frame `i` of a payload, with `pad` behind its share. */
  function Fragment(payload: seq<Byte>, order: nat, i: nat, pad: seq<Byte>): (frame: seq<Byte>)
    requires |payload| <= 223 && order < 8 && i < FrameCount(|payload|)
    requires |Share(payload, i)| + |pad| <= Room(i)
  {
    Header(|payload|, order, i) + (Share(payload, i) + pad)
  }

  /** Cut short or filled up, it is a frame of the payload with index `i`. */
  lemma FragmentCarries(payload: seq<Byte>, order: nat, i: nat, pad: seq<Byte>)
    requires |payload| <= 223 && order < 8 && i < FrameCount(|payload|)
    requires |Share(payload, i)| + |pad| <= Room(i)
    ensures var frame := Fragment(payload, order, i, pad);
      Carries(frame, payload) && Index(frame) == i && Body(frame) == Share(payload, i) + pad
  {
    var head, rest := Header(|payload|, order, i), Share(payload, i) + pad;
    var frame := Fragment(payload, order, i, pad);
    assert frame == head + rest;
    FirstByte(order, i);
    assert frame[0] == 32 * order + i;
    assert Body(frame) == rest;
    hide Share, FrameCount, Header;
  }

  lemma FirstByte(order: nat, i: nat)
    requires order < 8 && i < 32
    ensures (32 * order + i) % 32 == i
  {
  }

  /** The frame filled up with 0xFF to eight bytes, as data field extra bytes shall be. */
  function Padded(payload: seq<Byte>, order: nat, i: nat): (frame: seq<Byte>)
    requires |payload| <= 223 && order < 8 && i < FrameCount(|payload|)
    ensures |frame| == 8
  {
    Fragment(payload, order, i, seq(Room(i) - |Share(payload, i)|, _ => 0xFF))
  }

  function PaddedFrames(payload: seq<Byte>, order: nat, indices: seq<nat>): (frames: seq<seq<Byte>>)
    requires |payload| <= 223 && order < 8 && forall k :: 0 <= k < |indices| ==> indices[k] < FrameCount(|payload|)
    ensures |frames| == |indices|
  {
    seq(|indices|, k requires 0 <= k < |indices| => Padded(payload, order, indices[k]))
  }

  /** A payload sent in padded frames, received in any order with any repeats, comes out whole. */
  lemma PaddedReassembly(buf: seq<Byte>, payload: seq<Byte>, order: nat, indices: seq<nat>)
    requires |payload| <= 223 && order < 8 && LastEnd(|payload|) <= |buf|
    requires forall k :: 0 <= k < |indices| ==> indices[k] < FrameCount(|payload|)
    requires forall i :: 0 <= i < FrameCount(|payload|) ==> i in indices
    ensures var frames := PaddedFrames(payload, order, indices);
      Arrivals(|buf|, payload, frames) && Received(buf, payload, frames)[..|payload|] == payload
  {
    hide *;
    var frames := PaddedFrames(payload, order, indices);
    forall k | 0 <= k < |indices|
      ensures Carries(frames[k], payload) && Storable(|buf|, frames[k]) && IsIndex(frames[k], indices[k])
    {
      PaddedAt(payload, order, indices, k);
      PaddedArrives(|buf|, payload, order, indices[k]);
    }
    forall i | 0 <= i < FrameCount(|payload|)
      ensures Seen(frames, i)
    {
      assert i in indices;
      var k :| 0 <= k < |indices| && indices[k] == i;
      SeenAt(frames, k, i);
    }
    ArrivalsFrom(|buf|, payload, frames);
    RoomReaches(|payload|);
    Reassembly(buf, payload, frames);
  }

  lemma RoomReaches(len: nat)
    ensures len <= LastEnd(len)
  {
  }

  lemma PaddedAt(payload: seq<Byte>, order: nat, indices: seq<nat>, k: nat)
    requires |payload| <= 223 && order < 8 && k < |indices|
    requires forall k :: 0 <= k < |indices| ==> indices[k] < FrameCount(|payload|)
    ensures PaddedFrames(payload, order, indices)[k] == Padded(payload, order, indices[k])
  {
    hide Padded, FrameCount;
  }

  lemma SeenAt(frames: seq<seq<Byte>>, k: nat, i: nat)
    requires k < |frames| && IsIndex(frames[k], i)
    ensures Seen(frames, i)
  {
    hide IsIndex;
  }

  lemma ArrivalsFrom(size: nat, payload: seq<Byte>, frames: seq<seq<Byte>>)
    requires forall k :: 0 <= k < |frames| ==> Carries(frames[k], payload) && Storable(size, frames[k])
    ensures Arrivals(size, payload, frames)
  {
    hide Carries, Storable;
  }

  lemma PaddedArrives(size: nat, payload: seq<Byte>, order: nat, i: nat)
    requires |payload| <= 223 && order < 8 && i < FrameCount(|payload|) && LastEnd(|payload|) <= size
    ensures var frame := Padded(payload, order, i);
      Carries(frame, payload) && Storable(size, frame) && IsIndex(frame, i)
  {
    FragmentCarries(payload, order, i, seq(Room(i) - |Share(payload, i)|, _ => 0xFF));
    Tiles(|payload|, i, 0);
    hide Fragment, Share, Index;
  }

  /** The buffer allocated for a message of `len` bytes. */
  function BufferSize(len: nat): nat {
    (len / 8 + 1) * 8
  }

  /** It has room for every padded frame exactly when it has room for the last one. */
  lemma PaddedFit(payload: seq<Byte>, order: nat)
    requires |payload| <= 223 && order < 8
    ensures (forall i :: 0 <= i < FrameCount(|payload|) ==> Storable(BufferSize(|payload|), Padded(payload, order, i)))
       <==> LastEnd(|payload|) <= BufferSize(|payload|)
  {
    var last := FrameCount(|payload|) - 1;
    if LastEnd(|payload|) <= BufferSize(|payload|) {
      forall i | 0 <= i < FrameCount(|payload|)
        ensures Storable(BufferSize(|payload|), Padded(payload, order, i))
      {
        PaddedArrives(BufferSize(|payload|), payload, order, i);
      }
    } else {
      FragmentCarries(payload, order, last, seq(Room(last) - |Share(payload, last)|, _ => 0xFF));
      assert !Storable(BufferSize(|payload|), Padded(payload, order, last));
    }
    hide Padded, Share, Storable, BufferSize;
  }
}
