/**
 The ring and its readers as the objects they are (ipc/message_queue.hpp): the header in shared memory,
 changed in place under its mutex, and the process-local queue handle with its cursor. Each method is
 proved to perform the corresponding step of the ring's value model.
 */
module RingObject {
  import opened Channel
  import opened Ring

  /** mq_hdr_t and the message slots. */
  class Header {
    const cap: nat
    const maxSize: nat
    const slots: array<Msg>
    var num: nat
    var first: nat

    ghost function Value(): Ring
      reads this, slots
    {
      Ring(cap, maxSize, slots[..], first, num)
    }

    constructor (cap: nat, maxSize: nat)
      requires cap > 0
      ensures this.cap == cap && this.maxSize == maxSize && fresh(slots)
      ensures Shaped(Value()) && Models(Value(), [])
    {
      this.cap, this.maxSize, num, first := cap, maxSize, 0, 0;
      slots := new Msg[cap];
    }

    /** end_index. */
    method OldestIndex() returns (i: nat)
      requires Shaped(Value())
      ensures i == EndIndex(Value())
    {
      var spaceUntilBufend := cap - first;
      var endPos := if spaceUntilBufend > num then first + num else num - spaceUntilBufend;
      i := if endPos != 0 then endPos - 1 else cap - 1;
    }

    /** insert_at_begin: the slot for the next message. */
    method InsertAtBegin() returns (slot: nat)
      requires Shaped(Value()) && num < cap
      modifies this
      ensures Shaped(Value()) && slot == first == StepDown(old(first), cap) && num == old(num) + 1
    {
      first := if first != 0 then first else cap;
      first := first - 1;
      num := num + 1;
      slot := first;
    }

    /** do_send; false stands for the size_error exception. */
    method DoSend(msg: Msg) returns (ok: bool)
      requires Shaped(Value())
      modifies this, slots
      ensures ok == (|msg| <= maxSize)
      ensures Value() == if ok then Send(old(Value()), msg) else old(Value())
    {
      if |msg| > maxSize {
        return false;
      }
      if num == cap {
        num := num - 1;
      }
      var slot := InsertAtBegin();
      slots[slot] := msg;
      return true;
    }
  }

  datatype Received = Got(msg: Msg) | Nothing | SizeError

  /** message_queue_t: one process's handle on a ring. */
  class Handle {
    const header: Header
    var cursor: nat

    constructor (header: Header)
      ensures this.header == header && cursor == 0
    {
      this.header, cursor := header, 0;
    }

    /** The tail of do_receive: step to the next message, clamp, copy out. */
    method TakeNext() returns (msg: Msg)
      requires Shaped(header.Value()) && header.num > 0 && cursor <= header.cap
      modifies this
      ensures cursor == Advance(header.Value(), old(cursor)) < header.cap
      ensures msg == header.slots[cursor]
    {
      cursor := if cursor != 0 then cursor - 1 else header.cap - 1;
      var oldest := header.OldestIndex();
      if oldest >= header.first {
        if cursor > oldest || cursor < header.first {
          cursor := oldest;
        }
      } else {
        if cursor > oldest && cursor < header.first {
          cursor := oldest;
        }
      }
      msg := header.slots[cursor];
    }

    /** do_receive, non-blocking. */
    method TryReceive(bufferSize: nat) returns (res: Received)
      requires Shaped(header.Value()) && cursor <= header.cap
      modifies this
      ensures res.SizeError? <==> bufferSize < header.maxSize
      ensures res.Got? <==> bufferSize >= header.maxSize && Ready(header.Value(), old(cursor))
      ensures res.Got? ==> cursor == Advance(header.Value(), old(cursor)) < header.cap
                           && res.msg == header.slots[cursor]
      ensures !res.Got? ==> cursor == old(cursor)
    {
      if bufferSize < header.maxSize {
        return SizeError;
      }
      if header.num == 0 || cursor == header.first {
        return Nothing;
      }
      var msg := TakeNext();
      res := Got(msg);
    }

    /** What do_receive does when its wait ends with a notification on a ring that is not empty. */
    method AfterWait() returns (msg: Msg)
      requires Shaped(header.Value()) && header.num > 0
      modifies this
      ensures cursor == Advance(header.Value(), header.first + 1) < header.cap
      ensures msg == header.slots[cursor]
    {
      cursor := header.first + 1;
      msg := TakeNext();
    }
  }

  /** A producer and a consumer on one ring, in code: after any backlog the consumer's next poll gives
      it the message the send log promises. */
  method SendThenPoll(header: Header, handle: Handle, msg: Msg, ghost log: seq<Msg>, ghost last: nat)
    returns (res: Received)
    requires Models(header.Value(), log) && handle.header == header && last <= |log|
    requires handle.cursor == Slot(last, header.cap) && |msg| <= header.maxSize
    modifies header, header.slots, handle
    ensures Models(header.Value(), log + [msg])
    ensures Wrap(|log| + 1 - last, header.cap) != 0 ==>
              var k := NextNumber(|log| + 1, last, header.cap);
              last < k <= |log| + 1 && res == Got((log + [msg])[k - 1]) && handle.cursor == Slot(k, header.cap)
    ensures Wrap(|log| + 1 - last, header.cap) == 0 ==> res == Nothing && handle.cursor == old(handle.cursor)
  {
    var ok := header.DoSend(msg);
    SendExtendsLog(old(header.Value()), log, msg);
    ReadyExactly(header.Value(), log + [msg], last);
    if Wrap(|log| + 1 - last, header.cap) != 0 {
      ReceiveExactly(header.Value(), log + [msg], last);
    }
    hide *;
    res := handle.TryReceive(header.maxSize);
  }
}
