/**
 The test queue as objects (ipc/test_queue.cc, ipc/test_queue.h): the shared entry of the queue table
 and the instances that read and write it. Each method is the code under one hold of the table's mutex,
 and is proved to perform the step of the same name of the state machine.
 */
module TestQueueObject {
  import opened Channel
  import opened TestQueue

  /** TestQueue::QueueData. `hasData` says whether the buffer has been allocated. */
  class QueueData {
    var count: int
    var users: seq<int>
    var inc: nat
    var hasData: bool
    var data: Msg

    constructor ()
      ensures count == 0 && users == [] && inc == 0 && !hasData
    {
      count, users, inc, hasData, data := 0, [], 0, false, [];
    }

    /** The counter, the buffer and the users table are those of a state of the state machine. */
    ghost predicate Matches(s: System)
      reads this
    {
      inc == s.inc && users == s.users && |s.users| == |s.insts| && (s.inc > 0 ==> hasData && data == s.data)
    }

    /** The predicate of the wait in send. */
    method ReadersCaughtUp() returns (done: bool)
      ensures done <==> CaughtUp(users, inc)
    {
      for k := 0 to |users|
        invariant forall j :: 0 <= j < k ==> !(users[j] >= 0 && users[j] < inc)
      {
        if users[k] >= 0 && users[k] < inc {
          return false;
        }
      }
      return true;
    }
  }

  class Queue {
    const shared: QueueData
    const maxSize: nat
    const idx: nat
    var lastInc: nat

    /** This instance is instance `idx` of a state, and the shared entry is that state's. */
    ghost predicate Shows(s: System)
      reads this, shared
    {
      && shared.Matches(s) && maxSize == s.maxSize
      && idx < |s.insts| && lastInc == s.insts[idx].lastInc <= s.inc
    }

    /** Registration: a slot of the users table, marked as not reading. */
    constructor (shared: QueueData, maxSize: nat)
      modifies shared
      ensures this.shared == shared && this.maxSize == maxSize && lastInc == 0
      ensures idx == |old(shared.users)| && shared.users == old(shared.users) + [-1]
      ensures shared.count == old(shared.count) + 1
      ensures shared.inc == old(shared.inc) && shared.data == old(shared.data) && shared.hasData == old(shared.hasData)
      ensures forall s: System :: old(shared.Matches(s)) && s.maxSize == maxSize ==> Shows(Apply(s, Construct))
    {
      this.shared, this.maxSize, lastInc := shared, maxSize, 0;
      idx := |shared.users|;
      shared.count := shared.count + 1;
      shared.users := shared.users + [-1];
    }

    /** Destruction; `last` when the entry of the queue table is to be erased. */
    method Destroy() returns (last: bool)
      requires idx < |shared.users|
      modifies shared
      ensures shared.users == old(shared.users)[idx := -1] && shared.count == old(shared.count) - 1
      ensures last == (shared.count == 0)
      ensures shared.inc == old(shared.inc) && shared.data == old(shared.data) && shared.hasData == old(shared.hasData)
      ensures forall s: System :: old(Shows(s)) && Enabled(s, TestQueue.Destroy(idx)) ==> Shows(Apply(s, TestQueue.Destroy(idx)))
    {
      shared.count := shared.count - 1;
      shared.users := shared.users[idx := -1];
      last := shared.count == 0;
    }

    /** send, up to its wait. */
    method StartSend(msg: Msg) returns (number: nat)
      modifies shared
      ensures number == shared.inc == old(shared.inc) + 1
      ensures shared.hasData && shared.data == Cut(msg, maxSize)
      ensures shared.users == old(shared.users) && shared.count == old(shared.count)
      ensures forall s: System :: old(Shows(s)) && Enabled(s, TestQueue.StartSend(idx, msg)) ==>
                Shows(Apply(s, TestQueue.StartSend(idx, msg)))
    {
      shared.inc := shared.inc + 1;
      shared.hasData := true;
      var size := if |msg| < maxSize then |msg| else maxSize;
      shared.data := msg[..size];
      number := shared.inc;
    }

    /** receive, up to its wait. */
    method StartReceive()
      requires idx < |shared.users|
      modifies shared
      ensures shared.users == (if lastInc == 0 then old(shared.users)[idx := 0] else old(shared.users))
      ensures shared.inc == old(shared.inc) && shared.data == old(shared.data) && shared.hasData == old(shared.hasData)
      ensures shared.count == old(shared.count)
      ensures forall s: System :: old(Shows(s)) && Enabled(s, TestQueue.StartReceive(idx)) ==>
                Shows(Apply(s, TestQueue.StartReceive(idx)))
    {
      if lastInc == 0 {
        shared.users := shared.users[idx := 0];
      }
    }

    /** receive, once the counter differs from the last number received. */
    method FinishReceive(size: nat) returns (ok: bool, msg: Msg)
      requires idx < |shared.users|
      modifies this, shared
      ensures shared.users == old(shared.users)[idx := shared.inc] && lastInc == shared.inc == old(shared.inc)
      ensures ok == shared.hasData && (ok ==> msg == Cut(shared.data, size))
      ensures shared.data == old(shared.data) && shared.hasData == old(shared.hasData)
      ensures shared.count == old(shared.count)
      ensures forall s: System :: old(Shows(s)) && Enabled(s, TestQueue.FinishReceive(idx, size)) ==>
                && Shows(Apply(s, TestQueue.FinishReceive(idx, size)))
                && ok && LabelOf(s, TestQueue.FinishReceive(idx, size)) == Deliver(idx, lastInc, size, msg)
    {
      shared.users := shared.users[idx := shared.inc];
      lastInc := shared.inc;
      ok, msg := shared.hasData, [];
      if shared.hasData {
        var rcvd := if size < |shared.data| then size else |shared.data|;
        msg := shared.data[..rcvd];
      }
    }
  }
}
