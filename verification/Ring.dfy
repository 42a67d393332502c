/**
 The shared-memory message ring (ipc/message_queue.hpp): a Boost queue changed so that a sender
 overwrites the oldest message and every reader keeps a cursor of its own. Message number k of a ring
 with `cap` slots lives in slot (-k) mod cap.
 */
module Ring {
  import opened Channel
  import opened Division

  datatype Ring = Ring(cap: nat, maxSize: nat, slots: seq<Msg>, first: nat, num: nat)

  /** The slot of message number k, counted down one slot a message. */
  function Slot(k: nat, cap: nat): (s: nat)
    requires cap > 0
    ensures s < cap
  {
    if k == 0 then 0 else StepDown(Slot(k - 1, cap), cap)
  }

  function StepDown(s: nat, cap: nat): (d: nat)
    requires s < cap
    ensures d < cap
  {
    if s == 0 then cap - 1 else s - 1
  }

  // ---------------------------------------------------------------- mq_hdr_t

  predicate Shaped(r: Ring) {
    r.cap > 0 && |r.slots| == r.cap && r.first < r.cap && r.num <= r.cap
  }

  function EndPos(r: Ring): nat
    requires Shaped(r)
  {
    var spaceUntilBufend := r.cap - r.first;
    if spaceUntilBufend > r.num then r.first + r.num else r.num - spaceUntilBufend
  }

  function EndIndex(r: Ring): nat
    requires Shaped(r)
  {
    if EndPos(r) != 0 then EndPos(r) - 1 else r.cap - 1
  }

  /** do_send of a message that fits. */
  function Send(r: Ring, m: Msg): (r': Ring)
    requires Shaped(r)
    ensures Shaped(r')
  {
    var kept := if r.num == r.cap then r.num - 1 else r.num;
    var first := StepDown(r.first, r.cap);
    Ring(r.cap, r.maxSize, r.slots[first := m], first, kept + 1)
  }

  /** do_receive has something for a reader without waiting. */
  predicate Ready(r: Ring, cursor: nat) {
    r.num != 0 && cursor != r.first
  }

  /** The clamp of do_receive: a cursor outside the kept messages is moved to the oldest of them. */
  function Clamp(r: Ring, cursor: nat): nat
    requires Shaped(r)
  {
    var e := EndIndex(r);
    if e >= r.first then (if cursor > e || cursor < r.first then e else cursor)
    else (if cursor > e && cursor < r.first then e else cursor)
  }

  /** Where do_receive reads from, given the cursor it starts with. */
  function Advance(r: Ring, cursor: nat): nat
    requires Shaped(r)
  {
    Clamp(r, if cursor != 0 then cursor - 1 else r.cap - 1)
  }

  // ---------------------------------------------------------------- the send log

  function MinNat(a: nat, b: nat): nat {
    if a < b then a else b
  }

  /** The ring holds the last messages of `log`, each in its slot. */
  ghost predicate Models(r: Ring, log: seq<Msg>) {
    && Shaped(r)
    && r.first == Slot(|log|, r.cap)
    && r.num == MinNat(|log|, r.cap)
    && forall k :: |log| - r.num < k <= |log| ==> r.slots[Slot(k, r.cap)] == log[k - 1]
  }

  /** Going back j messages is going up j slots, round the ring. */
  lemma {:induction false} SlotBack(n: nat, j: nat, cap: nat)
    requires cap > 0 && j < cap && j <= n
    ensures Slot(n - j, cap) == var s := Slot(n, cap) + j; if s < cap then s else s - cap
    decreases j
  {
    if j != 0 {
      SlotBack(n, j - 1, cap);
      assert Slot(n - j + 1, cap) == StepDown(Slot(n - j, cap), cap);
    }
  }

  /** A window of cap messages has a slot for each. */
  lemma SlotInjective(n: nat, j: nat, cap: nat)
    requires cap > 0 && 0 < j < cap && j <= n
    ensures Slot(n - j, cap) != Slot(n, cap)
  {
    SlotBack(n, j, cap);
  }

  lemma SlotPeriodic(k: nat, cap: nat)
    requires cap > 0
    ensures Slot(k + cap, cap) == Slot(k, cap)
  {
    SlotBack(k + cap, cap - 1, cap);
    assert Slot(k + 1, cap) == StepDown(Slot(k, cap), cap);
  }

  /** The recursive slot is the residue of -k. */
  lemma {:induction false} SlotIsResidue(k: nat, cap: nat)
    requires cap > 0
    ensures Slot(k, cap) == (-(k as int)) % cap
    decreases k
  {
    if k != 0 {
      SlotIsResidue(k - 1, cap);
      assert Slot(k, cap) == StepDown(Slot(k - 1, cap), cap);
      hide *;
      ResidueBelow(-(k as int) + 1, cap, Slot(k - 1, cap));
    }
  }

  /** The residue one below: stepping down one slot. */
  lemma ResidueBelow(x: int, cap: nat, s: nat)
    requires s < cap && x % cap == s
    ensures (x - 1) % cap == StepDown(s, cap)
  {
    var q := x / cap;
    Divided(x, cap, q, s);
    hide *;
    StepDownIs(s, cap);
    if s == 0 {
      Distribute(cap, q, 1);
      Residue(x - 1, cap, q - 1, cap - 1);
    } else {
      Residue(x - 1, cap, q, s - 1);
    }
  }

  lemma Divided(x: int, m: int, q: int, r: int)
    requires m > 0 && q == x / m && r == x % m
    ensures x == m * q + r
  {
  }

  lemma StepDownIs(s: nat, cap: nat)
    requires s < cap
    ensures StepDown(s, cap) == if s == 0 then cap - 1 else s - 1
  {
  }

  /** Sending extends the log by one message. */
  lemma SendExtendsLog(r: Ring, log: seq<Msg>, m: Msg)
    requires Models(r, log)
    ensures Models(Send(r, m), log + [m])
  {
    var log', r' := log + [m], Send(r, m);
    var n := |log'|;
    assert r'.first == Slot(n, r.cap) && r'.num == MinNat(n, r.cap);
    forall k | n - r'.num < k <= n
      ensures r'.slots[Slot(k, r.cap)] == log'[k - 1]
    {
      if k < n {
        SlotInjective(n, n - k, r.cap);
        assert |log| - r.num < k <= |log|;
      }
    }
  }

  /** end_index is the slot of the oldest message kept. */
  lemma OldestKept(r: Ring, log: seq<Msg>)
    requires Models(r, log) && log != []
    ensures EndIndex(r) == Slot(|log| - r.num + 1, r.cap)
    ensures r.slots[EndIndex(r)] == log[|log| - r.num]
  {
    SlotBack(|log|, r.num - 1, r.cap);
  }

  /** Whatever the cursor, do_receive reads one of the kept messages: the clamp alone ensures it. */
  lemma AdvanceStaysInWindow(r: Ring, log: seq<Msg>, cursor: nat) returns (k: nat)
    requires Models(r, log) && log != [] && cursor <= r.cap
    ensures |log| - r.num < k <= |log|
    ensures Advance(r, cursor) == Slot(k, r.cap) && r.slots[Advance(r, cursor)] == log[k - 1]
  {
    var a := Advance(r, cursor);
    var j := if a >= r.first then a - r.first else a + r.cap - r.first;
    k := |log| - j;
    SlotBack(|log|, j, r.cap);
  }

  // ---------------------------------------------------------------- a reader and its number

  /** d mod cap. */
  function Wrap(d: nat, cap: nat): (w: nat)
    requires cap > 0
    ensures w < cap && w <= d
  {
    if d < cap then d else Wrap(d - cap, cap)
  }

  lemma {:induction false} WrapSlot(s: nat, d: nat, cap: nat)
    requires cap > 0
    ensures Slot(s + d - Wrap(d, cap), cap) == Slot(s, cap)
    decreases d
  {
    if d >= cap {
      WrapSlot(s, d - cap, cap);
      SlotPeriodic(s + (d - cap) - Wrap(d - cap, cap), cap);
    }
  }

  lemma {:induction false} WrapIsResidue(d: nat, cap: nat)
    requires cap > 0
    ensures Wrap(d, cap) == d % cap
    decreases d
  {
    if d >= cap {
      WrapIsResidue(d - cap, cap);
      Residue(d, cap, (d - cap) / cap + 1, (d - cap) % cap);
    }
  }

  /** The number do_receive delivers to a reader whose last number is s, after n sends. */
  function NextNumber(n: nat, s: nat, cap: nat): int
    requires cap > 0 && s <= n
  {
    n - Wrap(n - s, cap) + 1
  }

  /** A reader whose cursor stands at its last number has to wait exactly when the messages sent since
      are a multiple of the capacity. */
  lemma ReadyExactly(r: Ring, log: seq<Msg>, s: nat)
    requires Models(r, log) && s <= |log|
    ensures Ready(r, Slot(s, r.cap)) <==> Wrap(|log| - s, r.cap) != 0
  {
    ReadyIs(r, log, s);
    hide *;
    SameSlot(s, |log|, r.cap);
  }

  lemma ReadyIs(r: Ring, log: seq<Msg>, s: nat)
    requires Models(r, log) && s <= |log|
    ensures Ready(r, Slot(s, r.cap)) <==> s != |log| && Slot(s, r.cap) != Slot(|log|, r.cap)
  {
  }

  lemma SameSlot(s: nat, n: nat, cap: nat)
    requires cap > 0 && s <= n
    ensures s != n && Slot(s, cap) != Slot(n, cap) <==> Wrap(n - s, cap) != 0
  {
    var w := Wrap(n - s, cap);
    WrapSlot(s, n - s, cap);
    hide Slot;
    if w != 0 {
      SlotInjective(n, w, cap);
    }
  }

  /** Otherwise it is handed a message with a larger number, out of the ring, under that number; the
      clamp does not move its cursor; and a reader less than a ring behind gets the very next message. */
  lemma ReceiveExactly(r: Ring, log: seq<Msg>, s: nat)
    requires Models(r, log) && s <= |log| && Wrap(|log| - s, r.cap) != 0
    ensures var k := NextNumber(|log|, s, r.cap);
      && s < k <= |log| && |log| - r.num < k
      && StepDown(Slot(s, r.cap), r.cap) == Advance(r, Slot(s, r.cap)) == Slot(k, r.cap)
      && r.slots[Slot(k, r.cap)] == log[k - 1]
      && (|log| - s < r.cap <==> k == s + 1)
  {
    hide *;
    Unfold(r, log);
    var n, cap := |log|, r.cap;
    var k: nat := n - Wrap(n - s, cap) + 1;
    WrapSmall(n - s, cap);
    SlotAfter(s, n, cap);
    KeptUnclamped(r, log, k);
    NextIs(n, s, cap);
    AdvanceIs(r, Slot(s, cap));
  }

  lemma Unfold(r: Ring, log: seq<Msg>)
    requires Models(r, log)
    ensures Shaped(r) && r.cap > 0 && r.num <= r.cap && (r.num == |log| || r.num == r.cap)
  {
  }

  lemma NextIs(n: nat, s: nat, cap: nat)
    requires cap > 0 && s <= n
    ensures NextNumber(n, s, cap) == n - Wrap(n - s, cap) + 1
  {
  }

  lemma AdvanceIs(r: Ring, cursor: nat)
    requires Shaped(r) && cursor < r.cap
    ensures Advance(r, cursor) == Clamp(r, StepDown(cursor, r.cap))
  {
  }

  /** One below the slot of the last number is the slot of the next one. */
  lemma SlotAfter(s: nat, n: nat, cap: nat)
    requires cap > 0 && s <= n && Wrap(n - s, cap) != 0
    ensures StepDown(Slot(s, cap), cap) == Slot(n - Wrap(n - s, cap) + 1, cap)
  {
    WrapSlot(s, n - s, cap);
  }

  /** The clamp leaves the slot of a kept message alone. */
  lemma KeptUnclamped(r: Ring, log: seq<Msg>, k: nat)
    requires Models(r, log) && |log| - r.num < k <= |log|
    ensures Clamp(r, Slot(k, r.cap)) == Slot(k, r.cap)
    ensures r.slots[Slot(k, r.cap)] == log[k - 1]
  {
    SlotBack(|log|, |log| - k, r.cap);
  }

  lemma WrapSmall(d: nat, cap: nat)
    requires cap > 0
    ensures d < cap <==> Wrap(d, cap) == d
  {
  }

  /** After a wait the cursor is put just above the newest message, so that one is delivered. */
  lemma ResumeExactly(r: Ring, log: seq<Msg>)
    requires Models(r, log) && log != []
    ensures Advance(r, r.first + 1) == r.first == Slot(|log|, r.cap)
    ensures r.slots[r.first] == log[|log| - 1]
  {
    assert r.slots[Slot(|log|, r.cap)] == log[|log| - 1];
  }
}
