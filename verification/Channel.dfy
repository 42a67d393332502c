/**
 The contract both message-queue implementations keep: a lossy broadcast channel. Publishing never
 blocks on readers and numbers messages 1, 2, 3, ...; each reader is handed some of them, each under a
 larger number than the last, and never anything that was not published under that number.
 */
module Channel {
  type Msg = seq<int>

  datatype Channel = Channel(log: seq<Msg>, last: seq<nat>)

  /** `size` is the room in the reader's buffer. */
  datatype Label =
    | Publish(msg: Msg)
    | Deliver(reader: nat, number: nat, size: nat, msg: Msg)
    | Subscribe
    | Silent

  /** A message cut to the size of a buffer. */
  function Cut(m: Msg, size: nat): Msg {
    if |m| <= size then m else m[..size]
  }

  /** The state a label leads to, if it is allowed. */
  function Track(c: Channel, l: Label): Channel {
    match l
    case Publish(m) => c.(log := c.log + [m])
    case Deliver(r, k, n, m) => if r < |c.last| then c.(last := c.last[r := k]) else c
    case Subscribe => c.(last := c.last + [0])
    case Silent => c
  }

  /** The step relation: which labels are allowed. */
  predicate Next(c: Channel, l: Label, c': Channel) {
    match l
    case Publish(m) => c' == c.(log := c.log + [m])
    case Deliver(r, k, n, m) =>
      && r < |c.last| && c.last[r] < k <= |c.log|
      && m == Cut(c.log[k - 1], n)
      && c' == c.(last := c.last[r := k])
    case Subscribe => c' == c.(last := c.last + [0])
    case Silent => c' == c
  }

  /** A run: the states a channel goes through under a sequence of labels. */
  predicate Run(cs: seq<Channel>, ls: seq<Label>) {
    |cs| == |ls| + 1 && forall i :: 0 <= i < |ls| ==> Next(cs[i], ls[i], cs[i + 1])
  }

  lemma RunExtend(cs: seq<Channel>, ls: seq<Label>, l: Label, c: Channel)
    requires Run(cs, ls) && Next(cs[|ls|], l, c)
    ensures Run(cs + [c], ls + [l])
  {
    hide Next;
    var cs', ls' := cs + [c], ls + [l];
    forall i | 0 <= i < |ls'|
      ensures Next(cs'[i], ls'[i], cs'[i + 1])
    {
      if i < |ls| {
        assert Next(cs[i], ls[i], cs[i + 1]);
      }
    }
  }

  lemma {:induction false} LogGrows(cs: seq<Channel>, ls: seq<Label>, i: nat, j: nat)
    requires Run(cs, ls) && i <= j < |cs|
    ensures cs[i].log <= cs[j].log && |cs[i].last| <= |cs[j].last|
    decreases j
  {
    if i < j {
      LogGrows(cs, ls, i, j - 1);
      assert Next(cs[j - 1], ls[j - 1], cs[j]);
    }
  }

  lemma {:induction false} LastGrows(cs: seq<Channel>, ls: seq<Label>, r: nat, i: nat, j: nat)
    requires Run(cs, ls) && i <= j < |cs| && r < |cs[i].last|
    ensures r < |cs[j].last| && cs[i].last[r] <= cs[j].last[r]
    decreases j
  {
    if i < j {
      LastGrows(cs, ls, r, i, j - 1);
      assert Next(cs[j - 1], ls[j - 1], cs[j]);
    }
  }

  /** Over any run every message handed out is the message, cut to the reader's buffer, that the final log
      records under its number. */
  lemma DeliveredAsPublished(cs: seq<Channel>, ls: seq<Label>, i: nat)
    requires Run(cs, ls) && i < |ls| && ls[i].Deliver?
    ensures 0 < ls[i].number <= |cs[|ls|].log|
    ensures ls[i].msg == Cut(cs[|ls|].log[ls[i].number - 1], ls[i].size)
  {
    assert Next(cs[i], ls[i], cs[i + 1]);
    LogGrows(cs, ls, i, |ls|);
  }

  /** And the numbers one reader is handed strictly increase. */
  lemma DeliveriesIncrease(cs: seq<Channel>, ls: seq<Label>, i: nat, j: nat)
    requires Run(cs, ls) && i < j < |ls|
    requires ls[i].Deliver? && ls[j].Deliver? && ls[i].reader == ls[j].reader
    ensures ls[i].number < ls[j].number
  {
    assert Next(cs[i], ls[i], cs[i + 1]) && Next(cs[j], ls[j], cs[j + 1]);
    LastGrows(cs, ls, ls[i].reader, i + 1, j);
  }
}
