/** A relay's delivery queue: pushed to by the relay, drained by whoever asks. */
module Mailboxes {
  import opened ByteStrings
  import opened Sequences

  class Mailbox {
    var queue: seq<Bytes>
    ghost var pushed: seq<Bytes>
    ghost var drained: seq<seq<Bytes>>

    /** Everything pushed was either handed out by one drain or is still queued, in the order pushed. */
    ghost predicate Valid()
      reads this
    {
      pushed == Join(drained) + queue
    }

    constructor ()
      ensures Valid() && queue == [] && pushed == [] && drained == []
    {
      queue, pushed, drained := [], [], [];
    }

    method Push(cell: Bytes)
      requires Valid()
      modifies this
      ensures Valid()
      ensures queue == old(queue) + [cell]
      ensures pushed == old(pushed) + [cell] && drained == old(drained)
    {
      Regroup(Join(drained), queue, [cell]);
      queue := queue + [cell];
      pushed := pushed + [cell];
    }

    method Drain() returns (cells: seq<Bytes>)
      requires Valid()
      modifies this
      ensures Valid()
      ensures cells == old(queue) && queue == []
      ensures drained == old(drained) + [cells] && pushed == old(pushed)
    {
      cells := queue;
      JoinAppend(drained, queue);
      queue := [];
      drained := drained + [cells];
    }
  }

  /** One call on a shared mailbox; drains name the client that made them. */
  datatype Call = PushCall(cell: Bytes) | DrainCall(client: nat)

  /** The queue, and what each drain handed to whom, after a series of calls. */
  datatype Account = Account(queue: seq<Bytes>, handed: seq<(nat, seq<Bytes>)>)

  function AfterCalls(calls: seq<Call>): Account {
    if calls == [] then Account([], []) else
    var a := AfterCalls(calls[..|calls| - 1]);
    match calls[|calls| - 1]
    case PushCall(cell) => a.(queue := a.queue + [cell])
    case DrainCall(client) => Account([], a.handed + [(client, a.queue)])
  }

  function Pushes(calls: seq<Call>): seq<Bytes> {
    if calls == [] then [] else
    Pushes(calls[..|calls| - 1])
    + (if calls[|calls| - 1].PushCall? then [calls[|calls| - 1].cell] else [])
  }

  function Batches(handed: seq<(nat, seq<Bytes>)>): (bs: seq<seq<Bytes>>)
    ensures |bs| == |handed|
  {
    seq(|handed|, i requires 0 <= i < |handed| => handed[i].1)
  }

  /**
   Conservation: whoever drains and however the calls interleave, the drained batches in order
   followed by the queue are the pushes in order, so no cell is lost or handed out twice.
   */
  lemma {:induction false} MailboxConserves(calls: seq<Call>)
    ensures Join(Batches(AfterCalls(calls).handed)) + AfterCalls(calls).queue == Pushes(calls)
  {
    if calls != [] {
      var front := calls[..|calls| - 1];
      MailboxConserves(front);
      var a := AfterCalls(front);
      match calls[|calls| - 1]
      case PushCall(cell) =>
        Regroup(Join(Batches(a.handed)), a.queue, [cell]);
      case DrainCall(client) =>
        assert Batches(a.handed + [(client, a.queue)]) == Batches(a.handed) + [a.queue];
        JoinAppend(Batches(a.handed), a.queue);
    }
  }
}
