/** A single-threaded stand-in for the unbounded FIFO channel that joins the
    two handles: the records in flight, and whether each end still exists.
    One `Channel` object is shared by the sending and the receiving handle. */
module Mpsc {
  import opened Actions

  /** The three outcomes of a non-blocking receive. */
  datatype Recv<K, V> = Received(action: Action<K, V>) | Empty | Closed

  class Channel<K, V> {
    /** Records sent and not yet received, oldest first. */
    var queue: seq<Action<K, V>>
    var senderAlive: bool
    var receiverAlive: bool
    /** Records already handed to the receiver, oldest first. */
    ghost var delivered: seq<Action<K, V>>

    /** Every record ever accepted by the channel, in sending order. */
    ghost function Sent(): seq<Action<K, V>>
      reads this
    {
      delivered + queue
    }

    constructor ()
      ensures queue == [] && delivered == []
      ensures senderAlive && receiverAlive
    {
      queue := [];
      delivered := [];
      senderAlive := true;
      receiverAlive := true;
    }

    /** Never blocks; fails exactly when the receiving end is gone, and then
        the record is not queued. */
    method Send(a: Action<K, V>) returns (ok: bool)
      requires senderAlive
      modifies this
      ensures ok == receiverAlive
      ensures queue == if ok then old(queue) + [a] else old(queue)
      ensures delivered == old(delivered)
      ensures senderAlive == old(senderAlive) && receiverAlive == old(receiverAlive)
    {
      ok := receiverAlive;
      if ok {
        queue := queue + [a];
      }
    }

    /** Hands out the oldest queued record; with nothing queued, reports
        `Empty` while the sender exists and `Closed` once it is gone. */
    method TryRecv() returns (r: Recv<K, V>)
      requires receiverAlive
      modifies this
      ensures old(queue) != [] ==> r == Received(old(queue)[0]) && queue == old(queue)[1..]
      ensures old(queue) != [] ==> delivered == old(delivered) + [old(queue)[0]]
      ensures old(queue) == [] ==> queue == [] && delivered == old(delivered)
      ensures old(queue) == [] ==> r == if senderAlive then Empty else Closed
      ensures Sent() == old(Sent())
      ensures senderAlive == old(senderAlive) && receiverAlive == old(receiverAlive)
    {
      if queue != [] {
        r := Received(queue[0]);
        delivered := delivered + [queue[0]];
        queue := queue[1..];
      } else if senderAlive {
        r := Empty;
      } else {
        r := Closed;
      }
    }

    /** The sending end is dropped; records already queued stay receivable. */
    method CloseSender()
      requires senderAlive
      modifies this
      ensures !senderAlive && receiverAlive == old(receiverAlive)
      ensures queue == old(queue) && delivered == old(delivered)
    {
      senderAlive := false;
    }

    /** The receiving end is dropped; every later send fails. */
    method CloseReceiver()
      requires receiverAlive
      modifies this
      ensures !receiverAlive && senderAlive == old(senderAlive)
      ensures queue == old(queue) && delivered == old(delivered)
    {
      receiverAlive := false;
    }
  }
}
