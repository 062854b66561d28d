/** The replicated key-value map: a writable handle that owns the
    authoritative map and the sending end of the channel, and a read-only
    handle that owns a replica and the receiving end, and replays every
    pending record before it answers a query. */
module ReplicatedMap {
  import opened Results
  import opened Actions
  import opened Mpsc

  /** The read-only handle. Its replica is always the replay of exactly the
      records received so far, which are a prefix of the records sent. */
  class ReadOnlyHashMap<K(==), V> {
    var hashmap: map<K, V>
    const rx: Channel<K, V>

    ghost predicate Valid()
      reads this, rx
    {
      hashmap == Replay(rx.delivered)
    }

    constructor (rx: Channel<K, V>)
      requires rx.delivered == []
      ensures this.rx == rx && hashmap == map[]
      ensures Valid()
    {
      hashmap := map[];
      this.rx := rx;
    }

    /** Receives and applies queued records in order until the channel
        reports `Empty` (success) or `Closed` (`Disconnected`). Either way
        every record that was queued has been applied. */
    method ProcessChanges() returns (r: Result<()>)
      requires rx.receiverAlive && Valid()
      modifies this, rx
      ensures Valid()
      ensures hashmap == ApplyAll(old(hashmap), old(rx.queue))
      ensures rx.queue == [] && rx.delivered == old(rx.Sent())
      ensures rx.Sent() == old(rx.Sent())
      ensures rx.senderAlive == old(rx.senderAlive) && rx.receiverAlive
      ensures r == if rx.senderAlive then Ok(()) else Disconnected
    {
      ghost var drained: seq<Action<K, V>> := [];
      var done := false;
      r := Ok(());
      while !done
        invariant old(rx.queue) == drained + rx.queue
        invariant rx.delivered == old(rx.delivered) + drained
        invariant hashmap == ApplyAll(old(hashmap), drained)
        invariant Valid()
        invariant rx.senderAlive == old(rx.senderAlive) && rx.receiverAlive
        invariant done ==> rx.queue == [] && r == if rx.senderAlive then Ok(()) else Disconnected
        decreases |rx.queue| + (if done then 0 else 1)
      {
        ghost var received := rx.delivered;
        ghost var pending := rx.queue;
        var next := rx.TryRecv();
        match next
        case Received(a) =>
          match a {
            case Add(k, v) => hashmap := hashmap[k := v];
            case Remove(k) => hashmap := hashmap - {k};
            case Clear => hashmap := map[];
          }
          ApplyAllSnoc(old(hashmap), drained, a);
          ApplyAllSnoc(map[], received, a);
          assert pending == [a] + rx.queue;
          drained := drained + [a];
        case Empty =>
          done := true;
          r := Ok(());
        case Closed =>
          done := true;
          r := Disconnected;
      }
      assert old(rx.queue) == drained;
      assert rx.Sent() == rx.delivered;
    }

    /** Drains the channel, then answers from the replica. */
    method Get(k: K) returns (r: Result<Option<V>>)
      requires rx.receiverAlive && Valid()
      modifies this, rx
      ensures Valid()
      ensures hashmap == ApplyAll(old(hashmap), old(rx.queue))
      ensures rx.queue == [] && rx.delivered == old(rx.Sent())
      ensures rx.Sent() == old(rx.Sent())
      ensures rx.senderAlive == old(rx.senderAlive) && rx.receiverAlive
      ensures r == if rx.senderAlive then Ok(Lookup(hashmap, k)) else Disconnected
      ensures r.Ok? ==> r.value == LatestValue(old(hashmap), old(rx.queue), k)
    {
      var drained := ProcessChanges();
      if drained.Disconnected? {
        return Disconnected;
      }
      r := Ok(Lookup(hashmap, k));
      LookupAfterReplay(old(hashmap), old(rx.queue), k);
    }

    /** Drains the channel, then reports whether the replica holds `k`. */
    method ContainsKey(k: K) returns (r: Result<bool>)
      requires rx.receiverAlive && Valid()
      modifies this, rx
      ensures Valid()
      ensures hashmap == ApplyAll(old(hashmap), old(rx.queue))
      ensures rx.queue == [] && rx.delivered == old(rx.Sent())
      ensures rx.Sent() == old(rx.Sent())
      ensures rx.senderAlive == old(rx.senderAlive) && rx.receiverAlive
      ensures r == if rx.senderAlive then Ok(k in hashmap) else Disconnected
      ensures r.Ok? ==> (r.value <==> LatestValue(old(hashmap), old(rx.queue), k).Some?)
    {
      var drained := ProcessChanges();
      if drained.Disconnected? {
        return Disconnected;
      }
      r := Ok(k in hashmap);
      LookupAfterReplay(old(hashmap), old(rx.queue), k);
    }

    /** Dropping the read-only handle closes the receiving end. */
    method Drop()
      requires rx.receiverAlive
      modifies rx
      ensures !rx.receiverAlive && rx.senderAlive == old(rx.senderAlive)
      ensures rx.queue == old(rx.queue) && rx.delivered == old(rx.delivered)
    {
      rx.CloseReceiver();
    }
  }

  /** The writable handle. While the receiving end exists, its map is the
      replay of every record it has sent. */
  class WritableHashMap<K(==), V> {
    var hashmap: map<K, V>
    const tx: Channel<K, V>

    ghost predicate Valid()
      reads this, tx
    {
      tx.receiverAlive ==> hashmap == Replay(tx.Sent())
    }

    constructor (tx: Channel<K, V>)
      requires tx.delivered == [] && tx.queue == []
      ensures this.tx == tx && hashmap == map[]
      ensures Valid()
    {
      hashmap := map[];
      this.tx := tx;
    }

    /** Empties the local map first, whatever the send then reports. */
    method Clear() returns (r: Result<()>)
      requires tx.senderAlive && Valid()
      modifies this, tx
      ensures Valid()
      ensures hashmap == map[]
      ensures r == if tx.receiverAlive then Ok(()) else Disconnected
      ensures tx.queue == if r.Ok? then old(tx.queue) + [Actions.Clear] else old(tx.queue)
      ensures tx.delivered == old(tx.delivered)
      ensures tx.senderAlive && tx.receiverAlive == old(tx.receiverAlive)
    {
      hashmap := map[];
      var sent := tx.Send(Actions.Clear);
      if sent {
        assert tx.Sent() == old(tx.Sent()) + [Actions.Clear];
        ApplyAllSnoc(map[], old(tx.Sent()), Actions.Clear);
        r := Ok(());
      } else {
        r := Disconnected;
      }
    }

    /** Local lookup; touches no channel and cannot fail. */
    function Get(k: K): (r: Option<V>)
      reads this
      ensures r.Some? <==> k in hashmap
      ensures r.Some? ==> r.value == hashmap[k]
    {
      Lookup(hashmap, k)
    }

    /** Local membership test; agrees with `Get`. */
    function ContainsKey(k: K): (b: bool)
      reads this
      ensures b <==> Get(k).Some?
    {
      k in hashmap
    }

    /** Sends `Add(k, v)`; only when that succeeds is the local map updated
        and the previous value returned. */
    method Insert(k: K, v: V) returns (r: Result<Option<V>>)
      requires tx.senderAlive && Valid()
      modifies this, tx
      ensures Valid()
      ensures r == if tx.receiverAlive then Ok(Lookup(old(hashmap), k)) else Disconnected
      ensures hashmap == if r.Ok? then old(hashmap)[k := v] else old(hashmap)
      ensures tx.queue == if r.Ok? then old(tx.queue) + [Add(k, v)] else old(tx.queue)
      ensures tx.delivered == old(tx.delivered)
      ensures tx.senderAlive && tx.receiverAlive == old(tx.receiverAlive)
    {
      var sent := tx.Send(Add(k, v));
      if sent {
        r := Ok(Lookup(hashmap, k));
        hashmap := hashmap[k := v];
        assert tx.Sent() == old(tx.Sent()) + [Add(k, v)];
        ApplyAllSnoc(map[], old(tx.Sent()), Add(k, v));
      } else {
        r := Disconnected;
      }
    }

    /** Sends `Remove(k)`, even for an absent key; only when that succeeds
        is the local map updated and the removed value returned. */
    method Remove(k: K) returns (r: Result<Option<V>>)
      requires tx.senderAlive && Valid()
      modifies this, tx
      ensures Valid()
      ensures r == if tx.receiverAlive then Ok(Lookup(old(hashmap), k)) else Disconnected
      ensures hashmap == if r.Ok? then old(hashmap) - {k} else old(hashmap)
      ensures tx.queue == if r.Ok? then old(tx.queue) + [Actions.Remove(k)] else old(tx.queue)
      ensures tx.delivered == old(tx.delivered)
      ensures tx.senderAlive && tx.receiverAlive == old(tx.receiverAlive)
    {
      var sent := tx.Send(Actions.Remove(k));
      if sent {
        r := Ok(Lookup(hashmap, k));
        hashmap := hashmap - {k};
        assert tx.Sent() == old(tx.Sent()) + [Actions.Remove(k)];
        ApplyAllSnoc(map[], old(tx.Sent()), Actions.Remove(k));
      } else {
        r := Disconnected;
      }
    }

    /** Dropping the writable handle closes the sending end; what is
        already queued can still be received. */
    method Drop()
      requires tx.senderAlive
      modifies tx
      ensures !tx.senderAlive && tx.receiverAlive == old(tx.receiverAlive)
      ensures tx.queue == old(tx.queue) && tx.delivered == old(tx.delivered)
    {
      tx.CloseSender();
    }
  }

  /** Builds one channel and the two handles bound to its ends. */
  method KeyValue<K(==), V>() returns (w: WritableHashMap<K, V>, r: ReadOnlyHashMap<K, V>)
    ensures fresh(w) && fresh(r) && fresh(w.tx) && w.tx == r.rx
    ensures w.hashmap == map[] && r.hashmap == map[]
    ensures w.tx.queue == [] && w.tx.delivered == []
    ensures w.tx.senderAlive && w.tx.receiverAlive
    ensures w.Valid() && r.Valid()
  {
    var channel := new Channel();
    w := new WritableHashMap(channel);
    r := new ReadOnlyHashMap(channel);
  }

  /** While the reader exists, the writer's map is the replica with the
      pending records replayed over it; with nothing pending the two agree. */
  lemma {:induction false} ReplicaLagsByQueue<K, V>(w: WritableHashMap<K, V>, r: ReadOnlyHashMap<K, V>)
    requires w.tx == r.rx && w.Valid() && r.Valid() && w.tx.receiverAlive
    ensures w.hashmap == ApplyAll(r.hashmap, w.tx.queue)
    ensures w.tx.queue == [] ==> r.hashmap == w.hashmap
  {
    ApplyAllConcat(map[], r.rx.delivered, r.rx.queue);
  }

  /** A reader `get` made while the reader exists leaves the replica equal
      to the writer's map; unless the writer was dropped, it answers exactly
      what the writer's `get` answers. */
  method GetCatchesUp<K(==), V>(w: WritableHashMap<K, V>, r: ReadOnlyHashMap<K, V>, k: K)
    returns (res: Result<Option<V>>)
    requires w.tx == r.rx && w.Valid() && r.Valid() && w.tx.receiverAlive
    modifies r, r.rx
    ensures res == if w.tx.senderAlive then Ok(w.Get(k)) else Disconnected
    ensures r.rx.queue == [] && r.rx.Sent() == old(r.rx.Sent())
    ensures r.rx.receiverAlive && r.rx.senderAlive == old(r.rx.senderAlive)
    ensures r.hashmap == w.hashmap
    ensures w.Valid() && r.Valid()
  {
    res := r.Get(k);
    ReplicaLagsByQueue(w, r);
  }

  /** The same for a reader `contains_key`: it answers exactly what the
      writer's `contains_key` answers, unless the writer was dropped. */
  method ContainsKeyCatchesUp<K(==), V>(w: WritableHashMap<K, V>, r: ReadOnlyHashMap<K, V>, k: K)
    returns (res: Result<bool>)
    requires w.tx == r.rx && w.Valid() && r.Valid() && w.tx.receiverAlive
    modifies r, r.rx
    ensures res == if w.tx.senderAlive then Ok(w.ContainsKey(k)) else Disconnected
    ensures r.rx.queue == [] && r.rx.Sent() == old(r.rx.Sent())
    ensures r.rx.receiverAlive && r.rx.senderAlive == old(r.rx.senderAlive)
    ensures r.hashmap == w.hashmap
    ensures w.Valid() && r.Valid()
  {
    res := r.ContainsKey(k);
    ReplicaLagsByQueue(w, r);
  }
}
