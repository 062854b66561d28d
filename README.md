# Replicated key-value map: a Dafny model

This project models `src/keyvalue.rs`. That file defines a key-value map split into two handles joined by an unbounded FIFO channel of mutation records:

- `WritableHashMap` owns the authoritative map and the sending end. `insert`, `remove` and `clear` each send one record (`Add(k, v)`, `Remove(k)`, `Clear`) and change the local map.
- `ReadOnlyHashMap` owns a replica and the receiving end. Before `get` or `contains_key` answers, `process_changes` receives every queued record and applies it in order. It stops with success when the channel is empty, and with `Disconnected` when the sender is gone and nothing is left.
- `keyvalue()` builds one channel and returns the two handles bound to it.

Structure:

- `results.dfy`: `Option` and `Result` (`Ok(x) | Disconnected`).
- `actions.dfy`: the `Action` record. `Apply` gives the meaning of one record on a map, and `ApplyAll` folds a queue over a map, oldest record first. `LatestValue` is an independent reference for "what a lookup sees after a replay". The module also holds the lemmas relating these.
- `mpsc.dfy`: the channel as one `Channel` object shared by both handles. It has a `queue` of records in flight and two flags, `senderAlive` and `receiverAlive`. A ghost `delivered` history records what the receiver has already taken. `Sent() == delivered + queue` is every record accepted so far.
- `keyvalue.dfy`: the two handle classes, the factory `KeyValue`, and the coupling between the handles.
- `scenarios.dfy`: client programs and what they observe.

The handle invariants:

- `ReadOnlyHashMap.Valid()`: the replica is exactly `Replay(delivered)`. It is the replay of a prefix of the records sent, never a reordering or a superset.
- `WritableHashMap.Valid()`: while the receiving end exists, the writer's map is `Replay(Sent())`.
- Together, by `ReplicaLagsByQueue`: the writer's map is the replica with the pending queue folded over it. After any reader `get` or `contains_key`, even one made after the writer was dropped, the queue is empty and the two maps are equal (`GetCatchesUp`, `ContainsKeyCatchesUp`).

Dropping a handle is an explicit `Drop` method that clears the matching flag. Each handle's operations require their own end of the channel to be alive. This is the Rust ownership rule that a dropped value cannot be used; it is not an extra restriction.

The code applies local changes in two different orders, and the model keeps both:

- `insert` and `remove` change the local map only after a successful send. When the receiver is gone, they return `Disconnected` and leave the map unchanged.
- `clear` empties the local map before sending, so it empties it even when it returns `Disconnected`.

These orders come from src/keyvalue.rs:113-114 (`clear`), 133-136 (`insert`) and 142-145 (`remove`); `WriterAfterReaderDropped` shows both.

## Model

| member | source | states |
|---|---|---|
| Actions.Apply | src/keyvalue.rs:72-80 | `Add` overwrites the key and keeps every other entry; `Remove` deletes only that key and is a no-op on an absent one; `Clear` gives the empty map |
| Actions.ApplyAllConcat | src/keyvalue.rs:69-85 | replaying `p` then `q` equals replaying `p + q`, so draining in several batches gives the same replica as draining once |
| Actions.ApplyAllSnoc | src/keyvalue.rs:70-84 | a record appended to the queue is applied after all earlier ones (FIFO) |
| Actions.ClearCutsHistory | src/keyvalue.rs:78-79 | after a `Clear` record, the replica depends only on the records that follow it; clearing an empty map leaves it empty |
| Actions.LookupAfterReplay | src/keyvalue.rs:61-67 | a lookup in the replayed map equals the independent reference `LatestValue`: the newest record naming the key (or a `Clear`) decides the answer |
| Mpsc.Channel.constructor | src/keyvalue.rs:21 | a new channel has an empty queue, an empty history and both ends alive |
| Mpsc.Channel.Send | src/keyvalue.rs:133-136 | a send succeeds exactly when the receiver is alive; on success the record is appended at the tail, and on failure nothing is queued |
| Mpsc.Channel.TryRecv | src/keyvalue.rs:71-82 | returns the oldest queued record and removes it from the front; with nothing queued, returns `Empty` while the sender lives and `Closed` after; the sequence of sent records is unchanged |
| Mpsc.Channel.CloseSender | src/keyvalue.rs:81-82 | only the sender flag changes; queued records stay receivable |
| Mpsc.Channel.CloseReceiver | src/keyvalue.rs:133-136 | only the receiver flag changes |
| ReplicatedMap.ReadOnlyHashMap.constructor | src/keyvalue.rs:40-45 | the reader starts with an empty replica bound to the given receiving end, which has delivered nothing yet, and establishes `Valid()` |
| ReplicatedMap.ReadOnlyHashMap.ProcessChanges | src/keyvalue.rs:69-85 | leaves the queue empty and the replica equal to the whole former queue folded over the old replica, with the history extended by exactly that queue and the sent records unchanged; returns `Ok` when the sender lives and `Disconnected` otherwise, in both cases after every queued record was applied |
| ReplicatedMap.ReadOnlyHashMap.Get | src/keyvalue.rs:61-67 | drains as `ProcessChanges`; returns `Disconnected` if the sender is gone, otherwise the drained replica's value for `k`, which equals `LatestValue` of the old replica and old queue |
| ReplicatedMap.ReadOnlyHashMap.ContainsKey | src/keyvalue.rs:53-59 | drains as `ProcessChanges`; returns `Disconnected` if the sender is gone, otherwise whether `k` is in the drained replica, which holds exactly when `LatestValue` would be `Some` |
| ReplicatedMap.ReadOnlyHashMap.Drop | src/keyvalue.rs:31-34 | dropping the reader closes the receiving end and changes nothing else |
| ReplicatedMap.WritableHashMap.constructor | src/keyvalue.rs:99-104 | the writer starts with an empty map bound to the given sending end, on which nothing has been sent yet, and establishes `Valid()` |
| ReplicatedMap.WritableHashMap.Clear | src/keyvalue.rs:112-116 | the writer map becomes empty on every outcome; returns `Ok` and appends `Clear` exactly when the receiver is alive, otherwise returns `Disconnected` with the queue unchanged; keeps `Valid()` |
| ReplicatedMap.WritableHashMap.Get | src/keyvalue.rs:118-123 | `Some(v)` exactly when the key is in the writer map with value `v`; reads only the local map |
| ReplicatedMap.WritableHashMap.ContainsKey | src/keyvalue.rs:125-130 | true exactly when `Get` is `Some` |
| ReplicatedMap.WritableHashMap.Insert | src/keyvalue.rs:132-137 | with the receiver alive: returns `Ok(previous value or None)`, map becomes `m[k := v]`, `Add(k, v)` is appended; with it gone: `Disconnected`, map and queue unchanged; keeps `Valid()` |
| ReplicatedMap.WritableHashMap.Remove | src/keyvalue.rs:141-146 | with the receiver alive: returns `Ok(removed value or None)`, map loses `k`, `Remove(k)` is appended even for an absent key; with it gone: `Disconnected`, map and queue unchanged; keeps `Valid()` |
| ReplicatedMap.WritableHashMap.Drop | src/keyvalue.rs:89-92 | dropping the writer closes the sending end and leaves the queue receivable |
| ReplicatedMap.KeyValue | src/keyvalue.rs:17-23 | fresh handles sharing one fresh channel: empty writer map, empty replica, empty queue, both ends alive, both invariants established |
| ReplicatedMap.ReplicaLagsByQueue | src/keyvalue.rs:69-85 | while the reader exists, the writer map equals the pending queue folded over the replica; with nothing pending the two maps are equal |
| ReplicatedMap.GetCatchesUp | src/keyvalue.rs:61-67 | a reader `get` made while the reader exists leaves the queue empty, the sent records and both ends' flags unchanged, and the replica equal to the writer map; returns exactly the writer's `get` unless the writer was dropped (then `Disconnected`) |
| ReplicatedMap.ContainsKeyCatchesUp | src/keyvalue.rs:53-59 | a reader `contains_key` made while the reader exists leaves the queue empty, the sent records and both ends' flags unchanged, and the replica equal to the writer map; returns exactly the writer's `contains_key` unless the writer was dropped (then `Disconnected`) |
| Scenarios.InsertsThenRead | src/keyvalue.rs:132-137 | after inserting `("a",1)` and `("b",2)` with no drain, the reader's `get("a")` is `Ok(Some(1))` |
| Scenarios.InsertRemoveThenContains | src/keyvalue.rs:141-146 | after inserting and then removing `"a"`, the reader's `contains_key("a")` is `Ok(false)` |
| Scenarios.RemoveAbsentAndClearEmpty | src/keyvalue.rs:112-116 | removing an absent key returns `Ok(None)`, clearing an empty map succeeds, and the drained replica is empty |
| Scenarios.WriterAfterReaderDropped | src/keyvalue.rs:133-136 | after the reader is dropped, `insert` returns `Disconnected` without touching the writer map, and `clear` returns `Disconnected` but empties it |
| Scenarios.ReaderAfterWriterDropped | src/keyvalue.rs:81-82 | after the writer is dropped, a reader `get` applies the already sent `("a",1)` and then returns `Disconnected` |
| Scenarios.InterleavedSession | src/keyvalue.rs:61-67 | writer mutations interleaved with reader queries: the catch-up `get("c")` sees `Ok(Some(3))`, `remove("c")` then returns `Ok(Some(3))`, and after the writer is dropped the reader applies the remaining records, ending with an empty replica and `Disconnected` |

## Left out

- Threads, `Send`/`Sync` and the real `std::sync::mpsc` implementation. The channel is a sequence plus two alive flags, and every operation is one sequential step.
- `RefCell` interior mutability on the replica. The reader's queries are methods that modify the reader and the channel.
- The hasher parameter (`RandomState`, `BuildHasher`), the `Borrow<Q>` lookup generics, and `Clone`. Keys are any type with equality, and maps are Dafny `map`s.
- The `errors` module and its `error_chain` conversion are not part of this model. The only error is the `Disconnected` constructor of `Result`.
- Mpsc.Channel.CloseReceiver: Rust's `mpsc` discards queued records when the receiver is dropped. The model leaves them in `queue`, where no operation can observe them any more.
