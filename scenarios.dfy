/** Client programs over the two handles, with what each one observes. */
module Scenarios {
  import opened Results
  import opened Actions
  import opened ReplicatedMap

  /** Two inserts, then a reader `get` with no drain in between: the query
      itself replays the pending records before answering. */
  method InsertsThenRead() returns (got: Result<Option<int>>)
    ensures got == Ok(Some(1))
  {
    var w, r := KeyValue<string, int>();
    var _ := w.Insert("a", 1);
    var _ := w.Insert("b", 2);
    got := r.Get("a");
    assert r.rx.delivered == [Add("a", 1), Add("b", 2)];
  }

  /** Insert then remove the same key: once drained the replica lacks it. */
  method InsertRemoveThenContains() returns (got: Result<bool>)
    ensures got == Ok(false)
  {
    var w, r := KeyValue<string, int>();
    var _ := w.Insert("a", 1);
    var _ := w.Remove("a");
    got := r.ContainsKey("a");
    assert r.rx.delivered == [Add("a", 1), Actions.Remove("a")];
  }

  /** Removing an absent key answers "no previous value" and, once drained,
      leaves the replica as it was; clearing an empty map keeps it empty. */
  method RemoveAbsentAndClearEmpty() returns (removed: Result<Option<int>>, cleared: Result<()>, got: Result<Option<int>>, replica: map<string, int>)
    ensures removed == Ok(None) && cleared == Ok(())
    ensures got == Ok(None) && replica == map[]
  {
    var w, r := KeyValue<string, int>();
    removed := w.Remove("z");
    cleared := w.Clear();
    got := r.Get("z");
    replica := r.hashmap;
    assert r.rx.delivered == [Actions.Remove("z"), Actions.Clear];
  }

  /** After the reader is dropped, `insert` reports `Disconnected` and leaves
      the writer's map alone, while `clear` reports `Disconnected` and still
      empties it. */
  method WriterAfterReaderDropped() returns (inserted: Result<Option<int>>, afterInsert: Option<int>, cleared: Result<()>, afterClear: bool)
    ensures inserted == Disconnected && afterInsert == None
    ensures cleared == Disconnected && !afterClear
  {
    var w, r := KeyValue<string, int>();
    var _ := w.Insert("a", 1);
    r.Drop();
    inserted := w.Insert("b", 2);
    afterInsert := w.Get("b");
    cleared := w.Clear();
    afterClear := w.ContainsKey("a");
  }

  /** After the writer is dropped, a reader `get` still applies the records
      already sent, then reports `Disconnected`. */
  method ReaderAfterWriterDropped() returns (got: Result<Option<int>>, replica: map<string, int>)
    ensures got == Disconnected
    ensures replica == map["a" := 1]
  {
    var w, r := KeyValue<string, int>();
    var _ := w.Insert("a", 1);
    w.Drop();
    got := r.Get("a");
    replica := r.hashmap;
    assert r.rx.delivered == [Add("a", 1)];
  }

  /** Interleaved use of both handles over one session: the writer keeps
      mutating between reader queries, the reader catches up, and once the
      writer is dropped the last records are still applied. */
  method InterleavedSession() returns (seen: Result<Option<int>>, removed: Result<Option<int>>, last: Result<Option<int>>, replica: map<string, int>)
    ensures seen == Ok(Some(3)) && removed == Ok(Some(3))
    ensures last == Disconnected && replica == map[]
  {
    var w, r := KeyValue<string, int>();
    var _ := w.Insert("a", 1);
    var _ := r.ContainsKey("a");
    var _ := w.Insert("b", 2);
    var _ := w.Clear();
    var _ := w.Insert("c", 3);
    seen := GetCatchesUp(w, r, "c");
    removed := w.Remove("c");
    w.Drop();
    last := r.Get("c");
    replica := r.hashmap;
    assert r.rx.delivered == r.rx.Sent();
  }
}
