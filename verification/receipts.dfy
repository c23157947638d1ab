/** Receipts put together again from a store's index and arrays. */
module Receipts {
  import opened Texts
  import opened EventLog
  import opened StoreSpec
  import opened Stores
  import opened Shipping

  lemma FindEntryStep(index: seq<TxIndexEntry>, txId: Text, i: nat)
    requires i < |index|
    ensures FindEntry(index[i..], txId) ==
      if index[i].txId == txId then Some(index[i]) else FindEntry(index[i + 1..], txId)
  {
    assert index[i..][1..] == index[i + 1..];
  }

  lemma NothingToFind(index: seq<TxIndexEntry>, txId: Text)
    requires index == []
    ensures FindEntry(index, txId) == None
  {
  }

  /** `index.find`: the first entry with the id. */
  method FindInIndex(store: InMemoryLocalEventStore, txId: Text) returns (matched: Option<TxIndexEntry>)
    requires store.Valid()
    ensures matched == FindEntry(IndexOf(store.log), txId)
  {
    hide Events, Count, LastEntries, IndexOf, FindEntry;
    var index := store.txIndex;
    var i := 0;
    while i < |index| && index[i].txId != txId
      invariant 0 <= i <= |index| && FindEntry(index[i..], txId) == FindEntry(index, txId)
    {
      FindEntryStep(index, txId, i);
      i := i + 1;
    }
    if i < |index| {
      FindEntryStep(index, txId, i);
      return Some(index[i]);
    }
    NothingToFind(index[i..], txId);
    return None;
  }

  method BuildStableReceipt(store: InMemoryLocalEventStore, txId: Text) returns (o: Outcome)
    requires store.Valid()
    ensures o == StableReceipt(store.log, txId)
  {
    hide Events, Count, LastEntries, IndexOf, FindEntry, ReadTxFrom;
    var existing := store.ReadTx(txId);
    var matched := FindInIndex(store, txId);
    if existing.None? || matched.None? { return Failed(DivergenceDetected); }
    var entry := matched.value;
    o := Committed(Receipt(txId, entry.txIndex, Cursor(entry.meta.end, entry.graph.end),
                           RefsOf(existing.value.meta), RefsOf(existing.value.graph)));
  }
}
