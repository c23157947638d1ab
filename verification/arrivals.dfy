/** Appends other writers make to a store while someone else awaits an answer. */
module Arrivals {
  import opened Texts
  import opened EventLog
  import opened StoreSpec
  import opened Stores

  method AppendArrival(store: InMemoryLocalEventStore, b: TxBundle, ctx: IdempotencyCtx)
    requires store.Valid() && UniqueIds(store.log)
    modifies store
    ensures store.Valid() && UniqueIds(store.log) && old(store.log) <= store.log
    ensures store.Abs() == Arrive(old(store.Abs()), b, ctx)
  {
    hide Events, Count, IndexOf, LastEntries, UniqueIds, Append;
    ArriveGrows(store.Abs(), b, ctx);
    LastEntriesKeys(store.log, b.txId);
    if b.txId !in store.txById {
      var _ := store.AppendTx(b, ctx, None);
    }
  }

  method AppendArrivals(store: InMemoryLocalEventStore, arrivals: seq<(TxBundle, IdempotencyCtx)>)
    requires store.Valid() && UniqueIds(store.log)
    modifies store
    ensures store.Valid() && UniqueIds(store.log) && old(store.log) <= store.log
    ensures store.Abs() == ArriveAll(old(store.Abs()), arrivals)
  {
    hide Events, Count, IndexOf, LastEntries, UniqueIds, Arrive;
    for i := 0 to |arrivals|
      invariant store.Valid() && UniqueIds(store.log) && old(store.log) <= store.log
      invariant store.Abs() == ArriveAll(old(store.Abs()), arrivals[..i])
    {
      ArriveAllStep(old(store.Abs()), arrivals, i);
      AppendArrival(store, arrivals[i].0, arrivals[i].1);
    }
    assert arrivals[..|arrivals|] == arrivals;
  }
}
