/** The file-backed store: a staged space is put in place for readers, written to the file, and
    rolled back if the write fails. */
module FileStore {
  import opened Texts
  import opened Json
  import opened EventLog
  import opened StoreSpec
  import opened RangeRead
  import opened Visibility
  import opened Stores

  datatype FileSpace = FileSpace(meta: seq<EventEnvelope>, graph: seq<EventEnvelope>, txIndex: seq<TxIndexEntry>,
      idempotency: map<Slot, IdemRow>)

  ghost predicate HoldsLog(sp: FileSpace, log: Log) {
    sp.meta == Events(log, Meta) && sp.graph == Events(log, Graph) && sp.txIndex == IndexOf(log)
  }

  /** The abstract effect of one append whose file write, if one is needed, succeeds or not. */
  function AppendPersisted(s: Store, b: TxBundle, ctx: IdempotencyCtx, failAt: Option<FaultPoint>, written: bool)
    : (Store, Outcome)
  {
    var (s', o) := Append(s, b, ctx, failAt);
    if s' == s || written then (s', o) else (s, PersistFailed)
  }

  lemma {:induction false} UniqueIndexSize(log: Log)
    requires UniqueIds(log)
    ensures |LastEntries(IndexOf(log))| == |log|
  {
    if log != [] {
      var init, last := log[..|log| - 1], log[|log| - 1];
      UniqueIndexSize(init);
      LastEntriesUnfold(log);
      LastEntriesKeys(init, last.txId);
      UniqueLast(log);
    }
  }

  // ---------------------------------------------------------------- reading with another log's id map

  /** Where a page cut at `cut` ends when the id map says its transaction ends at `end`. */
  function PageEnd(cut: nat, end: nat, hi: nat): nat {
    if end > cut then Min(hi, end) else cut
  }

  function EndIn(byId: map<Text, TxIndexEntry>, txId: Text, s: Stream): nat {
    if txId in byId then byId[txId].Part(s).end else 0
  }

  /** readRange with any id map, when a page has to be cut. */
  lemma RangeByEnd(events: seq<EventEnvelope>, byId: map<Text, TxIndexEntry>, s: Stream, from: nat, limit: nat,
      cap: Option<nat>)
    requires limit > 0 && from + limit < Min(|events|, cap.GetOr(|events|))
      && events[from + limit - 1].seqNo == from + limit
    ensures var hi, cut := Min(|events|, cap.GetOr(|events|)), from + limit;
      ReadRangeFrom(events, byId, s, from, limit, cap) ==
        events[from..PageEnd(cut, EndIn(byId, events[cut - 1].txId, s), hi)]
  {
    hide SliceBySeqBounds;
    var hi, cut := Min(|events|, cap.GetOr(|events|)), from + limit;
    var end := EndIn(byId, events[cut - 1].txId, s);
    BoundsSlice(events, from, cap);
    SliceOfSlice(events, from, hi, limit);
    assert events[from..cut][limit - 1] == events[cut - 1];
    if end > cut {
      BoundsSlice(events, from, Some(if cap.Some? then Min(cap.value, end) else end));
    }
  }

  /** The transaction a cut falls in: one of the common prefix, or the last. */
  lemma CutOwner(durable: Log, b: TxBundle, s: Stream, cut: nat) returns (k: nat)
    requires 0 < cut <= Count(durable + [b], s)
    ensures k <= |durable| && (k < |durable| <==> cut <= Count(durable, s))
    ensures Events(durable + [b], s)[cut - 1].txId == (durable + [b])[k].txId
    ensures Events(durable + [b], s)[cut - 1].seqNo == cut
  {
    hide Events, Count;
    var log := durable + [b];
    k := TxOfEvent(log, cut - 1, s);
    SeqNumbersDense(log, s);
    assert log[..|durable|] == durable;
    if k < |durable| {
      CountMonotone(log, k + 1, |durable|, s);
    } else {
      assert log[..k] == durable;
    }
  }

  /** The id maps of two logs that differ in their last transaction agree on the common prefix. */
  lemma EndsAgree(durable: Log, x: TxBundle, k: nat, s: Stream)
    requires UniqueIds(durable + [x]) && k < |durable|
    ensures EndIn(LastEntries(IndexOf(durable + [x])), durable[k].txId, s) ==
      EntryFor(durable[..k], durable[k]).Part(s).end
  {
    hide LastEntries, IndexOf, EntryFor;
    LastEntriesOfLog(durable + [x], k);
    assert (durable + [x])[..k] == durable[..k] && (durable + [x])[k] == durable[k];
  }

  lemma LastEndIs(durable: Log, x: TxBundle, txId: Text, s: Stream)
    requires UniqueIds(durable + [x]) && !HasTx(durable, txId)
    ensures EndIn(LastEntries(IndexOf(durable + [x])), txId, s) == if x.txId == txId then Count(durable + [x], s) else 0
  {
    hide LastEntries, IndexOf, Count, UniqueIds;
    var log := durable + [x];
    assert log[..|durable|] == durable && log[..|durable| + 1] == log;
    LastEntriesKeys(log, txId);
    HasTxUnfold(durable, x, txId);
    if x.txId == txId {
      LastEntriesOfLog(log, |durable|);
      CountStep(log, |durable|, s);
    }
  }

  /** Reading the log that ends in `b` with the id map of the log that ends in `x` instead: the
      answer is right exactly when nothing is cut, or the cut falls before the two differ, or `x`
      has the id of `b` and, as `x` had it, the transaction reaches as far as is read. */
  lemma RangeWithOldMap(durable: Log, x: TxBundle, b: TxBundle, s: Stream, from: nat, limit: nat, cap: Option<nat>)
    requires UniqueIds(durable + [x]) && UniqueIds(durable + [b])
    ensures var log, hi := durable + [b], Limit(durable + [b], s, cap);
      ReadRangeFrom(Events(log, s), LastEntries(IndexOf(durable + [x])), s, from, limit, cap) ==
        ReadRange(log, s, from, limit, cap) <==>
        || hi <= from + limit || limit == 0
        || from + limit <= Count(durable, s)
        || (x.txId == b.txId && Count(durable + [x], s) >= hi)
  {
    hide Events, Count, IndexOf, LastEntries, EntryFor, UniqueIds, HasTx, EndIn, SliceBySeqBounds;
    var log, hi, cut := durable + [b], Limit(durable + [b], s, cap), from + limit;
    var events := Events(log, s);
    if hi > cut && limit > 0 {
      var k := CutOwner(durable, b, s, cut);
      RangeByEnd(events, LastEntries(IndexOf(durable + [x])), s, from, limit, cap);
      RangeByEnd(events, LastEntries(IndexOf(log)), s, from, limit, cap);
      if k < |durable| {
        EndsAgree(durable, x, k, s);
        EndsAgree(durable, b, k, s);
      } else {
        LastIsFresh(durable, b);
        LastEndIs(durable, x, b.txId, s);
        LastEndIs(durable, b, b.txId, s);
      }
    } else {
      NothingCut(events, LastEntries(IndexOf(durable + [x])), LastEntries(IndexOf(log)), s, from, limit, cap);
    }
  }

  /** What the range of a part of n events after `before` others reads. */
  function ByRange(events: seq<EventEnvelope>, before: nat, n: nat): seq<EventEnvelope> {
    SliceBySeqRange(events, RangeAfter(before, n).start, RangeAfter(before, n).end)
  }

  /** The range of a part of nx events reads a part of nb events right: it reaches as far, or, for an
      empty part, is empty too or at the start of the stream. */
  predicate PartFits(before: nat, nx: nat, nb: nat) {
    if nb == 0 then nx == 0 || before == 0 else nx >= nb
  }

  predicate ReadTxFits(durable: Log, x: TxBundle, b: TxBundle, txId: Text) {
    || (txId != x.txId && txId != b.txId)
    || (x.txId == b.txId
        && PartFits(Count(durable, Meta), |x.metaEvents|, |b.metaEvents|)
        && PartFits(Count(durable, Graph), |x.graphEvents|, |b.graphEvents|))
  }

  lemma ByOldRange(events: seq<EventEnvelope>, before: nat, nx: nat, nb: nat)
    requires |events| == before + nb && forall i | 0 <= i < |events| :: events[i].seqNo == i + 1
    ensures ByRange(events, before, nx) == ByRange(events, before, nb) <==> PartFits(before, nx, nb)
  {
    SliceOfRange(events, before, nb);
    if nx == 0 && nb > 0 && before > 0 {
      assert ByRange(events, before, nx)[0].seqNo == before;
    }
  }

  /** readTx of the log that ends in `b` with the id map of the log that ends in `x` instead is right
      exactly for the ids of neither, and for their common id when both parts fit. */
  lemma ReadTxWithOldMap(durable: Log, x: TxBundle, b: TxBundle, txId: Text)
    requires UniqueIds(durable + [x]) && UniqueIds(durable + [b])
    ensures var log := durable + [b];
      var r := ReadTxFrom(Events(log, Meta), Events(log, Graph), LastEntries(IndexOf(durable + [x])), txId);
      r == ReadTxOf(log, txId) <==> ReadTxFits(durable, x, b, txId)
  {
    hide Events, Count, IndexOf, LastEntries, UniqueIds, HasTx, SliceBySeqRange, PartFits, RangeAfter;
    var log := durable + [b];
    assert log[..|durable|] == durable && log[..|durable| + 1] == log && (durable + [x])[..|durable|] == durable;
    LastEntriesUnfold(durable + [x]);
    LastEntriesUnfold(log);
    LastIsFresh(durable, x);
    LastIsFresh(durable, b);
    LastEntriesKeys(durable, txId);
    if x.txId == b.txId == txId {
      forall s: Stream
        ensures ByRange(Events(log, s), Count(durable, s), |x.Part(s)|) ==
                ByRange(Events(log, s), Count(durable, s), |b.Part(s)|) <==>
                  PartFits(Count(durable, s), |x.Part(s)|, |b.Part(s)|)
      {
        SeqNumbersDense(log, s);
        CountStep(log, |durable|, s);
        ByOldRange(Events(log, s), Count(durable, s), |x.Part(s)|, |b.Part(s)|);
      }
    }
  }

  lemma LastIsFresh(durable: Log, b: TxBundle)
    requires UniqueIds(durable + [b])
    ensures !HasTx(durable, b.txId)
  {
    UniqueLast(durable + [b]);
    assert (durable + [b])[..|durable|] == durable;
  }

  lemma NothingCut(events: seq<EventEnvelope>, a: map<Text, TxIndexEntry>, b: map<Text, TxIndexEntry>, s: Stream,
      from: nat, limit: nat, cap: Option<nat>)
    requires Min(|events|, cap.GetOr(|events|)) <= from + limit || limit == 0
    ensures ReadRangeFrom(events, a, s, from, limit, cap) == ReadRangeFrom(events, b, s, from, limit, cap)
  {
  }

  // ---------------------------------------------------------------- the store

  class FileBackedLocalEventStore {
    var state: FileSpace               // the space readers see
    var pending: bool                  // a write of `state` is in flight
    var cache: Option<map<Text, TxIndexEntry>>
    var persistQueueRejected: bool     // once rejected, the promise chain never runs again
    var disk: FileSpace                // what the file holds
    ghost var log: Log
    ghost var durable: Log
    ghost var cachedLog: Log           // the log the cache was built from

    ghost predicate Valid()
      reads this
    {
      && HoldsLog(state, log) && HoldsLog(disk, durable)
      && (if pending then |log| == |durable| + 1 && log[..|durable|] == durable else state == disk && log == durable)
      && (cache.Some? ==>
            && cache.value == LastEntries(IndexOf(cachedLog)) && UniqueIds(cachedLog)
            && durable <= cachedLog && |cachedLog| <= |durable| + 1)
    }

    /** The cache has the size of the staged index but was built for another transaction, one whose
        write failed. */
    ghost predicate Stale()
      reads this
    {
      pending && cache.Some? && |cachedLog| == |log| && cachedLog != log
    }

    ghost function Abs(): Store
      reads this
    {
      Store(log, state.idempotency)
    }

    ghost function Durable(): Store
      reads this
    {
      Store(durable, disk.idempotency)
    }

    constructor ()
      ensures Valid() && !pending && !persistQueueRejected && Abs() == Durable() == EmptyStore
      ensures cache == None
    {
      state, disk := FileSpace([], [], [], map[]), FileSpace([], [], [], map[]);
      pending, persistQueueRejected, cache := false, false, None;
      log, durable, cachedLog := [], [], [];
    }

    /** Everything of an append before the file write: a refusal, a replay, a fault, or the new
        space put in place for readers while the write runs. */
    method StageAppend(b: TxBundle, ctx: IdempotencyCtx, failAt: Option<FaultPoint>) returns (o: Outcome)
      requires Valid() && !pending
      modifies this
      ensures Valid() && (Abs(), o) == Append(old(Abs()), b, ctx, failAt)
      ensures Durable() == old(Durable()) && persistQueueRejected == old(persistQueueRejected)
      ensures pending <==> Abs() != old(Abs())
      ensures cache == old(cache) && cachedLog == old(cachedLog) && disk == old(disk) && durable == old(durable)
    {
      hide Events, Count, IndexOf, LastEntries, Envelopes, RangeOfEnvelopes, RangeAfter;
      if |b.metaEvents| == 0 && |b.graphEvents| == 0 { return Failed(EmptyTx); }
      var slot := Slot(ctx.actorId, ctx.key);
      if slot in state.idempotency {
        if state.idempotency[slot].payloadHash != ctx.payloadHash { return Failed(IdempotencyPayloadMismatch); }
        return Committed(state.idempotency[slot].receipt);
      }
      if ctx.requiredBaseCursor.Some?
         && (ctx.requiredBaseCursor.value.metaSeq != |state.meta|
           || ctx.requiredBaseCursor.value.graphSeq != |state.graph|) {
        return Failed(RevisionMismatch);
      }
      if failAt == Some(BeforeAnyWrite) { return Faulted(BeforeAnyWrite); }
      var metaStart, graphStart := |state.meta|, |state.graph|;
      var meta := Envelopes(b, Meta, metaStart);
      var graph := Envelopes(b, Graph, graphStart);
      if failAt == Some(AfterMetaEvents) { return Faulted(AfterMetaEvents); }
      if failAt == Some(AfterGraphEvents) { return Faulted(AfterGraphEvents); }
      var entry := TxIndexEntry(b.txId, |state.txIndex| + 1, RangeOfEnvelopes(meta, metaStart),
        RangeOfEnvelopes(graph, graphStart));
      if failAt == Some(AfterTxIndex) { return Faulted(AfterTxIndex); }
      if failAt == Some(AfterHeadsUpdate) { return Faulted(AfterHeadsUpdate); }
      var receipt := Receipt(b.txId, entry.txIndex, Cursor(metaStart + |meta|, graphStart + |graph|), RefsOf(meta),
        RefsOf(graph));
      if failAt == Some(AfterIdempotencyUpsert) { return Faulted(AfterIdempotencyUpsert); }
      if failAt == Some(BeforeIdbCommit) { return Faulted(BeforeIdbCommit); }
      if failAt.Some? { FaultPointCases(failAt.value); }
      assert receipt == ReceiptFor(log, b);
      RangeMatches(b, Meta, metaStart);
      RangeMatches(b, Graph, graphStart);
      ArraysGrow(log, b);
      state := FileSpace(state.meta + meta, state.graph + graph, state.txIndex + [entry],
                         state.idempotency[slot := IdemRow(ctx.payloadHash, receipt)]);
      pending := true;
      log := log + [b];
      assert |log| != |old(log)|;
      return Committed(receipt);
    }

    /** The file write: it runs only on an unrejected queue; a failure restores the old space and
        leaves the queue rejected. */
    method FinishPersist(writeOk: bool) returns (written: bool)
      requires Valid() && pending
      modifies this
      ensures Valid() && !pending && written == (writeOk && !old(persistQueueRejected))
      ensures Abs() == Durable() == if written then old(Abs()) else old(Durable())
      ensures persistQueueRejected == !written && disk == (if written then old(state) else old(disk))
      ensures cache == (if written then None else old(cache)) && cachedLog == old(cachedLog)
    {
      hide Events, Count, IndexOf, LastEntries, UniqueIds;
      pending := false;
      if persistQueueRejected || !writeOk {
        persistQueueRejected := true;
        state := disk;
        log := durable;
        return false;
      }
      disk := state;
      durable := log;
      cache := None;
      return true;
    }

    /** appendTx with no reader in between: a committed write, or nothing changed. */
    method AppendTx(b: TxBundle, ctx: IdempotencyCtx, failAt: Option<FaultPoint>, writeOk: bool) returns (o: Outcome)
      requires Valid() && !pending
      modifies this
      ensures Valid() && !pending && Abs() == Durable()
      ensures (Abs(), o) == AppendPersisted(old(Abs()), b, ctx, failAt, writeOk && !old(persistQueueRejected))
      ensures old(persistQueueRejected) ==> persistQueueRejected && Abs() == old(Abs())
    {
      o := StageAppend(b, ctx, failAt);
      if pending {
        var written := FinishPersist(writeOk);
        if !written {
          o := PersistFailed;
        }
      }
    }

    /** The id map readers use: that of the log they see, unless the cache is stale. */
    method GetTxIndexById() returns (byId: map<Text, TxIndexEntry>)
      requires Valid() && UniqueIds(log)
      modifies this`cache, this`cachedLog
      ensures Valid() && cache == Some(byId)
      ensures cachedLog == if old(Stale()) then old(cachedLog) else log
      ensures byId == LastEntries(IndexOf(cachedLog))
    {
      hide Events, Count, IndexOf, LastEntries, UniqueIds;
      UniqueIndexSize(log);
      if cache.Some? {
        UniqueIndexSize(cachedLog);
      }
      if cache.Some? && |cache.value| == |state.txIndex| {
        return cache.value;
      }
      byId := LastEntries(state.txIndex);
      cache := Some(byId);
      cachedLog := log;
    }

    /** A read of one transaction, with or without a write in flight.  Through a stale cache it is right
        exactly for ids of neither the transaction being written nor the one the cache has in its
        place, and for their common id when what the cache has reaches as far. */
    method ReadTx(txId: Text) returns (r: Option<StoredTx>)
      requires Valid() && UniqueIds(log)
      modifies this`cache, this`cachedLog
      ensures Valid() && cache.Some? && cachedLog == if old(Stale()) then old(cachedLog) else log
      ensures r == ReadTxFrom(Events(log, Meta), Events(log, Graph), LastEntries(IndexOf(cachedLog)), txId)
      ensures r == ReadTxOf(log, txId) <==>
        !old(Stale()) || ReadTxFits(durable, cachedLog[|durable|], log[|durable|], txId)
    {
      hide Events, Count, IndexOf, LastEntries, UniqueIds, ReadTxFits;
      var byId := GetTxIndexById();
      if old(Stale()) {
        assert log == durable + [log[|durable|]] && cachedLog == durable + [cachedLog[|durable|]];
        ReadTxWithOldMap(durable, cachedLog[|durable|], log[|durable|], txId);
      }
      if txId !in byId { return None; }
      var entry := byId[txId];
      r := Some(StoredTx(txId,
                         SliceBySeqRange(state.meta, entry.meta.start, entry.meta.end),
                         SliceBySeqRange(state.graph, entry.graph.start, entry.graph.end)));
    }

    /** A range read, with or without a write in flight.  Through a stale cache it is right exactly
        when no page is cut inside the transaction being written, or the cache has that very
        transaction reaching as far as is read. */
    method ReadRange(s: Stream, from: nat, limit: nat, cap: Option<nat>) returns (r: seq<EventEnvelope>)
      requires Valid() && UniqueIds(log)
      modifies this`cache, this`cachedLog
      ensures Valid() && cache.Some? && cachedLog == if old(Stale()) then old(cachedLog) else log
      ensures r == ReadRangeFrom(Events(log, s), LastEntries(IndexOf(cachedLog)), s, from, limit, cap)
      ensures r == RangeRead.ReadRange(log, s, from, limit, cap) <==>
        || !old(Stale())
        || Limit(log, s, cap) <= from + limit || limit == 0
        || from + limit <= Count(durable, s)
        || (cachedLog[|durable|].txId == log[|durable|].txId && Count(cachedLog, s) >= Limit(log, s, cap))
    {
      hide Events, Count, IndexOf, LastEntries, UniqueIds, SliceBySeqBounds;
      var byId := GetTxIndexById();
      ghost var stale := old(Stale());
      if stale {
        assert log == durable + [log[|durable|]] && cachedLog == durable + [cachedLog[|durable|]];
        RangeWithOldMap(durable, cachedLog[|durable|], log[|durable|], s, from, limit, cap);
      }
      var source := if s.Meta? then state.meta else state.graph;
      var bounded := SliceBySeqBounds(source, from + 1, cap);
      if |bounded| <= limit { return bounded; }
      if limit == 0 { return []; }
      var initial := bounded[..limit];
      var last := initial[limit - 1];
      if last.txId !in byId { return initial; }
      var txEnd := byId[last.txId].Part(s).end;
      if last.seqNo >= txEnd { return initial; }
      r := SliceBySeqBounds(source, from + 1, Some(if cap.Some? then Min(cap.value, txEnd) else txEnd));
    }

    method GetCursorHead() returns (c: Cursor)
      requires Valid()
      ensures c == Head(log)
    {
      c := Cursor(|state.meta|, |state.graph|);
    }

    method ReadPrincipalTxRange(from: int, limit: nat, viewer: Viewer) returns (txs: seq<TxView>, cursor: int)
      requires Valid() && UniqueIds(log)
      ensures ShowsLog(txs, Window(VisibleLog(log, viewer), from, limit))
      ensures PageOfShown(txs, log, from, limit, viewer)
      ensures forall i | 0 <= i < |txs| :: txs[i].txIndex == SafeCursor(from) + i + 1
      ensures cursor == (if log == [] then from else (if from < 0 then 0 else from) + |txs|)
    {
      txs, cursor := VisiblePage(state.txIndex, state.meta, state.graph, log, from, limit, viewer);
    }

    method GetPrincipalCursorHead(viewer: Viewer) returns (n: nat)
      requires Valid() && UniqueIds(log)
      ensures n == |VisibleLog(log, viewer)| == |ShownPositions(log, viewer)|
    {
      n := VisibleCount(state.txIndex, state.meta, state.graph, log, viewer);
    }

    /** A process restart: the file is read again, the promise chain starts afresh. */
    method Reopen()
      requires Valid()
      modifies this
      ensures Valid() && !pending && !persistQueueRejected && Abs() == Durable() == old(Durable())
    {
      hide Events, Count, IndexOf, LastEntries, UniqueIds;
      state := disk;
      log := durable;
      pending, persistQueueRejected, cache := false, false, None;
    }
  }

  // ---------------------------------------------------------------- a stale cache

  /** A write that would commit a new transaction. */
  ghost predicate Fresh(s: Store, b: TxBundle, ctx: IdempotencyCtx) {
    !b.Empty() && !HasTx(s.log, b.txId) && ctx.IdemSlot() !in s.idempotency && ctx.requiredBaseCursor.None?
  }

  /** A reader during a write that then fails leaves a cache one entry too large; during the next
      write, whose staged index has that size, it is stale. */
  method LeaveStaleCache(store: FileBackedLocalEventStore, a: TxBundle, ctxA: IdempotencyCtx, b: TxBundle,
      ctxB: IdempotencyCtx)
    requires store.Valid() && !store.pending && store.cache.None? && UniqueIds(store.log)
    requires Fresh(store.Abs(), a, ctxA) && Fresh(store.Abs(), b, ctxB) && a.txId != b.txId
    modifies store
    ensures store.Valid() && UniqueIds(store.log) && store.durable == old(store.log)
    ensures store.log == old(store.log) + [b] && store.cachedLog == old(store.log) + [a] && store.Stale()
  {
    hide Events, Count, LastEntries, IndexOf, HasTx, UniqueIds, ReceiptFor;
    ghost var before := store.log;
    UniqueSnoc(before, a);
    UniqueSnoc(before, b);
    var staged := store.StageAppend(a, ctxA, None);
    var seen := store.ReadTx(a.txId);
    var written := store.FinishPersist(false);
    staged := store.StageAppend(b, ctxB, None);
    assert store.log[|before|] == b && store.cachedLog[|before|] == a;
  }

  /** Through a stale cache readers find the transaction that was rolled back and miss the one being
      written. */
  method StaleReadDuringLaterWrite(store: FileBackedLocalEventStore, a: TxBundle, ctxA: IdempotencyCtx, b: TxBundle,
      ctxB: IdempotencyCtx)
    returns (rolledBack: Option<StoredTx>, current: Option<StoredTx>)
    requires store.Valid() && !store.pending && store.cache.None? && UniqueIds(store.log)
    requires Fresh(store.Abs(), a, ctxA) && Fresh(store.Abs(), b, ctxB) && a.txId != b.txId
    modifies store
    ensures store.log == old(store.log) + [b] && !HasTx(store.log, a.txId) && HasTx(store.log, b.txId)
    ensures rolledBack.Some? && current.None?
  {
    hide Events, Count, LastEntries, IndexOf, HasTx, UniqueIds, ReceiptFor;
    ghost var before := store.log;
    LeaveStaleCache(store, a, ctxA, b, ctxB);
    LastEntriesKeys(before + [a], a.txId);
    LastEntriesKeys(before + [a], b.txId);
    HasTxUnfold(before, a, a.txId);
    HasTxUnfold(before, a, b.txId);
    HasTxUnfold(before, b, a.txId);
    HasTxUnfold(before, b, b.txId);
    rolledBack := store.ReadTx(a.txId);
    current := store.ReadTx(b.txId);
  }

  /** Through a stale cache a range read stops after the first of several events of the transaction
      being written, where the abstract read returns them all. */
  method StaleRangeDuringLaterWrite(store: FileBackedLocalEventStore, a: TxBundle, ctxA: IdempotencyCtx, b: TxBundle,
      ctxB: IdempotencyCtx)
    returns (r: seq<EventEnvelope>)
    requires store.Valid() && !store.pending && store.cache.None? && UniqueIds(store.log)
    requires Fresh(store.Abs(), a, ctxA) && Fresh(store.Abs(), b, ctxB) && a.txId != b.txId && |b.graphEvents| > 1
    modifies store
    ensures store.log == old(store.log) + [b]
    ensures |r| == 1 && r == Envelopes(b, Graph, Count(old(store.log), Graph))[..1]
    ensures RangeRead.ReadRange(store.log, Graph, Count(old(store.log), Graph), 1, None) ==
      Envelopes(b, Graph, Count(old(store.log), Graph))
  {
    hide Events, Count, LastEntries, IndexOf, HasTx, UniqueIds, ReceiptFor, ReadRangeFrom;
    ghost var before := store.log;
    LeaveStaleCache(store, a, ctxA, b, ctxB);
    r := store.ReadRange(Graph, |store.disk.graph|, 1, None);
    CutInNewTx(before, a, b);
  }

  /** A page of one event taken where a transaction of several starts. */
  lemma CutInNewTx(before: Log, a: TxBundle, b: TxBundle)
    requires UniqueIds(before + [a]) && UniqueIds(before + [b]) && a.txId != b.txId && |b.graphEvents| > 1
    ensures var log, n := before + [b], Count(before, Graph);
      && ReadRangeFrom(Events(log, Graph), LastEntries(IndexOf(before + [a])), Graph, n, 1, None) ==
        Envelopes(b, Graph, n)[..1]
      && RangeRead.ReadRange(log, Graph, n, 1, None) == Envelopes(b, Graph, n)
  {
    hide Events, Count, LastEntries, IndexOf, HasTx, UniqueIds, EndIn, SliceBySeqBounds;
    var log, n := before + [b], Count(before, Graph);
    assert log[..|before|] == before && log[..|before| + 1] == log;
    EventsOfTx(log, |before|, Graph);
    var k := CutOwner(before, b, Graph, n + 1);
    RangeByEnd(Events(log, Graph), LastEntries(IndexOf(before + [a])), Graph, n, 1, None);
    RangeByEnd(Events(log, Graph), LastEntries(IndexOf(log)), Graph, n, 1, None);
    LastIsFresh(before, b);
    LastEndIs(before, a, b.txId, Graph);
    LastEndIs(before, b, b.txId, Graph);
    assert Events(log, Graph)[n..n + 1] == Events(log, Graph)[n..Count(log, Graph)][..1];
  }
}
