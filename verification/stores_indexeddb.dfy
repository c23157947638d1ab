/** The IndexedDB-compatible store: changes are staged on a copy that is swapped in at the end. */
module IndexedDbStore {
  import opened Texts
  import opened Json
  import opened EventLog
  import opened StoreSpec
  import opened RangeRead
  import opened Visibility
  import opened Stores

  datatype IndexedSpace = IndexedSpace(
    metaEvents: seq<EventEnvelope>, graphEvents: seq<EventEnvelope>,
    txIndex: seq<TxIndexEntry>, txIndexByTxId: map<Text, TxIndexEntry>,
    heads: Cursor, idempotency: map<Slot, IdemRow>)

  class IndexedDbLocalEventStore {
    var space: IndexedSpace
    ghost var log: Log

    ghost predicate Valid()
      reads this
    {
      && space.metaEvents == Events(log, Meta) && space.graphEvents == Events(log, Graph)
      && space.txIndex == IndexOf(log) && space.txIndexByTxId == LastEntries(IndexOf(log))
      && space.heads == Head(log)
    }

    ghost function Abs(): Store
      reads this
    {
      Store(log, space.idempotency)
    }

    constructor ()
      ensures Valid() && Abs() == EmptyStore
    {
      space := IndexedSpace([], [], [], map[], Cursor(0, 0), map[]);
      log := [];
    }

    method AppendTx(b: TxBundle, ctx: IdempotencyCtx, failAt: Option<FaultPoint>) returns (o: Outcome)
      requires Valid()
      modifies this
      ensures Valid() && (Abs(), o) == Append(old(Abs()), b, ctx, failAt)
    {
      hide Events, Count, IndexOf, LastEntries, Envelopes, RangeOfEnvelopes, RangeAfter;
      if |b.metaEvents| == 0 && |b.graphEvents| == 0 { return Failed(EmptyTx); }
      var slot := Slot(ctx.actorId, ctx.key);
      if slot in space.idempotency {
        if space.idempotency[slot].payloadHash != ctx.payloadHash { return Failed(IdempotencyPayloadMismatch); }
        return Committed(space.idempotency[slot].receipt);
      }
      var staged := space;
      if ctx.requiredBaseCursor.Some?
         && (ctx.requiredBaseCursor.value.metaSeq != staged.heads.metaSeq
           || ctx.requiredBaseCursor.value.graphSeq != staged.heads.graphSeq) {
        return Failed(RevisionMismatch);
      }
      if failAt == Some(BeforeAnyWrite) { return Faulted(BeforeAnyWrite); }
      var metaStart, graphStart := |space.metaEvents|, |space.graphEvents|;
      assert metaStart == staged.heads.metaSeq && graphStart == staged.heads.graphSeq;
      var meta := Envelopes(b, Meta, staged.heads.metaSeq);
      if failAt == Some(AfterMetaEvents) { return Faulted(AfterMetaEvents); }
      var graph := Envelopes(b, Graph, staged.heads.graphSeq);
      if failAt == Some(AfterGraphEvents) { return Faulted(AfterGraphEvents); }
      var entry := TxIndexEntry(b.txId, |staged.txIndex| + 1,
                                RangeOfEnvelopes(meta, staged.heads.metaSeq),
                                RangeOfEnvelopes(graph, staged.heads.graphSeq));
      staged := staged.(txIndex := staged.txIndex + [entry], txIndexByTxId := staged.txIndexByTxId[b.txId := entry]);
      if failAt == Some(AfterTxIndex) { return Faulted(AfterTxIndex); }
      staged := staged.(metaEvents := staged.metaEvents + meta, graphEvents := staged.graphEvents + graph,
                        heads := Cursor(staged.heads.metaSeq + |meta|, staged.heads.graphSeq + |graph|));
      if failAt == Some(AfterHeadsUpdate) { return Faulted(AfterHeadsUpdate); }
      var receipt := Receipt(b.txId, entry.txIndex, staged.heads, RefsOf(meta), RefsOf(graph));
      staged := staged.(idempotency := staged.idempotency[slot := IdemRow(ctx.payloadHash, receipt)]);
      if failAt == Some(AfterIdempotencyUpsert) { return Faulted(AfterIdempotencyUpsert); }
      if failAt == Some(BeforeIdbCommit) { return Faulted(BeforeIdbCommit); }
      if failAt.Some? { FaultPointCases(failAt.value); }
      assert receipt == ReceiptFor(log, b);
      RangeMatches(b, Meta, metaStart);
      RangeMatches(b, Graph, graphStart);
      ArraysGrow(log, b);
      space := staged;
      log := log + [b];
      return Committed(receipt);
    }

    method ReadTx(txId: Text) returns (r: Option<StoredTx>)
      requires Valid()
      ensures r == ReadTxOf(log, txId)
    {
      if txId !in space.txIndexByTxId { return None; }
      var entry := space.txIndexByTxId[txId];
      r := Some(StoredTx(txId,
                         SliceBySeqRange(space.metaEvents, entry.meta.start, entry.meta.end),
                         SliceBySeqRange(space.graphEvents, entry.graph.start, entry.graph.end)));
    }

    method ReadRange(s: Stream, from: nat, limit: nat, cap: Option<nat>) returns (r: seq<EventEnvelope>)
      requires Valid()
      ensures r == RangeRead.ReadRange(log, s, from, limit, cap)
    {
      hide Events, Count, IndexOf, LastEntries, SliceBySeqBounds, UniqueIds;
      var source := if s.Meta? then space.metaEvents else space.graphEvents;
      var bounded := SliceBySeqBounds(source, from + 1, cap);
      if |bounded| <= limit { return bounded; }
      if limit == 0 { return []; }
      var initial := bounded[..limit];
      var last := initial[limit - 1];
      if last.txId !in space.txIndexByTxId { return initial; }
      var txEnd := space.txIndexByTxId[last.txId].Part(s).end;
      if last.seqNo >= txEnd { return initial; }
      r := SliceBySeqBounds(source, from + 1, Some(if cap.Some? then Min(cap.value, txEnd) else txEnd));
    }

    method GetCursorHead() returns (c: Cursor)
      requires Valid()
      ensures c == Head(log)
    {
      c := space.heads;
    }

    method ReadPrincipalTxRange(from: int, limit: nat, viewer: Viewer) returns (txs: seq<TxView>, cursor: int)
      requires Valid() && UniqueIds(log)
      ensures ShowsLog(txs, Window(VisibleLog(log, viewer), from, limit))
      ensures PageOfShown(txs, log, from, limit, viewer)
      ensures forall i | 0 <= i < |txs| :: txs[i].txIndex == SafeCursor(from) + i + 1
      ensures cursor == (if log == [] then from else (if from < 0 then 0 else from) + |txs|)
    {
      txs, cursor := VisiblePage(space.txIndex, space.metaEvents, space.graphEvents, log, from, limit, viewer);
    }

    method GetPrincipalCursorHead(viewer: Viewer) returns (n: nat)
      requires Valid() && UniqueIds(log)
      ensures n == |VisibleLog(log, viewer)| == |ShownPositions(log, viewer)|
    {
      n := VisibleCount(space.txIndex, space.metaEvents, space.graphEvents, log, viewer);
    }
  }
}
