/** The three event stores, each refining the abstract store step by step. */
module Stores {
  import opened Texts
  import opened Json
  import opened EventLog
  import opened StoreSpec
  import opened RangeRead
  import opened Visibility

  /** The index range a store computes from the envelopes it is about to write. */
  function RangeOfEnvelopes(es: seq<EventEnvelope>, start: nat): Range {
    Range(if |es| > 0 then es[0].seqNo else start, if |es| > 0 then es[|es| - 1].seqNo else start, |es|)
  }

  lemma RangeMatches(b: TxBundle, s: Stream, before: nat)
    ensures RangeOfEnvelopes(Envelopes(b, s, before), before) == RangeAfter(before, |b.Part(s)|)
  {
  }

  /** What one more transaction adds to each array of a store. */
  lemma ArraysGrow(log: Log, b: TxBundle)
    ensures forall s :: Events(log + [b], s) == Events(log, s) + Envelopes(b, s, Count(log, s))
    ensures forall s :: Count(log + [b], s) == Count(log, s) + |b.Part(s)|
    ensures IndexOf(log + [b]) == IndexOf(log) + [EntryFor(log, b)]
    ensures LastEntries(IndexOf(log + [b])) == LastEntries(IndexOf(log))[b.txId := EntryFor(log, b)]
  {
    assert (log + [b])[..|log|] == log;
    LastEntriesSnoc(IndexOf(log), EntryFor(log, b));
  }

  lemma FaultPointCases(p: FaultPoint)
    ensures p in {BeforeAnyWrite, AfterMetaEvents, AfterGraphEvents, AfterTxIndex, AfterHeadsUpdate,
      AfterIdempotencyUpsert, BeforeIdbCommit}
  {
    match p {
      case BeforeAnyWrite =>
      case AfterMetaEvents =>
      case AfterGraphEvents =>
      case AfterTxIndex =>
      case AfterHeadsUpdate =>
      case AfterIdempotencyUpsert =>
      case BeforeIdbCommit =>
    }
  }

  /** A window of what the viewer sees of a store's arrays; a space never written returns the
      cursor as it came. */
  method VisiblePage(index: seq<TxIndexEntry>, meta: seq<EventEnvelope>, graph: seq<EventEnvelope>, ghost log: Log,
                     from: int, limit: nat, viewer: Viewer)
    returns (txs: seq<TxView>, cursor: int)
    requires index == IndexOf(log) && meta == Events(log, Meta) && graph == Events(log, Graph) && UniqueIds(log)
    ensures ShowsLog(txs, Window(VisibleLog(log, viewer), from, limit))
    ensures PageOfShown(txs, log, from, limit, viewer)
    ensures forall i | 0 <= i < |txs| :: txs[i].txIndex == SafeCursor(from) + i + 1
    ensures cursor == (if log == [] then from else (if from < 0 then 0 else from) + |txs|)
  {
    hide UniqueIds, Events, Count, Envelopes, Shows;
    if |index| == 0 {
      PageIsOfShown([], log, from, limit, viewer);
      return [], from;
    }
    var views := BuildTxBundles(index, meta, graph);
    var page := FilterVisibleTxs(views, from, limit, viewer);
    txs, cursor := page.0, page.1;
    ViewsShowLog(log);
    WindowShows(views, log, from, limit, viewer);
    PageIsOfShown(txs, log, from, limit, viewer);
  }

  method VisibleCount(index: seq<TxIndexEntry>, meta: seq<EventEnvelope>, graph: seq<EventEnvelope>, ghost log: Log,
      viewer: Viewer)
    returns (n: nat)
    requires index == IndexOf(log) && meta == Events(log, Meta) && graph == Events(log, Graph) && UniqueIds(log)
    ensures n == |VisibleLog(log, viewer)| == |ShownPositions(log, viewer)|
  {
    var views := BuildTxBundles(index, meta, graph);
    n := CountVisibleTxs(views, viewer);
    ViewsShowLog(log);
    WindowShows(views, log, 0, 0, viewer);
    VisibleRanks(log, viewer);
  }

  // ---------------------------------------------------------------- in memory

  class InMemoryLocalEventStore {
    var meta: seq<EventEnvelope>
    var graph: seq<EventEnvelope>
    var txIndex: seq<TxIndexEntry>
    var txById: map<Text, TxIndexEntry>
    var idempotency: map<Slot, IdemRow>
    ghost var log: Log

    ghost predicate Valid()
      reads this
    {
      && meta == Events(log, Meta) && graph == Events(log, Graph)
      && txIndex == IndexOf(log) && txById == LastEntries(IndexOf(log))
    }

    ghost function Abs(): Store
      reads this
    {
      Store(log, idempotency)
    }

    constructor ()
      ensures Valid() && Abs() == EmptyStore
    {
      meta, graph, txIndex, txById, idempotency := [], [], [], map[], map[];
      log := [];
    }

    method AppendTx(b: TxBundle, ctx: IdempotencyCtx, failAt: Option<FaultPoint>) returns (o: Outcome)
      requires Valid()
      modifies this
      ensures Valid() && (Abs(), o) == Append(old(Abs()), b, ctx, failAt)
    {
      hide Events, Count, IndexOf, LastEntries, Envelopes, RangeOfEnvelopes, RangeAfter;
      if |b.metaEvents| == 0 && |b.graphEvents| == 0 { return Failed(EmptyTx); }
      var slot := Slot(ctx.actorId, ctx.key);
      if slot in idempotency {
        if idempotency[slot].payloadHash != ctx.payloadHash { return Failed(IdempotencyPayloadMismatch); }
        return Committed(idempotency[slot].receipt);
      }
      if ctx.requiredBaseCursor.Some?
         && (ctx.requiredBaseCursor.value.metaSeq != |meta| || ctx.requiredBaseCursor.value.graphSeq != |graph|) {
        return Failed(RevisionMismatch);
      }
      if failAt == Some(BeforeAnyWrite) { return Faulted(BeforeAnyWrite); }
      var metaStart, graphStart := |meta|, |graph|;
      var newMeta := Envelopes(b, Meta, metaStart);
      var newGraph := Envelopes(b, Graph, graphStart);
      if failAt == Some(AfterMetaEvents) { return Faulted(AfterMetaEvents); }
      if failAt == Some(AfterGraphEvents) { return Faulted(AfterGraphEvents); }
      var entry := TxIndexEntry(b.txId, |txIndex| + 1, RangeOfEnvelopes(newMeta, metaStart),
        RangeOfEnvelopes(newGraph, graphStart));
      if failAt == Some(AfterTxIndex) { return Faulted(AfterTxIndex); }
      if failAt == Some(AfterHeadsUpdate) { return Faulted(AfterHeadsUpdate); }
      var receipt := Receipt(b.txId, entry.txIndex, Cursor(metaStart + |newMeta|, graphStart + |newGraph|),
        RefsOf(newMeta), RefsOf(newGraph));
      if failAt == Some(AfterIdempotencyUpsert) { return Faulted(AfterIdempotencyUpsert); }
      if failAt == Some(BeforeIdbCommit) { return Faulted(BeforeIdbCommit); }
      if failAt.Some? { FaultPointCases(failAt.value); }
      assert receipt == ReceiptFor(log, b);
      RangeMatches(b, Meta, metaStart);
      RangeMatches(b, Graph, graphStart);
      ArraysGrow(log, b);
      meta := meta + newMeta;
      graph := graph + newGraph;
      txIndex := txIndex + [entry];
      txById := txById[b.txId := entry];
      idempotency := idempotency[slot := IdemRow(ctx.payloadHash, receipt)];
      log := log + [b];
      return Committed(receipt);
    }

    method ReadTx(txId: Text) returns (r: Option<StoredTx>)
      requires Valid()
      ensures r == ReadTxOf(log, txId)
    {
      if txId !in txById { return None; }
      var entry := txById[txId];
      r := Some(StoredTx(txId,
                         SliceBySeqRange(meta, entry.meta.start, entry.meta.end),
                         SliceBySeqRange(graph, entry.graph.start, entry.graph.end)));
    }

    method ReadRange(s: Stream, from: nat, limit: nat, cap: Option<nat>) returns (r: seq<EventEnvelope>)
      requires Valid()
      ensures r == RangeRead.ReadRange(log, s, from, limit, cap)
    {
      hide Events, Count, IndexOf, LastEntries, SliceBySeqBounds, UniqueIds;
      var source := if s.Meta? then meta else graph;
      var bounded := SliceBySeqBounds(source, from + 1, cap);
      if |bounded| <= limit { return bounded; }
      if limit == 0 { return []; }
      var initial := bounded[..limit];
      var last := initial[limit - 1];
      if last.txId !in txById { return initial; }
      var txEnd := txById[last.txId].Part(s).end;
      if last.seqNo >= txEnd { return initial; }
      r := SliceBySeqBounds(source, from + 1, Some(if cap.Some? then Min(cap.value, txEnd) else txEnd));
    }

    method GetCursorHead() returns (c: Cursor)
      requires Valid()
      ensures c == Head(log)
    {
      c := Cursor(|meta|, |graph|);
    }

    /** A page of the transactions the viewer sees, numbered by visible rank. */
    method ReadPrincipalTxRange(from: int, limit: nat, viewer: Viewer) returns (txs: seq<TxView>, cursor: int)
      requires Valid() && UniqueIds(log)
      ensures ShowsLog(txs, Window(VisibleLog(log, viewer), from, limit))
      ensures PageOfShown(txs, log, from, limit, viewer)
      ensures forall i | 0 <= i < |txs| :: txs[i].txIndex == SafeCursor(from) + i + 1
      ensures cursor == (if log == [] then from else (if from < 0 then 0 else from) + |txs|)
    {
      txs, cursor := VisiblePage(txIndex, meta, graph, log, from, limit, viewer);
    }

    method GetPrincipalCursorHead(viewer: Viewer) returns (n: nat)
      requires Valid() && UniqueIds(log)
      ensures n == |VisibleLog(log, viewer)| == |ShownPositions(log, viewer)|
    {
      n := VisibleCount(txIndex, meta, graph, log, viewer);
    }
  }
}
