/** The sync gateway over a store: each endpoint returns a function of the visible log alone. */
module Gateway {
  import opened Texts
  import opened Json
  import opened EventLog
  import opened StoreSpec
  import opened Visibility
  import opened Digest
  import opened Paging
  import opened Polling
  import opened Stores

  /** The payloads of a view are those of the bundle it shows. */
  lemma ShownPayloads(t: TxView, b: TxBundle)
    requires Shows(t, b)
    ensures TxBundle(t.txId, Payloads(t.meta), Payloads(t.graph)) == b
  {
    var m: nat :| t.meta == Envelopes(b, Meta, m);
    var g: nat :| t.graph == Envelopes(b, Graph, g);
    PayloadsOfEnvelopes(b, Meta, m);
    PayloadsOfEnvelopes(b, Graph, g);
  }

  lemma ShownLength(txs: seq<TxView>, v: Log)
    requires ShowsLog(txs, v)
    ensures |txs| == |v|
  {
  }

  lemma ShownAt(txs: seq<TxView>, v: Log, i: nat)
    requires ShowsLog(txs, v) && i < |txs|
    ensures i < |v| && TxBundle(txs[i].txId, Payloads(txs[i].meta), Payloads(txs[i].graph)) == v[i]
  {
    ShownPayloads(txs[i], v[i]);
  }

  /** `{ ...event, seq }` over a run of events, continuing after `before`. */
  function Renumber(es: seq<EventEnvelope>, before: nat): (r: seq<EventEnvelope>)
    ensures |r| == |es|
  {
    seq(|es|, i requires 0 <= i < |es| => es[i].(seqNo := before + i + 1))
  }

  lemma RenumberShown(t: TxView, b: TxBundle, s: Stream, before: nat)
    requires Shows(t, b)
    ensures Renumber(t.Part(s), before) == Envelopes(b, s, before)
  {
    var m: nat :| t.meta == Envelopes(b, Meta, m);
    var g: nat :| t.graph == Envelopes(b, Graph, g);
  }

  lemma WholeWindow<T>(xs: seq<T>, limit: nat)
    requires limit >= |xs|
    ensures Window(xs, 0, limit) == xs
  {
  }

  lemma TotalBytesStep(page: Log, i: nat)
    requires i < |page|
    ensures TotalBytes(page[..i + 1]) == TotalBytes(page[..i]) + BundleBytes(page[i])
  {
    assert page[..i + 1][..i] == page[..i];
  }

  lemma NothingTaken(page: Log, from: int)
    ensures TotalBytes(page[..0]) == 0 && Labelled(page[..0], from) == []
  {
  }

  lemma LabelledStep(page: Log, from: int, i: nat)
    requires i < |page|
    ensures Labelled(page[..i + 1], from) == Labelled(page[..i], from) + [VisibleTxBundle(from + i + 1, page[i])]
  {
  }

  lemma FitCountStep(page: Log, taken: nat, limitBytes: int)
    requires taken < |page|
    ensures FitCount(page, taken, limitBytes) ==
      if taken > 0 && TotalBytes(page[..taken + 1]) > limitBytes then taken else FitCount(page, taken + 1, limitBytes)
  {
  }

  lemma FitCountEnd(page: Log, limitBytes: int)
    ensures FitCount(page, |page|, limitBytes) == |page|
  {
  }

  lemma FitEventsEnd(space: Text, c: seq<EventEnvelope>, bytes: nat, limitEvents: int, limitBytes: int)
    ensures FitEvents(space, c, |c|, bytes, limitEvents, limitBytes) == |c|
  {
  }

  lemma FitEventsStep(space: Text, c: seq<EventEnvelope>, i: nat, bytes: nat, limitEvents: int, limitBytes: int)
    requires i < |c|
    ensures var end := RunEnd(c, i);
      var size := EventsBytes(space, c[i..end]);
      FitEvents(space, c, i, bytes, limitEvents, limitBytes) ==
        if i > 0 && (end > limitEvents || bytes + size > limitBytes) then i
        else FitEvents(space, c, end, bytes + size, limitEvents, limitBytes)
  {
    hide RunEnd, EventsBytes;
  }

  class LocalSyncGateway {
    const eventStore: InMemoryLocalEventStore
    const policy: Policy
    const graphSpaceId: Text

    constructor (eventStore: InMemoryLocalEventStore, policy: Policy, graphSpaceId: Text)
      ensures this.eventStore == eventStore && this.policy == policy && this.graphSpaceId == graphSpaceId
    {
      this.eventStore, this.policy, this.graphSpaceId := eventStore, policy, graphSpaceId;
    }

    /** The store is in order and its ids are fresh, as every committed log here is. */
    ghost predicate Ready()
      reads eventStore
    {
      eventStore.Valid() && UniqueIds(eventStore.log)
    }

    ghost function VisibleTo(principal: Text): Log
      reads eventStore
    {
      VisibleLog(eventStore.log, Viewer(policy, principal))
    }

    method SyncPull(principal: Text, from: int, limitTx: Option<int>, limitBytes: Option<int>)
        returns (bundles: seq<VisibleTxBundle>, cursorAfter: int)
      requires Ready()
      ensures (bundles, cursorAfter) == Pull(VisibleTo(principal), from, limitTx.GetOr(64),
        limitBytes.GetOr(128 * 1024))
    {
      hide VisibleLog, PageOfShown, ShownPositions, UniqueIds, BundleSize, BundleBytes, TotalBytes, FitCount, Labelled,
        Envelopes, Events, Count, IndexOf, LastEntries, ShowsLog, Payloads, Window;
      var maxTx := AtLeast(1, limitTx.GetOr(DEFAULT_LIMIT_TX));
      var maxBytes := AtLeast(1, limitBytes.GetOr(DEFAULT_LIMIT_BYTES));
      var txs, _ := eventStore.ReadPrincipalTxRange(from, maxTx, Viewer(policy, principal));
      ghost var page := Window(VisibleTo(principal), from, maxTx);
      bundles := [];
      var consumedBytes: nat := 0;
      cursorAfter := from;
      var idx := 0;
      NothingTaken(page, from);
      ShownLength(txs, page);
      while idx < |txs|
        invariant idx <= |page| == |txs| && ShowsLog(txs, page) && |bundles| == idx
        invariant bundles == Labelled(page[..idx], from) && cursorAfter == from + idx
        invariant consumedBytes == TotalBytes(page[..idx])
        invariant FitCount(page, idx, maxBytes) == FitCount(page, 0, maxBytes)
      {
        var tx := txs[idx];
        ShownAt(txs, page, idx);
        var next := VisibleTxBundle(from + idx + 1, TxBundle(tx.txId, Payloads(tx.meta), Payloads(tx.graph)));
        var size := BundleSize(next.txBundle);
        TotalBytesStep(page, idx);
        FitCountStep(page, idx, maxBytes);
        LabelledStep(page, from, idx);
        if |bundles| > 0 && consumedBytes + size > maxBytes {
          break;
        }
        bundles := bundles + [next];
        consumedBytes := consumedBytes + size;
        cursorAfter := next.principalCursor;
        idx := idx + 1;
      }
      assert FitCount(page, idx, maxBytes) == idx by {
        if idx == |page| { FitCountEnd(page, maxBytes); }
      }
    }

    /** Both streams of a principal, renumbered from 1. */
    method ReadVisiblePrincipalEvents(principal: Text) returns (meta: seq<EventEnvelope>, graph: seq<EventEnvelope>)
      requires Ready()
      ensures meta == Events(VisibleTo(principal), Meta) && graph == Events(VisibleTo(principal), Graph)
    {
      hide VisibleLog, PageOfShown, ShownPositions, UniqueIds, Envelopes, Shows;
      var n := eventStore.GetPrincipalCursorHead(Viewer(policy, principal));
      var txs, _ := eventStore.ReadPrincipalTxRange(0, n, Viewer(policy, principal));
      ghost var v := VisibleTo(principal);
      WholeWindow(v, n);
      meta, graph := [], [];
      for i := 0 to |txs|
        invariant ShowsLog(txs, v)
        invariant meta == Events(v[..i], Meta) && graph == Events(v[..i], Graph)
      {
        RenumberShown(txs[i], v[i], Meta, |meta|);
        RenumberShown(txs[i], v[i], Graph, |graph|);
        meta := meta + Renumber(txs[i].meta, |meta|);
        graph := graph + Renumber(txs[i].graph, |graph|);
        EventsStep(v, i, Meta);
        EventsStep(v, i, Graph);
      }
      assert v[..|txs|] == v;
    }

    method EventsRead(principal: Text, s: Stream, from: int, limitEvents: Option<int>, limitBytes: Option<int>)
        returns (output: seq<EventEnvelope>)
      requires Ready()
      ensures output == Paging.EventsRead(graphSpaceId, VisibleTo(principal), s, from,
        limitEvents.GetOr(64), limitBytes.GetOr(128 * 1024))
    {
      hide VisibleLog, UniqueIds, EventsSize, EventsBytes, Events, Count, RunEnd, FitEvents, IndexOf,
        LastEntries, SeqAfter;
      var maxEvents := AtLeast(1, limitEvents.GetOr(DEFAULT_LIMIT_TX));
      var maxBytes := AtLeast(1, limitBytes.GetOr(DEFAULT_LIMIT_BYTES));
      var meta, graph := ReadVisiblePrincipalEvents(principal);
      var byStream := if s.Meta? then meta else graph;
      var candidate := SeqAfter(byStream, AtLeast(0, from));
      SeqNumbersDense(VisibleTo(principal), s);
      SeqAfterIsSuffix(byStream, AtLeast(0, from));
      assert candidate == After(byStream, from);
      output := [];
      var consumedBytes: nat := 0;
      var index := 0;
      while index < |candidate|
        invariant index <= |candidate| && output == candidate[..index]
        invariant FitEvents(graphSpaceId, candidate, index, consumedBytes, maxEvents, maxBytes) ==
          FitEvents(graphSpaceId, candidate, 0, 0, maxEvents, maxBytes)
      {
        var end := RunEndFrom(candidate, index);
        FitEventsStep(graphSpaceId, candidate, index, consumedBytes, maxEvents, maxBytes);
        var txSlice := candidate[index..end];
        var txSize := EventsSize(graphSpaceId, txSlice);
        if |output| > 0 && (|output| + |txSlice| > maxEvents || consumedBytes + txSize > maxBytes) {
          break;
        }
        output := output + txSlice;
        consumedBytes := consumedBytes + txSize;
        index := end;
      }
      assert FitEvents(graphSpaceId, candidate, index, consumedBytes, maxEvents, maxBytes) == index by {
        if index == |candidate| { FitEventsEnd(graphSpaceId, candidate, consumedBytes, maxEvents, maxBytes); }
      }
    }

    /** The end of the run of one transaction's events starting at `index`. */
    method RunEndFrom(candidate: seq<EventEnvelope>, index: nat) returns (end: nat)
      requires index < |candidate|
      ensures end == RunEnd(candidate, index)
    {
      var txId := candidate[index].txId;
      end := index + 1;
      while end < |candidate| && candidate[end].txId == txId
        invariant index < end <= |candidate| && candidate[end - 1].txId == txId
        invariant RunEnd(candidate, index) == RunEnd(candidate, end - 1)
      {
        end := end + 1;
      }
    }

    method SyncPoll(principal: Text, cursor: Cursor, limits: PollLimits) returns (r: PollResult)
      requires Ready()
      ensures r == Poll(graphSpaceId, VisibleTo(principal), cursor, limits)
    {
      hide VisibleLog, PageOfShown, ShownPositions, UniqueIds, EventsSize, EventsBytes, Envelopes,
        Exceeds, Stops, Wanted, Take;
      var lim := limits.Clipped();
      var n := eventStore.GetPrincipalCursorHead(Viewer(policy, principal));
      var txs, _ := eventStore.ReadPrincipalTxRange(0, n, Viewer(policy, principal));
      ghost var v := VisibleTo(principal);
      WholeWindow(v, n);
      var acc := NothingPolled;
      var metaSeq, graphSeq := 0, 0;
      var i := 0;
      while i < |txs|
        invariant i <= |txs| == |v| && ShowsLog(txs, v)
        invariant metaSeq == Count(v[..i], Meta) && graphSeq == Count(v[..i], Graph)
        invariant Scan(graphSpaceId, v, cursor, lim, acc, i) == Scan(graphSpaceId, v, cursor, lim, NothingPolled, 0)
      {
        RenumberShown(txs[i], v[i], Meta, metaSeq);
        RenumberShown(txs[i], v[i], Graph, graphSeq);
        var txMeta := Renumber(txs[i].meta, metaSeq);
        var txGraph := Renumber(txs[i].graph, graphSeq);
        PartLengths(v, i);
        metaSeq := metaSeq + |txMeta|;
        graphSeq := graphSeq + |txGraph|;
        CountStep(v, i, Meta);
        CountStep(v, i, Graph);
        var step := PollStep(graphSpaceId, cursor, lim, acc, txMeta, txGraph);
        StepIsScanStep(graphSpaceId, v, cursor, lim, acc, i);
        if step.Halt? {
          break;
        }
        if step.Grow? {
          acc := step.acc;
        }
        i := i + 1;
      }
      r := ResultOf(acc, cursor);
    }
  }

  function SeqAfter(events: seq<EventEnvelope>, from: int): seq<EventEnvelope> {
    if events == [] then []
    else
      var init, last := events[..|events| - 1], events[|events| - 1];
      SeqAfter(init, from) + if last.seqNo > from then [last] else []
  }

  lemma {:induction false} SeqAfterIsSuffix(events: seq<EventEnvelope>, from: int)
    requires from >= 0 && forall i | 0 <= i < |events| :: events[i].seqNo == i + 1
    ensures SeqAfter(events, from) == if from <= |events| then events[from..] else []
  {
    if events != [] {
      var init, last := events[..|events| - 1], events[|events| - 1];
      SeqAfterIsSuffix(init, from);
      assert events == init + [last] && last.seqNo == |init| + 1;
      if from <= |init| {
        assert events[from..] == init[from..] + [last];
      }
    }
  }

  /** What one transaction does to a poll: left out, the end of it, or collected. */
  datatype PollStepResult = SkipTx | Halt | Grow(acc: PollState)

  function PollStep(space: Text, cursor: Cursor, lim: PollLimits, acc: PollState, txMeta: seq<EventEnvelope>,
                    txGraph: seq<EventEnvelope>): PollStepResult
  {
    var hasMeta, hasGraph := |txMeta| > 0, |txGraph| > 0;
    var wantsMeta := hasMeta && txMeta[|txMeta| - 1].seqNo > cursor.metaSeq;
    var wantsGraph := hasGraph && txGraph[|txGraph| - 1].seqNo > cursor.graphSeq;
    if !wantsMeta && !wantsGraph then SkipTx
    else if (wantsMeta && hasGraph && !wantsGraph) || (wantsGraph && hasMeta && !wantsMeta) then Halt
    else
      var metaBytes := if |txMeta| > 0 then EventsSize(space, txMeta) else 0;
      var graphBytes := if |txGraph| > 0 then EventsSize(space, txGraph) else 0;
      var exceeds :=
        || |acc.meta| + |txMeta| > lim.metaEvents || |acc.graph| + |txGraph| > lim.graphEvents
        || acc.metaBytes + metaBytes > lim.metaBytes || acc.graphBytes + graphBytes > lim.graphBytes;
      var isFirstOutput := |acc.meta| == 0 && |acc.graph| == 0;
      var cannotEmit := (lim.metaEvents == 0 && |txMeta| > 0) || (lim.graphEvents == 0 && |txGraph| > 0);
      if cannotEmit || (!isFirstOutput && exceeds) then Halt
      else Grow(PollState(acc.meta + txMeta, acc.graph + txGraph, acc.metaBytes + metaBytes,
        acc.graphBytes + graphBytes))
  }

  lemma PartLengths(v: Log, i: nat)
    requires i < |v|
    ensures |TxPart(v, i, Meta)| == |v[i].metaEvents| && |TxPart(v, i, Graph)| == |v[i].graphEvents|
  {
  }

  /** The gateway's per-transaction test, made on renumbered events, is the scan's. */
  lemma StepIsScanStep(space: Text, v: Log, cursor: Cursor, lim: PollLimits, acc: PollState, i: nat)
    requires i < |v|
    ensures PollStep(space, cursor, lim, acc, TxPart(v, i, Meta), TxPart(v, i, Graph)) ==
      if !Wanted(v, cursor, i) then SkipTx
      else if Stops(space, v, cursor, lim, acc, i) then Halt
      else Grow(Take(space, v, acc, i))
  {
    hide EventsSize, EventsBytes;
  }

  // ---------------------------------------------------------------- masked equals absent

  /** Two gateways of one space and policy, over stores whose logs differ only in transactions
      hidden from a principal, put in anywhere: every endpoint answers that principal the same,
      for any cursors and any limits. */
  method MaskedEqualsAbsent(narrow: LocalSyncGateway, wide: LocalSyncGateway, principal: Text,
                            from: int, limitTx: Option<int>, limitBytes: Option<int>,
                            s: Stream, fromSeq: int, limitEvents: Option<int>, eventBytes: Option<int>,
                            cursor: Cursor, limits: PollLimits)
    returns (pulled: seq<(seq<VisibleTxBundle>, int)>, eventsRead: seq<seq<EventEnvelope>>, polled: seq<PollResult>)
    requires narrow.Ready() && wide.Ready() && narrow.policy == wide.policy && narrow.graphSpaceId == wide.graphSpaceId
    requires AddsOnlyHidden(narrow.eventStore.log, wide.eventStore.log, Viewer(narrow.policy, principal))
    ensures |pulled| == |eventsRead| == |polled| == 2
    ensures pulled[0] == pulled[1] && eventsRead[0] == eventsRead[1] && polled[0] == polled[1]
    ensures pulled[0] == Pull(narrow.VisibleTo(principal), from, limitTx.GetOr(64),
      limitBytes.GetOr(128 * 1024))
    ensures polled[0] == Poll(narrow.graphSpaceId, narrow.VisibleTo(principal), cursor, limits)
    ensures eventsRead[0] == Paging.EventsRead(narrow.graphSpaceId, narrow.VisibleTo(principal), s, fromSeq,
                                          limitEvents.GetOr(64), eventBytes.GetOr(128 * 1024))
  {
    hide VisibleLog, AddsOnlyHidden, UniqueIds, Pull, Poll, Paging.EventsRead;
    HiddenLeavesVisibleLog(narrow.eventStore.log, wide.eventStore.log, Viewer(narrow.policy, principal));
    var bundles, after := narrow.SyncPull(principal, from, limitTx, limitBytes);
    var bundles', after' := wide.SyncPull(principal, from, limitTx, limitBytes);
    var read := narrow.EventsRead(principal, s, fromSeq, limitEvents, eventBytes);
    var read' := wide.EventsRead(principal, s, fromSeq, limitEvents, eventBytes);
    var poll := narrow.SyncPoll(principal, cursor, limits);
    var poll' := wide.SyncPoll(principal, cursor, limits);
    pulled, eventsRead, polled := [(bundles, after), (bundles', after')], [read, read'], [poll, poll'];
  }
}
