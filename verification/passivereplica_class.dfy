/** The production replicator's objects: source, sink, checkpoint store and the loops over them. */
module PassiveReplica {
  import opened Texts
  import opened EventLog
  import opened StoreSpec
  import opened Stores
  import opened Visibility
  import opened Digest
  import opened Shipping
  import opened Receipts
  import opened PassiveReplicaSpec
  import opened Arrivals
  import Gateway

  class InMemoryReplicaCheckpointStore {
    var cursorBySlot: map<Text, nat>

    constructor ()
      ensures cursorBySlot == map[]
    {
      cursorBySlot := map[];
    }

    function SlotOf(space: Text, principal: Text): Text {
      space + Lit("::") + principal
    }

    function Loaded(space: Text, principal: Text): nat
      reads this
    {
      if SlotOf(space, principal) in cursorBySlot then cursorBySlot[SlotOf(space, principal)] else 0
    }

    method Save(space: Text, principal: Text, cursor: nat)
      modifies this
      ensures Loaded(space, principal) == cursor
      ensures forall other | other != principal :: Loaded(space, other) == old(Loaded(space, other))
      ensures cursorBySlot - {SlotOf(space, principal)} == old(cursorBySlot) - {SlotOf(space, principal)}
    {
      forall other | other != principal ensures SlotOf(space, other) != SlotOf(space, principal) {
        var n := |space + Lit("::")|;
        assert SlotOf(space, other)[n..] == other && SlotOf(space, principal)[n..] == principal;
      }
      cursorBySlot := cursorBySlot[SlotOf(space, principal) := cursor];
    }
  }

  class EventStoreReplicaSource {
    const eventStore: InMemoryLocalEventStore
    const policy: Policy
    const graphSpaceId: Text

    constructor (eventStore: InMemoryLocalEventStore, policy: Policy, graphSpaceId: Text)
      ensures this.eventStore == eventStore && this.policy == policy && this.graphSpaceId == graphSpaceId
    {
      this.eventStore, this.policy, this.graphSpaceId := eventStore, policy, graphSpaceId;
    }

    ghost function VisibleTo(principal: Text): Log
      reads eventStore
    {
      VisibleLog(eventStore.log, Viewer(policy, principal))
    }

    method Pull(principal: Text, from: nat, limit: nat) returns (txBundles: seq<ReplicatedTxBundle>, cursorAfter: nat)
      requires eventStore.Valid() && UniqueIds(eventStore.log)
      ensures txBundles == PullBundles(graphSpaceId, principal, VisibleTo(principal), from, limit)
      ensures cursorAfter == from + |txBundles|
    {
      hide VisibleLog, PageOfShown, ShownPositions, UniqueIds, Events, Count, IndexOf, LastEntries,
        ShowsLog, Payloads, Window, Replicated;
      var txs, cursor := eventStore.ReadPrincipalTxRange(from, limit, Viewer(policy, principal));
      ghost var page := Window(VisibleTo(principal), from, limit);
      Gateway.ShownLength(txs, page);
      forall i | 0 <= i < |txs|
        ensures TxBundle(txs[i].txId, Payloads(txs[i].meta), Payloads(txs[i].graph)) == page[i]
      {
        Gateway.ShownAt(txs, page, i);
      }
      txBundles := seq(|txs|, i requires 0 <= i < |txs| =>
        Replicated(graphSpaceId, principal, TxBundle(txs[i].txId, Payloads(txs[i].meta), Payloads(txs[i].graph)),
          from + i + 1));
      EmptyLogShowsNothing(Viewer(policy, principal), from, limit);
      cursorAfter := cursor;
    }
  }

  /** What a viewer sees at each of some pulls when other writers append before each. */
  function ViewsAmid(s: Store, arrivals: seq<seq<(TxBundle, IdempotencyCtx)>>, viewer: Viewer): seq<Log> {
    seq(|arrivals|, i requires 0 <= i < |arrivals| => VisibleLog(ArriveInTurn(s, arrivals[..i + 1]).log, viewer))
  }

  lemma {:induction false} GrowingFromSteps(v: Log, views: seq<Log>)
    requires views != [] ==> v <= views[0]
    requires forall i | 0 <= i < |views| - 1 :: views[i] <= views[i + 1]
    requires forall i | 0 <= i < |views| :: UniqueIds(views[i]) && NonEmptyTxs(views[i])
    ensures GrowingViews(v, views)
    decreases |views|
  {
    hide UniqueIds, NonEmptyTxs;
    if views != [] {
      GrowingFromSteps(views[0], views[1..]);
    }
  }

  /** Such views only grow, so `PassiveReplicaSpec.CatchesUpIff` speaks of them. */
  lemma ViewsAmidGrow(s: Store, arrivals: seq<seq<(TxBundle, IdempotencyCtx)>>, viewer: Viewer)
    requires UniqueIds(s.log) && NonEmptyTxs(s.log)
    ensures GrowingViews(VisibleLog(s.log, viewer), ViewsAmid(s, arrivals, viewer))
  {
    hide VisibleLog, ArriveAll, UniqueIds, NonEmptyTxs;
    var v, views := VisibleLog(s.log, viewer), ViewsAmid(s, arrivals, viewer);
    forall i | 0 <= i < |views|
      ensures VisibleLog(ArriveInTurn(s, arrivals[..i]).log, viewer) <= views[i]
      ensures UniqueIds(views[i]) && NonEmptyTxs(views[i])
    {
      ArrivedGrows(s, arrivals, i);
      var before, after := ArriveInTurn(s, arrivals[..i]).log, ArriveInTurn(s, arrivals[..i + 1]).log;
      VisibleGrows(before, after, viewer);
      VisibleKeepsShape(after, viewer);
    }
    NothingArrived(s, arrivals);
    GrowingFromSteps(v, views);
  }

  lemma {:induction false} ArrivedGrows(s: Store, arrivals: seq<seq<(TxBundle, IdempotencyCtx)>>, i: nat)
    requires UniqueIds(s.log) && NonEmptyTxs(s.log) && i < |arrivals|
    ensures var before, after := ArriveInTurn(s, arrivals[..i]).log, ArriveInTurn(s, arrivals[..i + 1]).log;
      before <= after && UniqueIds(before) && NonEmptyTxs(before) && UniqueIds(after) && NonEmptyTxs(after)
  {
    hide ArriveAll, UniqueIds, NonEmptyTxs;
    if i > 0 {
      ArrivedGrows(s, arrivals, i - 1);
    }
    ArriveInTurnStep(s, arrivals, i);
    ArriveAllGrows(ArriveInTurn(s, arrivals[..i]), arrivals[i]);
  }

  lemma EmptyLogShowsNothing(viewer: Viewer, from: nat, limit: nat)
    ensures Window(VisibleLog([], viewer), from, limit) == []
  {
  }

  class EventStoreReplicaSink {
    const eventStore: InMemoryLocalEventStore

    constructor (eventStore: InMemoryLocalEventStore)
      ensures this.eventStore == eventStore
    {
      this.eventStore := eventStore;
    }

    method Apply(rb: ReplicatedTxBundle) returns (o: Outcome)
      requires eventStore.Valid()
      modifies eventStore
      ensures eventStore.Valid() && (eventStore.Abs(), o) == SinkApply(old(eventStore.Abs()), rb)
    {
      hide Events, Count, LastEntries, IndexOf, ReadTxFrom, StableReceipt, CanonicalHash, Append;
      var txId := rb.txBundle.txId;
      var observedHash := CanonicalHash(rb.graphSpaceId, rb.txBundle);
      if observedHash != rb.canonicalHash { return Failed(DivergenceDetected); }
      var existing := eventStore.ReadTx(txId);
      if existing.Some? {
        var existingHash := CanonicalHash(rb.graphSpaceId, BundleOf(existing.value));
        if existingHash != rb.canonicalHash { return Failed(DivergenceDetected); }
        o := BuildStableReceipt(eventStore, txId);
        return;
      }
      o := eventStore.AppendTx(rb.txBundle, rb.ctx, None);
    }
  }

  class PassiveReplicator {
    const source: EventStoreReplicaSource
    const sink: EventStoreReplicaSink
    const checkpointStore: InMemoryReplicaCheckpointStore
    const graphSpaceId: Text
    const principal: Text

    constructor (source: EventStoreReplicaSource, sink: EventStoreReplicaSink,
        checkpointStore: InMemoryReplicaCheckpointStore, principal: Text)
      ensures this.source == source && this.sink == sink && this.checkpointStore == checkpointStore
      ensures graphSpaceId == source.graphSpaceId && this.principal == principal
    {
      this.source, this.sink, this.checkpointStore := source, sink, checkpointStore;
      graphSpaceId, this.principal := source.graphSpaceId, principal;
    }

    ghost predicate Ready()
      reads source.eventStore, sink.eventStore
    {
      && source.eventStore != sink.eventStore && graphSpaceId == source.graphSpaceId
      && source.eventStore.Valid() && UniqueIds(source.eventStore.log)
      && sink.eventStore.Valid()
    }

    ghost function State(): Sync
      reads sink.eventStore, checkpointStore
    {
      Sync(sink.eventStore.Abs(), checkpointStore.Loaded(graphSpaceId, principal))
    }

    /** One round; `crash` is where the process dies, if it does.  The cursor handed back is the
        checkpoint saved last. */
    method ReplicateOnce(limit: nat, crash: Option<Crash>) returns (applied: nat, cursorAfter: nat)
      requires Ready()
      modifies sink.eventStore, checkpointStore
      ensures Ready() && source.eventStore.log == old(source.eventStore.log)
      ensures (State(), applied) ==
        Once(graphSpaceId, principal, source.VisibleTo(principal), old(State()), limit, crash)
      ensures cursorAfter == State().checkpoint
    {
      hide Events, Count, LastEntries, IndexOf, UniqueIds, VisibleLog, SinkApply, PullBundles;
      var from := checkpointStore.Loaded(graphSpaceId, principal);
      var bundles, pulledCursor := source.Pull(principal, from, limit);
      PullRanks(graphSpaceId, principal, source.VisibleTo(principal), from, limit);
      var cursor := from;
      applied := 0;
      while applied < |bundles|
        invariant applied <= |bundles| && Ready() && cursor == from + applied == State().checkpoint
        invariant ApplyFrom(State(), bundles, applied, crash) == ApplyFrom(old(State()), bundles, 0, crash)
      {
        if crash == Some(Crash(applied, false)) { return applied, cursor; }
        var outcome := sink.Apply(bundles[applied]);
        if crash == Some(Crash(applied, true)) { return applied, cursor; }
        if !outcome.Committed? { return applied, cursor; }
        cursor := bundles[applied].principalCursor;
        checkpointStore.Save(graphSpaceId, principal, cursor);
        applied := applied + 1;
      }
      cursorAfter := pulledCursor;
    }

    /** `arrivals` lists what other writers append to the source before each round's pull; what they
        append later in a round is only seen by the next pull, so it counts as before that. */
    method ReplicateUntilCaughtUp(limit: nat, maxRounds: nat, arrivals: seq<seq<(TxBundle, IdempotencyCtx)>>)
      returns (applied: nat, cursorAfter: nat, ghost rounds: nat)
      requires Ready() && |arrivals| == maxRounds
      modifies source.eventStore, sink.eventStore, checkpointStore
      ensures Ready() && rounds <= maxRounds
      ensures source.eventStore.Abs() == ArriveInTurn(old(source.eventStore.Abs()), arrivals[..rounds])
      ensures var views := ViewsAmid(old(source.eventStore.Abs()), arrivals, Viewer(source.policy, principal));
        (State(), applied, rounds) == UntilCaughtUp(graphSpaceId, principal, views, old(State()), limit)
      ensures cursorAfter == State().checkpoint
    {
      hide Once, VisibleLog, UniqueIds, Events, Count, LastEntries, IndexOf, ArriveAll, ArriveInTurn;
      ghost var s0 := source.eventStore.Abs();
      ghost var views := ViewsAmid(s0, arrivals, Viewer(source.policy, principal));
      applied := 0;
      cursorAfter := checkpointStore.Loaded(graphSpaceId, principal);
      rounds := 0;
      var round, moved := 0, true;
      NothingArrived(s0, arrivals);
      assert views[..] == views[0..];
      while round < maxRounds && moved
        invariant 0 <= round == rounds <= maxRounds && cursorAfter == State().checkpoint
        invariant Ready() && source.eventStore.Abs() == ArriveInTurn(s0, arrivals[..round])
        invariant var rest := UntilCaughtUp(graphSpaceId, principal, views[round..], State(), limit);
          UntilCaughtUp(graphSpaceId, principal, views, old(State()), limit) ==
            if moved then (rest.0, applied + rest.1, round + rest.2) else (State(), applied, round)
      {
        ArriveInTurnStep(s0, arrivals, round);
        AppendArrivals(source.eventStore, arrivals[round]);
        assert views[round..][1..] == views[round + 1..];
        assert views[round] == source.VisibleTo(principal);
        var n, cursor := ReplicateOnce(limit, None);
        applied := applied + n;
        cursorAfter := cursor;
        round := round + 1;
        rounds := rounds + 1;
        moved := n != 0;
      }
    }
  }

  lemma NothingArrived(s: Store, arrivals: seq<seq<(TxBundle, IdempotencyCtx)>>)
    ensures ArriveInTurn(s, arrivals[..0]) == s
  {
  }
}
