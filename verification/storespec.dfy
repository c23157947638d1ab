/** The event store as one abstract machine: append with idempotency and base cursor, and the
    read paths as functions of the arrays and index a store keeps. */
module StoreSpec {
  import opened Texts
  import opened Json
  import opened EventLog

  datatype Slot = Slot(actorId: Text, key: Text)
  datatype IdemRow = IdemRow(payloadHash: Text, receipt: Receipt)
  datatype IdempotencyCtx = IdempotencyCtx(actorId: Text, key: Text, payloadHash: Text,
      requiredBaseCursor: Option<Cursor>) {
    function IdemSlot(): Slot { Slot(actorId, key) }
  }

  datatype FaultPoint =
    | BeforeAnyWrite | AfterMetaEvents | AfterGraphEvents | AfterTxIndex
    | AfterHeadsUpdate | AfterIdempotencyUpsert | BeforeIdbCommit

  datatype Reason =
    | EmptyTx | IdempotencyPayloadMismatch | RevisionMismatch
    | MalformedCommand | InvalidBaseRevision | PermissionDenied | NotFoundGeneric
    | OrderGap | DivergenceDetected

  /** A receipt, a refusal, or one of the two exceptions a write can end with. */
  datatype Outcome = Committed(receipt: Receipt) | Failed(reason: Reason) | Faulted(point: FaultPoint) | PersistFailed

  datatype Store = Store(log: Log, idempotency: map<Slot, IdemRow>)

  const EmptyStore := Store([], map[])

  /** One call of appendTx; `failAt` is the fault-injection point, if any. */
  function Append(s: Store, b: TxBundle, ctx: IdempotencyCtx, failAt: Option<FaultPoint>): (Store, Outcome) {
    if b.Empty() then (s, Failed(EmptyTx))
    else if ctx.IdemSlot() in s.idempotency then
      var row := s.idempotency[ctx.IdemSlot()];
      if row.payloadHash != ctx.payloadHash then (s, Failed(IdempotencyPayloadMismatch))
      else (s, Committed(row.receipt))
    else if ctx.requiredBaseCursor.Some? && ctx.requiredBaseCursor.value != Head(s.log) then
      (s, Failed(RevisionMismatch))
    else if failAt.Some? then (s, Faulted(failAt.value))
    else
      var receipt := ReceiptFor(s.log, b);
      (Store(s.log + [b], s.idempotency[ctx.IdemSlot() := IdemRow(ctx.payloadHash, receipt)]), Committed(receipt))
  }

  // ---------------------------------------------------------------- reachable stores

  /** `slots` lists the idempotency slot that committed each transaction of the log. */
  ghost predicate History(s: Store, slots: seq<Slot>) {
    && |slots| == |s.log|
    && NonEmptyTxs(s.log)
    && (forall i, j | 0 <= i < j < |slots| :: slots[i] != slots[j])
    && (forall k | 0 <= k < |slots| ::
          slots[k] in s.idempotency && s.idempotency[slots[k]].receipt == ReceiptAt(s.log, k))
    && (forall slot | slot in s.idempotency :: slot in slots)
  }

  lemma CommitKeepsHistory(s: Store, slots: seq<Slot>, b: TxBundle, slot: Slot, hash: Text)
    requires History(s, slots) && !b.Empty() && slot !in s.idempotency
    ensures History(Store(s.log + [b], s.idempotency[slot := IdemRow(hash, ReceiptFor(s.log, b))]), slots + [slot])
  {
    var n := |slots|;
    var s' := Store(s.log + [b], s.idempotency[slot := IdemRow(hash, ReceiptFor(s.log, b))]);
    var slots' := slots + [slot];
    forall k | 0 <= k < n + 1
      ensures slots'[k] in s'.idempotency && s'.idempotency[slots'[k]].receipt == ReceiptAt(s'.log, k)
    {
      assert s'.log[..k] == s.log[..k];
      assert s.log[..n] == s.log;
      if k < n {
        assert slots[k] in s.idempotency && slots'[k] == slots[k];
      }
    }
    forall i, j | 0 <= i < j < n + 1 ensures slots'[i] != slots'[j] {
      assert slots[i] in s.idempotency;
    }
  }

  /** One append keeps the history: each slot commits one transaction, and the row it leaves
      holds that transaction's receipt for good. */
  lemma AppendKeepsHistory(s: Store, slots: seq<Slot>, b: TxBundle, ctx: IdempotencyCtx, failAt: Option<FaultPoint>)
    requires History(s, slots)
    ensures var (s', o) := Append(s, b, ctx, failAt);
      if s' == s then History(s', slots)
      else s'.log == s.log + [b] && o == Committed(ReceiptAt(s'.log, |s.log|)) && History(s', slots + [ctx.IdemSlot()])
  {
    var (s', o) := Append(s, b, ctx, failAt);
    if s' != s {
      CommitKeepsHistory(s, slots, b, ctx.IdemSlot(), ctx.payloadHash);
      assert s'.log[..|s.log|] == s.log;
    }
  }

  /** After a commit the same slot replays the receipt for the same payload and refuses any
      other, whatever base cursor or fault the retry carries; the store does not change. */
  lemma ReplayAfterCommit(s: Store, slots: seq<Slot>, k: nat, b: TxBundle, ctx: IdempotencyCtx,
      failAt: Option<FaultPoint>)
    requires History(s, slots) && k < |slots| && ctx.IdemSlot() == slots[k] && !b.Empty()
    ensures Append(s, b, ctx, failAt) ==
      (s, if ctx.payloadHash == s.idempotency[slots[k]].payloadHash then Committed(ReceiptAt(s.log, k))
          else Failed(IdempotencyPayloadMismatch))
  {
    assert s.idempotency[slots[k]].receipt == ReceiptAt(s.log, k);
  }

  /** A fault at any point leaves the store as it was, so the retry without the fault yields the
      store and the receipt of an unfaulted run. */
  lemma FaultThenRetry(s: Store, b: TxBundle, ctx: IdempotencyCtx, point: FaultPoint)
    ensures var (s', o) := Append(s, b, ctx, Some(point));
      && (o == Faulted(point) <==> Append(s, b, ctx, None).0.log == s.log + [b])
      && Append(s', b, ctx, None) == Append(s, b, ctx, None)
  {
    assert s.log + [b] != s.log;
  }

  // ---------------------------------------------------------------- reading arrays by sequence number

  function Min(a: nat, b: nat): nat { if a <= b then a else b }

  /** `slice(start - 1, end)`, clipped to the array; nothing when the range is inverted. */
  function SliceBySeqRange(events: seq<EventEnvelope>, start: nat, end: nat): seq<EventEnvelope> {
    if start > end || events == [] then []
    else
      var from := if start == 0 then 0 else start - 1;
      var to := Min(|events|, end);
      if from > to then [] else events[from..to]
  }

  function SliceBySeqBounds(events: seq<EventEnvelope>, startInclusive: nat, endInclusive: Option<nat>)
    : seq<EventEnvelope>
  {
    if events == [] then []
    else
      var from := if startInclusive == 0 then 0 else startInclusive - 1;
      var last := endInclusive.GetOr(|events|);
      var to := Min(|events|, last);
      if last < startInclusive || from > to then [] else events[from..to]
  }

  /** The id map a store keeps: a later entry replaces an earlier one of the same id. */
  function LastEntries(index: seq<TxIndexEntry>): map<Text, TxIndexEntry> {
    if index == [] then map[]
    else
      var last := index[|index| - 1];
      LastEntries(index[..|index| - 1])[last.txId := last]
  }

  datatype StoredTx = StoredTx(txId: Text, meta: seq<EventEnvelope>, graph: seq<EventEnvelope>)

  /** `readTx` over a store's arrays and id map. */
  function ReadTxFrom(meta: seq<EventEnvelope>, graph: seq<EventEnvelope>, byId: map<Text, TxIndexEntry>, txId: Text)
    : Option<StoredTx>
  {
    if txId !in byId then None
    else
      var e := byId[txId];
      Some(StoredTx(txId, SliceBySeqRange(meta, e.meta.start, e.meta.end),
        SliceBySeqRange(graph, e.graph.start, e.graph.end)))
  }

  /** `readTx` on a store holding `log`. */
  function ReadTxOf(log: Log, txId: Text): Option<StoredTx> {
    ReadTxFrom(Events(log, Meta), Events(log, Graph), LastEntries(IndexOf(log)), txId)
  }

  /** `readRange` over one stream's array and the id map. */
  function ReadRangeFrom(source: seq<EventEnvelope>, byId: map<Text, TxIndexEntry>, s: Stream, from: nat, limit: nat,
                         cap: Option<nat>): seq<EventEnvelope>
  {
    var bounded := SliceBySeqBounds(source, from + 1, cap);
    if |bounded| <= limit then bounded
    else if limit == 0 then []
    else
      var initial := bounded[..limit];
      var last := initial[limit - 1];
      if last.txId !in byId then initial
      else
        var txEnd := byId[last.txId].Part(s).end;
        if last.seqNo >= txEnd then initial
        else SliceBySeqBounds(source, from + 1, Some(if cap.Some? then Min(cap.value, txEnd) else txEnd))
  }

  // ---------------------------------------------------------------- the id map of a log

  lemma LastEntriesSnoc(index: seq<TxIndexEntry>, e: TxIndexEntry)
    ensures LastEntries(index + [e]) == LastEntries(index)[e.txId := e]
  {
    assert (index + [e])[..|index|] == index;
  }

  lemma LastEntriesUnfold(log: Log)
    requires log != []
    ensures var init, last := log[..|log| - 1], log[|log| - 1];
      LastEntries(IndexOf(log)) == LastEntries(IndexOf(init))[last.txId := EntryFor(init, last)]
  {
    LastEntriesSnoc(IndexOf(log[..|log| - 1]), EntryFor(log[..|log| - 1], log[|log| - 1]));
  }

  lemma {:induction false} LastEntriesOfLog(log: Log, k: nat)
    requires UniqueIds(log) && k < |log|
    ensures log[k].txId in LastEntries(IndexOf(log))
    ensures LastEntries(IndexOf(log))[log[k].txId] == EntryFor(log[..k], log[k])
  {
    hide LastEntries, IndexOf, EntryFor;
    var init := log[..|log| - 1];
    LastEntriesUnfold(log);
    if k < |init| {
      LastEntriesOfLog(init, k);
      assert init[..k] == log[..k];
    }
  }

  predicate HasTx(log: Log, txId: Text) {
    exists b | b in log :: b.txId == txId
  }

  lemma UniqueLast(log: Log)
    requires UniqueIds(log) && log != []
    ensures UniqueIds(log[..|log| - 1]) && !HasTx(log[..|log| - 1], log[|log| - 1].txId)
  {
  }

  lemma UniqueSnoc(log: Log, b: TxBundle)
    requires UniqueIds(log) && !HasTx(log, b.txId)
    ensures UniqueIds(log + [b])
  {
    forall i | 0 <= i < |log| ensures log[i].txId != b.txId {
      assert log[i] in log;
    }
  }

  lemma HasTxUnfold(init: Log, last: TxBundle, txId: Text)
    ensures HasTx(init + [last], txId) <==> HasTx(init, txId) || last.txId == txId
  {
    if HasTx(init, txId) {
      var b :| b in init && b.txId == txId;
      assert b in init + [last];
    }
    if last.txId == txId {
      assert last in init + [last];
    }
  }

  lemma {:induction false} LastEntriesKeys(log: Log, txId: Text)
    ensures txId in LastEntries(IndexOf(log)) <==> HasTx(log, txId)
  {
    hide LastEntries, IndexOf, EntryFor, HasTx;
    if log == [] {
      NoEntries(txId);
    } else {
      var init, last := log[..|log| - 1], log[|log| - 1];
      LastEntriesKeys(init, txId);
      LastEntriesUnfold(log);
      HasTxUnfold(init, last, txId);
      assert log == init + [last];
    }
  }

  /** Another writer's append: writers use ids the log does not have. */
  function Arrive(s: Store, b: TxBundle, ctx: IdempotencyCtx): Store {
    if HasTx(s.log, b.txId) then s else Append(s, b, ctx, None).0
  }

  function ArriveAll(s: Store, arrivals: seq<(TxBundle, IdempotencyCtx)>): Store {
    if arrivals == [] then s
    else
      var last := arrivals[|arrivals| - 1];
      Arrive(ArriveAll(s, arrivals[..|arrivals| - 1]), last.0, last.1)
  }

  lemma ArriveGrows(s: Store, b: TxBundle, ctx: IdempotencyCtx)
    ensures s.log <= Arrive(s, b, ctx).log
    ensures UniqueIds(s.log) ==> UniqueIds(Arrive(s, b, ctx).log)
  {
    hide UniqueIds, HasTx, ReceiptFor;
    if UniqueIds(s.log) && !HasTx(s.log, b.txId) {
      UniqueSnoc(s.log, b);
    }
  }

  lemma ArriveAllStep(s: Store, arrivals: seq<(TxBundle, IdempotencyCtx)>, i: nat)
    requires i < |arrivals|
    ensures ArriveAll(s, arrivals[..i + 1]) == Arrive(ArriveAll(s, arrivals[..i]), arrivals[i].0, arrivals[i].1)
  {
    assert arrivals[..i + 1][..i] == arrivals[..i];
  }

  lemma {:induction false} ArriveAllGrows(s: Store, arrivals: seq<(TxBundle, IdempotencyCtx)>)
    ensures var log := ArriveAll(s, arrivals).log;
      && s.log <= log
      && (UniqueIds(s.log) ==> UniqueIds(log)) && (NonEmptyTxs(s.log) ==> NonEmptyTxs(log))
  {
    hide UniqueIds, HasTx, ReceiptFor, Head;
    if arrivals != [] {
      var init, last := arrivals[..|arrivals| - 1], arrivals[|arrivals| - 1];
      ArriveAllGrows(s, init);
      ArriveGrows(ArriveAll(s, init), last.0, last.1);
    }
  }

  /** Batches of appends, one after the other. */
  function ArriveInTurn(s: Store, batches: seq<seq<(TxBundle, IdempotencyCtx)>>): Store {
    if batches == [] then s else ArriveAll(ArriveInTurn(s, batches[..|batches| - 1]), batches[|batches| - 1])
  }

  lemma ArriveInTurnStep(s: Store, batches: seq<seq<(TxBundle, IdempotencyCtx)>>, i: nat)
    requires i < |batches|
    ensures ArriveInTurn(s, batches[..i + 1]) == ArriveAll(ArriveInTurn(s, batches[..i]), batches[i])
  {
    assert batches[..i + 1][..i] == batches[..i];
  }

  lemma NoEntries(txId: Text)
    ensures LastEntries(IndexOf([])) == map[] && !HasTx([], txId)
  {
  }

  // ---------------------------------------------------------------- readTx

  /** What readTx returns for transaction k of a log with unique ids. */
  function StoredPart(log: Log, k: nat, s: Stream): seq<EventEnvelope>
    requires k < |log|
  {
    var r := RangeAfter(Count(log[..k], s), |log[k].Part(s)|);
    SliceBySeqRange(Events(log, s), r.start, r.end)
  }

  function StoredTxAt(log: Log, k: nat): StoredTx
    requires k < |log|
  {
    StoredTx(log[k].txId, StoredPart(log, k, Meta), StoredPart(log, k, Graph))
  }

  /** The part has events, or the stream was still empty when the transaction was appended. */
  predicate ExactPart(log: Log, k: nat, s: Stream)
    requires k < |log|
  {
    |log[k].Part(s)| > 0 || Count(log[..k], s) == 0
  }

  predicate ExactAt(log: Log, k: nat)
    requires k < |log|
  {
    ExactPart(log, k, Meta) && ExactPart(log, k, Graph)
  }

  predicate Exact(log: Log) {
    forall k | 0 <= k < |log| :: ExactAt(log, k)
  }

  lemma SliceOfRange(events: seq<EventEnvelope>, before: nat, count: nat)
    requires before + count <= |events|
    ensures var r := RangeAfter(before, count);
      SliceBySeqRange(events, r.start, r.end) ==
        if count > 0 || before == 0 then events[before..before + count] else events[before - 1..before]
  {
  }

  /** An empty part anchored past the stream's start reads back the event before it. */
  lemma StoredPartIs(log: Log, k: nat, s: Stream)
    requires k < |log|
    ensures var before := Count(log[..k], s);
      && before <= Count(log, s)
      && (ExactPart(log, k, s) ==> StoredPart(log, k, s) == Envelopes(log[k], s, before))
      && (!ExactPart(log, k, s) ==> before > 0 && StoredPart(log, k, s) == [Events(log, s)[before - 1]])
  {
    hide Events, Count, Envelopes, SliceBySeqRange;
    EventsOfTx(log, k, s);
    SliceOfRange(Events(log, s), Count(log[..k], s), |log[k].Part(s)|);
  }

  /** readTx on the arrays of a log finds transaction k. */
  lemma ReadTxFinds(log: Log, k: nat)
    requires UniqueIds(log) && k < |log|
    ensures ReadTxOf(log, log[k].txId) == Some(StoredTxAt(log, k))
  {
    LastEntriesOfLog(log, k);
  }

  lemma ReadTxMisses(log: Log, txId: Text)
    requires !HasTx(log, txId)
    ensures ReadTxOf(log, txId) == None
  {
    LastEntriesKeys(log, txId);
  }

  function Payloads(es: seq<EventEnvelope>): (ps: seq<Payload>)
    ensures |ps| == |es|
  {
    seq(|es|, i requires 0 <= i < |es| => es[i].payload)
  }

  function BundleOf(t: StoredTx): TxBundle {
    TxBundle(t.txId, Payloads(t.meta), Payloads(t.graph))
  }

  lemma PayloadsOfEnvelopes(b: TxBundle, s: Stream, before: nat)
    ensures Payloads(Envelopes(b, s, before)) == b.Part(s)
  {
  }

  /** Reading a transaction back gives the appended bundle exactly when neither part is an empty
      one in a stream that already had events. */
  lemma ReadTxExactIff(log: Log, k: nat)
    requires k < |log|
    ensures BundleOf(StoredTxAt(log, k)) == log[k] <==> ExactAt(log, k)
  {
    StoredPartIs(log, k, Meta);
    StoredPartIs(log, k, Graph);
    PayloadsOfEnvelopes(log[k], Meta, Count(log[..k], Meta));
    PayloadsOfEnvelopes(log[k], Graph, Count(log[..k], Graph));
  }

  /** A concrete log whose second transaction reads back with an event it never had. */
  lemma ReadTxNotExact()
    ensures exists log: Log, k: nat | k < |log| ::
      UniqueIds(log) && NonEmptyTxs(log) && BundleOf(StoredTxAt(log, k)) != log[k]
  {
    var log := [TxBundle(Lit("a"), [Null], [Null]), TxBundle(Lit("b"), [], [Null])];
    assert log[..1] == [log[0]] && log[..1][..0] == [];
    assert Count(log[..1], Meta) == 1;
    assert Lit("a")[0] != Lit("b")[0];
    ReadTxExactIff(log, 1);
    assert UniqueIds(log) && NonEmptyTxs(log) && BundleOf(StoredTxAt(log, 1)) != log[1];
  }
}
