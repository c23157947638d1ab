/** What a primary ships: each transaction as its store reads it back. */
module Shipping {
  import opened Texts
  import opened Json
  import opened EventLog
  import opened StoreSpec
  import opened Digest

  datatype TxEnvelope = TxEnvelope(graphSpaceId: Text, txBundle: TxBundle, ctx: IdempotencyCtx, txIndex: nat,
      canonicalHash: Text)

  const REPLICATOR: Text := Lit("replicator")
  const SHIP_PREFIX: Text := Lit("ship:")

  function ShipSlot(space: Text, txId: Text): Slot {
    Slot(REPLICATOR, SHIP_PREFIX + space + Lit(":") + txId)
  }

  function EnvelopeOf(space: Text, b: TxBundle, txIndex: nat): TxEnvelope {
    TxEnvelope(space, b, IdempotencyCtx(REPLICATOR, ShipSlot(space, b.txId).key, BundleHash(b), None), txIndex,
      CanonicalHash(space, b))
  }

  /** Transaction k as shipped. */
  function ShippedTx(log: Log, k: nat): TxBundle
    requires k < |log|
  {
    BundleOf(StoredTxAt(log, k))
  }

  /** The log replicas are built from. */
  function Shipped(log: Log): (r: Log)
    ensures |r| == |log|
  {
    seq(|log|, k requires 0 <= k < |log| => ShippedTx(log, k))
  }

  function EnvelopeAt(space: Text, log: Log, k: nat): TxEnvelope
    requires k < |log|
  {
    EnvelopeOf(space, ShippedTx(log, k), k + 1)
  }

  /** `shipFrom`: the envelopes of every transaction after `cursor`. */
  function EnvelopesFrom(space: Text, log: Log, cursor: nat): seq<TxEnvelope> {
    if cursor >= |log| then []
    else seq(|log| - cursor, i requires 0 <= i < |log| - cursor => EnvelopeAt(space, log, cursor + i))
  }

  /** What a replicated append carries besides the bundle. */
  lemma ShippedContextIs(space: Text, b: TxBundle, txIndex: nat)
    ensures var e := EnvelopeOf(space, b, txIndex);
      && e.graphSpaceId == space && e.txBundle == b && e.txIndex == txIndex
      && e.ctx == IdempotencyCtx(Lit("replicator"), Lit("ship:") + space + Lit(":") + b.txId, BundleText(b), None)
      && e.canonicalHash == CanonicalHash(space, b)
  {
  }

  /** A replicated append goes by content: once a bundle is committed under the slot of its id, the same
      up to volatile keys replays its receipt, anything else under that id is refused. */
  lemma ReplicatedByContent(s: Store, a: TxBundle, b: TxBundle, ctxA: IdempotencyCtx, ctxB: IdempotencyCtx)
    requires !a.Empty() && !b.Empty() && ctxA.IdemSlot() == ctxB.IdemSlot() && ctxA.IdemSlot() !in s.idempotency
    requires ctxA.payloadHash == BundleText(a) && ctxB.payloadHash == BundleText(b)
    requires ctxA.requiredBaseCursor.None?
    ensures var (s', o) := Append(s, a, ctxA, None);
      && o.Committed? && s'.log == s.log + [a]
      && Append(s', b, ctxB, None) == (s', if SameBundle(a, b) then o else Failed(IdempotencyPayloadMismatch))
  {
    hide BundleText, SameBundle, BundleHash, ReceiptFor;
    BundleHashesAgree(a, b);
    BundleHashIs(a);
    BundleHashIs(b);
  }

  lemma BundleHashIs(b: TxBundle)
    ensures BundleHash(b) == BundleText(b)
  {
  }

  lemma SlotsDiffer(space: Text, a: Text, b: Text)
    requires ShipSlot(space, a) == ShipSlot(space, b)
    ensures a == b
  {
    var p := SHIP_PREFIX + space + Lit(":");
    assert (p + a)[|p|..] == a && (p + b)[|p|..] == b;
  }

  // ---------------------------------------------------------------- the shipped log

  lemma StoredPartStable(log: Log, more: Log, k: nat, s: Stream)
    requires k < |log|
    ensures StoredPart(log + more, k, s) == StoredPart(log, k, s)
  {
    var all := log + more;
    assert all[..k] == log[..k] && all[k] == log[k];
    StoredPartIs(log, k, s);
    StoredPartIs(all, k, s);
    EventsPrefix(all, |log|, s);
    assert all[..|log|] == log;
    var before := Count(log[..k], s);
    if !ExactPart(log, k, s) {
      assert Events(all, s)[before - 1] == Events(all, s)[..Count(log, s)][before - 1];
    }
  }

  /** What a primary ships for a transaction never changes as its log grows. */
  lemma ShippedStable(log: Log, more: Log)
    ensures Shipped(log) <= Shipped(log + more)
    ensures forall k | 0 <= k < |log| :: ShippedTx(log + more, k) == ShippedTx(log, k)
  {
    forall k | 0 <= k < |log| ensures ShippedTx(log + more, k) == ShippedTx(log, k) {
      StoredPartStable(log, more, k, Meta);
      StoredPartStable(log, more, k, Graph);
    }
  }

  lemma ShippedPartSize(log: Log, k: nat, s: Stream)
    requires k < |log|
    ensures |ShippedTx(log, k).Part(s)| == if ExactPart(log, k, s) then |log[k].Part(s)| else 1
  {
    StoredPartIs(log, k, s);
  }

  lemma {:induction false} CountZeroShipped(log: Log, k: nat, s: Stream)
    requires k <= |log| && Count(log[..k], s) == 0
    ensures Count(Shipped(log)[..k], s) == 0
  {
    if k > 0 {
      CountStep(log, k - 1, s);
      CountZeroShipped(log, k - 1, s);
      ShippedPartSize(log, k - 1, s);
      CountStep(Shipped(log), k - 1, s);
    }
  }

  /** Shipping keeps ids and never ships an empty transaction; every shipped transaction reads
      back exactly, whatever the primary's did. */
  lemma ShippedIsExact(log: Log)
    requires NonEmptyTxs(log)
    ensures Exact(Shipped(log)) && NonEmptyTxs(Shipped(log))
    ensures forall k | 0 <= k < |log| :: Shipped(log)[k].txId == log[k].txId
    ensures UniqueIds(log) ==> UniqueIds(Shipped(log))
  {
    forall k, s | 0 <= k < |log| ensures ExactPart(Shipped(log), k, s) {
      ShippedPartSize(log, k, s);
      if |log[k].Part(s)| == 0 && Count(log[..k], s) == 0 {
        CountZeroShipped(log, k, s);
      }
    }
    forall k | 0 <= k < |log| ensures !Shipped(log)[k].Empty() {
      assert log[k] in log;
      ShippedPartSize(log, k, Meta);
      ShippedPartSize(log, k, Graph);
    }
  }

  lemma ShippedIsExactIff(log: Log, k: nat)
    requires k < |log|
    ensures ShippedTx(log, k) == log[k] <==> ExactAt(log, k)
  {
    ReadTxExactIff(log, k);
  }

  /** Replicas are built from the primary's own transactions exactly when the primary's log reads
      back exactly. */
  lemma ShippedIsLogIff(log: Log)
    ensures Shipped(log) == log <==> Exact(log)
  {
    hide ShippedTx, ExactAt;
    forall k | 0 <= k < |log| ensures Shipped(log)[k] == log[k] <==> ExactAt(log, k) {
      ShippedIsExactIff(log, k);
    }
    if Shipped(log) == log {
      forall k | 0 <= k < |log| ensures ExactAt(log, k) {
        assert Shipped(log)[k] == log[k];
      }
    }
  }

  lemma {:induction false} CountOfStreamless(log: Log, s: Stream)
    requires forall b | b in log :: b.Part(s) == []
    ensures Count(log, s) == 0
  {
    if log != [] {
      CountOfStreamless(log[..|log| - 1], s);
    }
  }

  /** Kernel-written logs, one graph event per transaction and no meta events, are exact. */
  lemma KernelLogsAreExact(log: Log)
    requires forall b | b in log :: b.metaEvents == [] && |b.graphEvents| == 1
    ensures Exact(log)
  {
    forall k | 0 <= k < |log| ensures ExactAt(log, k) {
      assert log[k] in log;
      CountOfStreamless(log[..k], Meta);
    }
  }

  // ---------------------------------------------------------------- receipts rebuilt from a store

  function FindEntry(index: seq<TxIndexEntry>, txId: Text): Option<TxIndexEntry> {
    if index == [] then None
    else if index[0].txId == txId then Some(index[0])
    else FindEntry(index[1..], txId)
  }

  /** `buildStableReceipt`: a receipt put together from readTx and the index. */
  function StableReceipt(log: Log, txId: Text): Outcome {
    var existing := ReadTxOf(log, txId);
    var entry := FindEntry(IndexOf(log), txId);
    if existing.None? || entry.None? then Failed(DivergenceDetected)
    else Committed(Receipt(txId, entry.value.txIndex, Cursor(entry.value.meta.end, entry.value.graph.end),
                           RefsOf(existing.value.meta), RefsOf(existing.value.graph)))
  }

  lemma {:induction false} FindEntryAt(index: seq<TxIndexEntry>, k: nat)
    requires k < |index| && forall i | 0 <= i < k :: index[i].txId != index[k].txId
    ensures FindEntry(index, index[k].txId) == Some(index[k])
  {
    if k > 0 {
      FindEntryAt(index[1..], k - 1);
    }
  }

  /** The rebuilt receipt is the one the commit returned, provided the transaction reads back
      exactly. */
  lemma StableReceiptIsOriginal(log: Log, k: nat)
    requires UniqueIds(log) && k < |log| && ExactAt(log, k)
    ensures StableReceipt(log, log[k].txId) == Committed(ReceiptAt(log, k))
  {
    hide Events, LastEntries, Envelopes, Count;
    ReadTxFinds(log, k);
    var index := IndexOf(log);
    IndexOfAt(log, k);
    forall i | 0 <= i < k ensures index[i].txId != index[k].txId {
      IndexOfAt(log, i);
    }
    FindEntryAt(index, k);
    StoredPartIs(log, k, Meta);
    StoredPartIs(log, k, Graph);
  }
}
