/** The replication harness over real stores: shipping, applying and restarting. */
module Replication {
  import opened Texts
  import opened EventLog
  import opened StoreSpec
  import opened Stores
  import opened Digest
  import opened Shipping
  import opened Receipts
  import opened ReplicationSpec

  /** What one more transaction of the log adds to what is shipped. */
  lemma EnvelopesFromStep(space: Text, log: Log, cursor: nat, i: nat)
    requires i < |log|
    ensures EnvelopesFrom(space, log[..i + 1], cursor) ==
      EnvelopesFrom(space, log[..i], cursor) + if i + 1 > cursor then [EnvelopeAt(space, log, i)] else []
  {
    hide EnvelopeOf, ShippedTx;
    PrefixShips(space, log, i);
    PrefixShips(space, log, i + 1);
  }

  lemma PrefixShips(space: Text, log: Log, n: nat)
    requires n <= |log|
    ensures forall k | 0 <= k < n :: EnvelopeAt(space, log[..n], k) == EnvelopeAt(space, log, k)
  {
    assert log == log[..n] + log[n..];
    ShippedStable(log[..n], log[n..]);
  }

  class PassiveReplicationHarness {
    const primary: InMemoryLocalEventStore
    const replicas: map<Text, InMemoryLocalEventStore>
    var replicaStateById: map<Text, ReplicaState>

    constructor (primary: InMemoryLocalEventStore, replicas: map<Text, InMemoryLocalEventStore>)
      ensures this.primary == primary && this.replicas == replicas && replicaStateById == map[]
    {
      this.primary, this.replicas, replicaStateById := primary, replicas, map[];
    }

    /** A replica as the protocol sees it. */
    ghost function ReplicaOf(id: Text): Replica
      requires id in replicas
      reads this, replicas[id]
    {
      Replica(replicas[id].Abs(), if id in replicaStateById then Some(replicaStateById[id]) else None)
    }

    method GetReplicaState(id: Text) returns (state: ReplicaState)
      requires id in replicas && replicas[id].Valid()
      modifies this`replicaStateById
      ensures state == StateOf(old(ReplicaOf(id)))
      ensures replicaStateById == old(replicaStateById)[id := state]
    {
      hide Events, Count, LastEntries;
      if id in replicaStateById {
        state := replicaStateById[id];
      } else {
        var index := replicas[id].txIndex;
        if |index| > 0 {
          IndexOfAt(replicas[id].log, |index| - 1);
        }
        state := ReplicaState(if |index| > 0 then index[|index| - 1].txIndex else 0, map[]);
      }
      replicaStateById := replicaStateById[id := state];
    }

    /** One delivery: the replica it names moves as the protocol says, and no other does. */
    method ApplyToReplica(id: Text, env: TxEnvelope) returns (o: Outcome)
      requires id in replicas && replicas[id].Valid()
      modifies this`replicaStateById, replicas[id]
      ensures replicas[id].Valid() && (ReplicaOf(id), o) == Apply(old(ReplicaOf(id)), env)
      ensures replicaStateById - {id} == old(replicaStateById) - {id}
    {
      hide Events, Count, LastEntries, IndexOf, ReadTxFrom, StableReceipt, CanonicalHash, Append;
      var store, txId := replicas[id], env.txBundle.txId;
      var state := GetReplicaState(id);
      var expectedNext := state.lastAppliedTxIndex + 1;
      if env.txIndex > expectedNext { return Failed(OrderGap); }
      if env.canonicalHash != CanonicalHash(env.graphSpaceId, env.txBundle) { return Failed(DivergenceDetected); }
      var existing := store.ReadTx(txId);
      if existing.Some? {
        if txId in state.txHashById && state.txHashById[txId] != env.canonicalHash {
          return Failed(DivergenceDetected);
        }
        o := BuildStableReceipt(store, txId);
        return;
      }
      if env.txIndex < expectedNext { return Failed(DivergenceDetected); }
      o := store.AppendTx(env.txBundle, env.ctx, None);
      if o.Committed? {
        replicaStateById :=
          replicaStateById[id := ReplicaState(env.txIndex, state.txHashById[txId := env.canonicalHash])];
      }
    }

    /** The envelopes of every primary transaction after `cursor`, each read back from the store. */
    method ShipFrom(space: Text, cursor: nat) returns (txEnvelopes: seq<TxEnvelope>, cursorAfter: nat)
      requires primary.Valid() && UniqueIds(primary.log)
      ensures txEnvelopes == EnvelopesFrom(space, primary.log, cursor)
      ensures cursorAfter == if cursor < |primary.log| then |primary.log| else cursor
    {
      hide Events, Count, LastEntries, IndexOf, ReadTxFrom, UniqueIds, EnvelopesFrom, EnvelopeOf, StoredPart;
      ghost var log := primary.log;
      var index := primary.txIndex;
      txEnvelopes, cursorAfter := [], cursor;
      NothingShipped(space, cursor);
      for i := 0 to |index|
        invariant txEnvelopes == EnvelopesFrom(space, log[..i], cursor)
        invariant cursorAfter == if cursor < i then i else cursor
      {
        IndexOfAt(log, i);
        EnvelopesFromStep(space, log, cursor, i);
        var entry := index[i];
        if entry.txIndex > cursor {
          ReadTxFinds(log, i);
          var tx := primary.ReadTx(entry.txId);
          if tx.None? { return [], cursor; }
          var txBundle := TxBundle(entry.txId, Payloads(tx.value.meta), Payloads(tx.value.graph));
          txEnvelopes := txEnvelopes + [EnvelopeOf(space, txBundle, entry.txIndex)];
          cursorAfter := entry.txIndex;
        }
      }
      assert log[..|index|] == log;
    }

    /** The replica's store survives; what the applier knew about it does not. */
    method RestartReplica(id: Text)
      requires id in replicas
      modifies this`replicaStateById
      ensures ReplicaOf(id) == old(ReplicaOf(id)).(state := None)
      ensures replicaStateById == old(replicaStateById) - {id}
    {
      replicaStateById := replicaStateById - {id};
    }
  }

  lemma NothingShipped(space: Text, cursor: nat)
    ensures EnvelopesFrom(space, [], cursor) == []
  {
  }
}
