/** Passive replication over the simulated network: one primary, replicas built from what it
    ships, and every schedule of appends, shipping, network faults, deliveries and restarts. */
module ReplicationSpec {
  import opened Texts
  import opened EventLog
  import opened StoreSpec
  import opened Digest
  import opened Shipping
  import opened NetworkSpec

  datatype ReplicaState = ReplicaState(lastAppliedTxIndex: nat, txHashById: map<Text, Text>)

  /** A replica's store, and the applier's state for it once a delivery has needed it. */
  datatype Replica = Replica(store: Store, state: Option<ReplicaState>)

  const FreshReplica := Replica(EmptyStore, None)

  function StateOf(r: Replica): ReplicaState {
    r.state.GetOr(ReplicaState(|r.store.log|, map[]))
  }

  /** `applyToReplica`. */
  function Apply(r: Replica, env: TxEnvelope): (Replica, Outcome) {
    var st, txId := StateOf(r), env.txBundle.txId;
    var seen := r.(state := Some(st));
    if env.txIndex > st.lastAppliedTxIndex + 1 then (seen, Failed(OrderGap))
    else if env.canonicalHash != CanonicalHash(env.graphSpaceId, env.txBundle) then (seen, Failed(DivergenceDetected))
    else if ReadTxOf(r.store.log, txId).Some? then
      if txId in st.txHashById && st.txHashById[txId] != env.canonicalHash then (seen, Failed(DivergenceDetected))
      else (seen, StableReceipt(r.store.log, txId))
    else if env.txIndex < st.lastAppliedTxIndex + 1 then (seen, Failed(DivergenceDetected))
    else
      var (store, o) := Append(r.store, env.txBundle, env.ctx, None);
      var noted := ReplicaState(env.txIndex, st.txHashById[txId := env.canonicalHash]);
      (Replica(store, Some(if o.Committed? then noted else st)), o)
  }

  // ---------------------------------------------------------------- one delivery

  /** The replica holds a prefix of `base`; its slots and hashes are those of that prefix. */
  ghost predicate InSync(space: Text, base: Log, r: Replica) {
    var n := |r.store.log|;
    && r.store.log <= base
    && (forall slot | slot in r.store.idempotency :: exists k | 0 <= k < n :: slot == ShipSlot(space, base[k].txId))
    && StateOf(r).lastAppliedTxIndex == n
    && (forall id | id in StateOf(r).txHashById ::
          exists k | 0 <= k < n :: base[k].txId == id && StateOf(r).txHashById[id] == CanonicalHash(space, base[k]))
  }

  /** A log replicas can be built from. */
  ghost predicate Shippable(base: Log) {
    UniqueIds(base) && NonEmptyTxs(base) && Exact(base)
  }

  lemma PrefixIsShippable(base: Log, n: nat)
    requires Shippable(base) && n <= |base|
    ensures Shippable(base[..n])
  {
    var p := base[..n];
    forall k | 0 <= k < n ensures ExactAt(p, k) {
      assert p[..k] == base[..k] && ExactAt(base, k);
    }
  }

  lemma SameHash(space: Text, base: Log, r: Replica, k: nat)
    requires Shippable(base) && InSync(space, base, r) && k < |base| && base[k].txId in StateOf(r).txHashById
    ensures StateOf(r).txHashById[base[k].txId] == CanonicalHash(space, base[k])
  {
    hide CanonicalHash;
    var i :| 0 <= i < |r.store.log| && base[i].txId == base[k].txId
      && StateOf(r).txHashById[base[k].txId] == CanonicalHash(space, base[i]);
    assert i == k;
  }

  /** A transaction the replica already has comes back with its first receipt. */
  lemma RedeliverKnown(space: Text, base: Log, r: Replica, k: nat)
    requires Shippable(base) && InSync(space, base, r) && k < |r.store.log|
    ensures Apply(r, EnvelopeOf(space, base[k], k + 1)) ==
      (r.(state := Some(StateOf(r))), Committed(ReceiptAt(base, k)))
  {
    hide CanonicalHash, BundleHash, ReadTxFrom, StableReceipt, UniqueIds, NonEmptyTxs, Exact;
    var log := r.store.log;
    assert log == base[..|log|];
    PrefixIsShippable(base, |log|);
    KnownIsRead(log, k);
    if base[k].txId in StateOf(r).txHashById {
      SameHash(space, base, r, k);
    }
    assert log[..k] == base[..k];
  }

  lemma KnownIsRead(log: Log, k: nat)
    requires Shippable(log) && k < |log|
    ensures ReadTxOf(log, log[k].txId).Some? && StableReceipt(log, log[k].txId) == Committed(ReceiptAt(log, k))
  {
    ReadTxFinds(log, k);
    assert ExactAt(log, k);
    StableReceiptIsOriginal(log, k);
  }

  lemma FreshAfterPrefix(base: Log, n: nat)
    requires UniqueIds(base) && n < |base|
    ensures !HasTx(base[..n], base[n].txId)
  {
  }

  lemma SlotMeansHas(space: Text, base: Log, r: Replica, txId: Text)
    requires InSync(space, base, r) && ShipSlot(space, txId) in r.store.idempotency
    ensures HasTx(r.store.log, txId)
  {
    hide ShipSlot, CanonicalHash;
    var k :| 0 <= k < |r.store.log| && ShipSlot(space, txId) == ShipSlot(space, base[k].txId);
    SlotsDiffer(space, txId, base[k].txId);
    assert r.store.log[k] in r.store.log;
  }

  lemma UnknownIsNew(space: Text, base: Log, r: Replica)
    requires Shippable(base) && InSync(space, base, r) && |r.store.log| < |base|
    ensures var b := base[|r.store.log|];
      ReadTxOf(r.store.log, b.txId).None? && ShipSlot(space, b.txId) !in r.store.idempotency && !b.Empty()
  {
    hide LastEntries, IndexOf, Events, UniqueIds, Exact, HasTx;
    var n := |r.store.log|;
    var b := base[n];
    assert b in base;
    assert r.store.log == base[..n];
    FreshAfterPrefix(base, n);
    ReadTxMisses(r.store.log, b.txId);
    if ShipSlot(space, b.txId) in r.store.idempotency {
      SlotMeansHas(space, base, r, b.txId);
    }
  }

  lemma SlotOfEnvelope(space: Text, b: TxBundle, txIndex: nat)
    ensures EnvelopeOf(space, b, txIndex).ctx.IdemSlot() == ShipSlot(space, b.txId)
  {
  }

  /** The next transaction is appended, with the receipt every later delivery of it returns. */
  lemma DeliverNext(space: Text, base: Log, r: Replica)
    requires Shippable(base) && InSync(space, base, r) && |r.store.log| < |base|
    ensures var n := |r.store.log|;
      var (r', o) := Apply(r, EnvelopeOf(space, base[n], n + 1));
      && o == Committed(ReceiptAt(base, n))
      && r'.store.log == base[..n + 1] && InSync(space, base, r')
  {
    hide CanonicalHash, BundleHash, ReadTxOf, StableReceipt, ReceiptFor, UniqueIds, NonEmptyTxs, Exact, ShipSlot;
    var n := |r.store.log|;
    SlotOfEnvelope(space, base[n], n + 1);
    var r' := Apply(r, EnvelopeOf(space, base[n], n + 1)).0;
    UnknownIsNew(space, base, r);
    assert r.store.log == base[..n];
    assert r'.store.log == base[..n + 1];
    forall slot | slot in r'.store.idempotency
      ensures exists k | 0 <= k < n + 1 :: slot == ShipSlot(space, base[k].txId)
    {
      if slot == ShipSlot(space, base[n].txId) {
      } else {
        assert slot in r.store.idempotency;
      }
    }
    forall id | id in StateOf(r').txHashById
      ensures exists k | 0 <= k < n + 1 ::
        base[k].txId == id && StateOf(r').txHashById[id] == CanonicalHash(space, base[k])
    {
      if id != base[n].txId {
        assert id in StateOf(r).txHashById;
      }
    }
  }

  /** Delivering transaction k of the primary to a replica holding n of them: beyond the next one
      it is an order gap; the next one is appended; an older one changes nothing.  A committed
      answer is always the same receipt, and a false divergence is never reported. */
  lemma DeliverySound(space: Text, base: Log, r: Replica, k: nat)
    requires Shippable(base) && InSync(space, base, r) && k < |base|
    ensures var n := |r.store.log|;
      var (r', o) := Apply(r, EnvelopeOf(space, base[k], k + 1));
      && InSync(space, base, r')
      && r'.store.log == (if k == n then base[..n + 1] else r.store.log)
      && o == (if k > n then Failed(OrderGap) else Committed(ReceiptAt(base, k)))
  {
    hide CanonicalHash, BundleHash, StableReceipt, ReceiptFor, UniqueIds, NonEmptyTxs, Exact, ReadTxOf;
    if k < |r.store.log| {
      RedeliverKnown(space, base, r, k);
    } else if k == |r.store.log| {
      DeliverNext(space, base, r);
    }
  }

  // ---------------------------------------------------------------- the whole system

  datatype World = World(primary: Store, replicas: map<Text, Replica>, net: Net<TxEnvelope>)

  const PRIMARY: Text := Lit("primary")

  datatype Action =
    | AppendOnPrimary(b: TxBundle, ctx: IdempotencyCtx, failAt: Option<FaultPoint>)
    | Ship(to: Text, cursor: nat, take: nat)
    | DropSome(hit: seq<bool>)
    | DuplicateSome(hit: seq<bool>)
    | ReorderTwo(left: nat, right: nat)
    | PartitionPair(peerA: Text, peerB: Text)
    | HealAll
    | Deliver
    | RestartPrimary
    | RestartReplica(id: Text)

  function Messages(to: Text, envelopes: seq<TxEnvelope>): seq<Message<TxEnvelope>> {
    seq(|envelopes|, i requires 0 <= i < |envelopes| => Message(PRIMARY, to, envelopes[i]))
  }

  function FirstOf<T>(xs: seq<T>, n: nat): seq<T> { xs[..Min(|xs|, n)] }

  /** Ids are fresh, and network choices fit the queue they are made for. */
  predicate Possible(w: World, a: Action) {
    match a
    case AppendOnPrimary(b, ctx, _) => ctx.IdemSlot() in w.primary.idempotency || !HasTx(w.primary.log, b.txId)
    case Ship(to, _, _) => to in w.replicas
    case DropSome(hit) => |hit| == |w.net.queue|
    case DuplicateSome(hit) => |hit| == |w.net.queue|
    case ReorderTwo(l, r) => |w.net.queue| >= 2 ==> l < |w.net.queue| && r < |w.net.queue|
    case RestartReplica(id) => id in w.replicas
    case _ => true
  }

  /** A delivery: the message, how many transactions its replica had by then, and the answer. */
  datatype Delivery = Delivery(message: Message<TxEnvelope>, had: nat, outcome: Outcome)

  function DeliverStep(w: World): (World, Option<Delivery>) {
    var (net, m) := Tick(w.net);
    if m.None? || m.value.to !in w.replicas then (w.(net := net), None)
    else
      var had := w.replicas[m.value.to];
      var (r, o) := Apply(had, m.value.payload);
      (w.(net := net, replicas := w.replicas[m.value.to := r]), Some(Delivery(m.value, |had.store.log|, o)))
  }

  function Step(space: Text, w: World, a: Action): (World, Option<Delivery>)
    requires Possible(w, a)
  {
    match a
    case AppendOnPrimary(b, ctx, failAt) => (w.(primary := Append(w.primary, b, ctx, failAt).0), None)
    case Ship(to, cursor, take) =>
      (w.(net := SendAll(w.net, Messages(to, FirstOf(EnvelopesFrom(space, w.primary.log, cursor), take)))), None)
    case DropSome(hit) => (w.(net := Drop(w.net, hit)), None)
    case DuplicateSome(hit) => (w.(net := Duplicate(w.net, hit)), None)
    case ReorderTwo(l, r) => (w.(net := Reorder(w.net, l, r)), None)
    case PartitionPair(x, y) => (w.(net := Partition(w.net, x, y)), None)
    case HealAll => (w.(net := Heal(w.net)), None)
    case Deliver => DeliverStep(w)
    case RestartPrimary => (w, None)
    case RestartReplica(id) => (w.(replicas := w.replicas[id := w.replicas[id].(state := None)]), None)
  }

  /** What is in flight is what the primary ships for one of its transactions. */
  ghost predicate Genuine(space: Text, w: World, m: Message<TxEnvelope>) {
    m.to in w.replicas && exists k: nat | k < |w.primary.log| :: m.payload == EnvelopeAt(space, w.primary.log, k)
  }

  ghost predicate Consistent(space: Text, w: World) {
    && UniqueIds(w.primary.log) && NonEmptyTxs(w.primary.log)
    && (forall id | id in w.replicas :: InSync(space, Shipped(w.primary.log), w.replicas[id]))
    && (forall m | m in w.net.queue :: Genuine(space, w, m))
  }

  lemma ShippedIsShippable(log: Log)
    requires UniqueIds(log) && NonEmptyTxs(log)
    ensures Shippable(Shipped(log))
  {
    ShippedIsExact(log);
  }

  lemma SyncGrows(space: Text, base: Log, more: Log, r: Replica)
    requires InSync(space, base, r) && base <= more
    ensures InSync(space, more, r)
  {
    hide CanonicalHash, ShipSlot;
    forall slot | slot in r.store.idempotency
      ensures exists k | 0 <= k < |r.store.log| :: slot == ShipSlot(space, more[k].txId)
    {
      var k :| 0 <= k < |r.store.log| && slot == ShipSlot(space, base[k].txId);
      assert more[k] == base[k];
    }
    forall id | id in StateOf(r).txHashById
      ensures exists k | 0 <= k < |r.store.log| ::
        more[k].txId == id && StateOf(r).txHashById[id] == CanonicalHash(space, more[k])
    {
      var k :| 0 <= k < |r.store.log| && base[k].txId == id
        && StateOf(r).txHashById[id] == CanonicalHash(space, base[k]);
      assert more[k] == base[k];
    }
  }

  lemma AppendKeepsConsistent(space: Text, w: World, b: TxBundle, ctx: IdempotencyCtx, failAt: Option<FaultPoint>)
    requires Consistent(space, w) && Possible(w, AppendOnPrimary(b, ctx, failAt))
    ensures var w' := w.(primary := Append(w.primary, b, ctx, failAt).0);
      Consistent(space, w') && w.primary.log <= w'.primary.log
  {
    hide InSync, Shipped, UniqueIds, ReceiptFor, EnvelopeAt;
    var w' := w.(primary := Append(w.primary, b, ctx, failAt).0);
    if w'.primary.log != w.primary.log {
      UniqueSnoc(w.primary.log, b);
      ShippedStable(w.primary.log, [b]);
      forall id | id in w.replicas ensures InSync(space, Shipped(w'.primary.log), w.replicas[id]) {
        SyncGrows(space, Shipped(w.primary.log), Shipped(w'.primary.log), w.replicas[id]);
      }
      forall m | m in w.net.queue ensures Genuine(space, w', m) {
        var k: nat :| k < |w.primary.log| && m.payload == EnvelopeAt(space, w.primary.log, k);
        EnvelopeStable(space, w.primary.log, [b], k);
      }
    }
  }

  lemma EnvelopeStable(space: Text, log: Log, more: Log, k: nat)
    requires k < |log|
    ensures EnvelopeAt(space, log + more, k) == EnvelopeAt(space, log, k)
  {
    ShippedStable(log, more);
  }

  lemma {:induction false} SendAllMembers<T>(n: Net<T>, ms: seq<Message<T>>)
    ensures forall m | m in SendAll(n, ms).queue :: m in n.queue || m in ms
  {
    if ms != [] {
      SendAllMembers(n, ms[..|ms| - 1]);
    }
  }

  lemma ShipIsGenuine(space: Text, w: World, to: Text, cursor: nat, take: nat)
    requires to in w.replicas
    ensures forall m | m in Messages(to, FirstOf(EnvelopesFrom(space, w.primary.log, cursor), take)) ::
      Genuine(space, w, m)
  {
    hide EnvelopeAt;
    var es := EnvelopesFrom(space, w.primary.log, cursor);
    var ms := Messages(to, FirstOf(es, take));
    forall m | m in ms ensures Genuine(space, w, m) {
      var i :| 0 <= i < |ms| && m == ms[i];
      assert m.payload == es[i] == EnvelopeAt(space, w.primary.log, cursor + i);
    }
  }

  /** A queue whose messages all were in the old queue or are genuine keeps the system consistent. */
  lemma QueueChange(space: Text, w: World, net: Net<TxEnvelope>)
    requires Consistent(space, w) && forall m | m in net.queue :: m in w.net.queue || Genuine(space, w, m)
    ensures Consistent(space, w.(net := net))
  {
    hide InSync, Shipped, UniqueIds, EnvelopeAt;
    forall m | m in net.queue ensures Genuine(space, w.(net := net), m) {
      assert Genuine(space, w, m);
    }
  }

  /** The message carries a transaction of the primary; the answer is an order gap if it lies
      beyond the replica's next one, and the receipt of that very transaction otherwise. */
  ghost predicate Expected(space: Text, w: World, d: Delivery) {
    var n := d.message.payload.txIndex;
    && 1 <= n <= |w.primary.log| && d.message.payload == EnvelopeAt(space, w.primary.log, n - 1)
    && d.outcome == (if n - 1 > d.had then Failed(OrderGap) else Committed(ReceiptAt(Shipped(w.primary.log), n - 1)))
  }

  lemma DeliverKeepsConsistent(space: Text, w: World)
    requires Consistent(space, w)
    ensures var (w', d) := DeliverStep(w);
      && Consistent(space, w') && w'.primary == w.primary && w'.replicas.Keys == w.replicas.Keys
      && (forall id | id in w.replicas :: w.replicas[id].store.log <= w'.replicas[id].store.log)
      && (d.Some? <==> w.net.queue != []) && (d.Some? ==> Expected(space, w, d.value))
  {
    hide InSync, Shipped, UniqueIds, NonEmptyTxs, Shippable, Apply, EnvelopeOf, ReceiptAt, ShippedTx;
    if w.net.queue != [] {
      var m := w.net.queue[0];
      assert Genuine(space, w, m);
      var k: nat :| k < |w.primary.log| && m.payload == EnvelopeAt(space, w.primary.log, k);
      var base, r := Shipped(w.primary.log), w.replicas[m.to];
      ShippedIsShippable(w.primary.log);
      ShippedElement(w.primary.log, k);
      EnvelopeIndex(space, w.primary.log, k);
      DeliverySound(space, base, r, k);
      PrefixOrder(space, base, r, k);
      var w' := DeliverStep(w).0;
      forall x | x in w'.net.queue ensures Genuine(space, w', x) {
        assert Genuine(space, w, x);
      }
    }
  }

  lemma EnvelopeIndex(space: Text, log: Log, k: nat)
    requires k < |log|
    ensures EnvelopeAt(space, log, k).txIndex == k + 1
  {
    hide ShippedTx;
  }

  lemma ShippedElement(log: Log, k: nat)
    requires k < |log|
    ensures Shipped(log)[k] == ShippedTx(log, k)
  {
  }

  lemma PrefixOrder(space: Text, base: Log, r: Replica, k: nat)
    requires InSync(space, base, r) && k < |base|
    ensures k == |r.store.log| ==> r.store.log <= base[..|r.store.log| + 1]
  {
  }

  /** One step of any kind keeps the system consistent and never shrinks a log. */
  lemma StepSafe(space: Text, w: World, a: Action)
    requires Consistent(space, w) && Possible(w, a)
    ensures var (w', d) := Step(space, w, a);
      && Consistent(space, w') && w.primary.log <= w'.primary.log && w'.replicas.Keys == w.replicas.Keys
      && (forall id | id in w.replicas :: w.replicas[id].store.log <= w'.replicas[id].store.log)
      && (d.Some? ==> Expected(space, w', d.value))
  {
    hide InSync, Shipped, UniqueIds, Apply, EnvelopeOf, ReceiptAt, Append, DeliverStep, Genuine, Messages,
      EnvelopesFrom, SendAll, Spared, Doubled;
    match a
    case AppendOnPrimary(b, ctx, failAt) => AppendKeepsConsistent(space, w, b, ctx, failAt);
    case Ship(to, cursor, take) =>
      var ms := Messages(to, FirstOf(EnvelopesFrom(space, w.primary.log, cursor), take));
      SendAllMembers(w.net, ms);
      ShipIsGenuine(space, w, to, cursor, take);
      QueueChange(space, w, SendAll(w.net, ms));
    case DropSome(hit) =>
      SparedMembers(w.net.queue, hit);
      QueueChange(space, w, Drop(w.net, hit));
    case DuplicateSome(hit) =>
      DoubledMembers(w.net.queue, hit);
      QueueChange(space, w, Duplicate(w.net, hit));
    case ReorderTwo(l, r) =>
      ReorderMembers(w.net, l, r);
      QueueChange(space, w, Reorder(w.net, l, r));
    case PartitionPair(x, y) => QueueChange(space, w, Partition(w.net, x, y));
    case HealAll => QueueChange(space, w, Heal(w.net));
    case Deliver => DeliverKeepsConsistent(space, w);
    case RestartPrimary =>
    case RestartReplica(id) => RestartKeepsConsistent(space, w, id);
  }

  lemma RestartKeepsConsistent(space: Text, w: World, id: Text)
    requires Consistent(space, w) && id in w.replicas
    ensures Consistent(space, Step(space, w, RestartReplica(id)).0)
  {
    hide Shipped, UniqueIds, EnvelopeAt, CanonicalHash;
    var w' := Step(space, w, RestartReplica(id)).0;
    forall m | m in w'.net.queue ensures Genuine(space, w', m) {
      assert Genuine(space, w, m);
    }
  }

  // ---------------------------------------------------------------- every run

  ghost predicate PossibleRun(space: Text, w: World, actions: seq<Action>)
    decreases |actions|
  {
    actions == [] || (Possible(w, actions[0]) && PossibleRun(space, Step(space, w, actions[0]).0, actions[1..]))
  }

  /** A run: the world it ends in and its deliveries. */
  ghost function Run(space: Text, w: World, actions: seq<Action>): (World, seq<Delivery>)
    requires PossibleRun(space, w, actions)
    decreases |actions|
  {
    if actions == [] then (w, [])
    else
      var (w', d) := Step(space, w, actions[0]);
      var (end, rest) := Run(space, w', actions[1..]);
      (end, if d.Some? then [d.value] + rest else rest)
  }

  lemma ReceiptOfPrefix(log: Log, more: Log, k: nat)
    requires log <= more && k < |log|
    ensures ReceiptAt(log, k) == ReceiptAt(more, k)
  {
    assert log[..k] == more[..k];
  }

  lemma ExpectedGrows(space: Text, w: World, w': World, d: Delivery)
    requires Expected(space, w, d) && w.primary.log <= w'.primary.log
    ensures Expected(space, w', d)
  {
    hide ReceiptFor, Shipped, EnvelopeAt;
    var log, k := w.primary.log, d.message.payload.txIndex - 1;
    var more := w'.primary.log[|log|..];
    assert w'.primary.log == log + more;
    ShippedStable(log, more);
    EnvelopeStable(space, log, more, k);
    ReceiptOfPrefix(Shipped(log), Shipped(w'.primary.log), k);
  }

  /** Over every run, each replica's log stays a prefix of what the primary ships and only grows,
      its applied index is its length, and every delivery answers with an order gap, if what it
      carries lies beyond the replica's next transaction, or with the one receipt of the
      transaction it carries, first delivery or not. */
  lemma {:induction false} RunSafe(space: Text, w: World, actions: seq<Action>)
    requires Consistent(space, w) && PossibleRun(space, w, actions)
    ensures var (w', deliveries) := Run(space, w, actions);
      && Consistent(space, w') && w.primary.log <= w'.primary.log && w'.replicas.Keys == w.replicas.Keys
      && (forall d | d in deliveries :: Expected(space, w', d))
      && (forall id | id in w'.replicas ::
            && w.replicas[id].store.log <= w'.replicas[id].store.log <= Shipped(w'.primary.log)
            && StateOf(w'.replicas[id]).lastAppliedTxIndex == |w'.replicas[id].store.log|)
    decreases |actions|
  {
    hide Step, Possible, Shipped, UniqueIds, Expected, Genuine, CanonicalHash, ShipSlot;
    if actions != [] {
      StepSafe(space, w, actions[0]);
      var (w1, d) := Step(space, w, actions[0]);
      RunSafe(space, w1, actions[1..]);
      if d.Some? {
        ExpectedGrows(space, w1, Run(space, w, actions).0, d.value);
      }
    }
  }

  /** The system as it starts: nothing in flight and no replica has anything. */
  lemma StartIsConsistent(space: Text, ids: set<Text>, maxQueueSize: Option<nat>)
    ensures Consistent(space,
      World(EmptyStore, map id | id in ids :: FreshReplica, Net([], {}, maxQueueSize, ZeroStats)))
  {
  }

  /** A replica holds the primary's own transactions exactly when each one it holds reads back exactly
      from the primary, as all of a kernel-written log do. */
  lemma ReplicaHoldsPrimaryLogIff(space: Text, w: World, id: Text)
    requires Consistent(space, w) && id in w.replicas
    ensures var held := w.replicas[id].store.log;
      held <= w.primary.log <==> forall k | 0 <= k < |held| :: ExactAt(w.primary.log, k)
  {
    hide ShippedTx, ExactAt;
    var held, log := w.replicas[id].store.log, w.primary.log;
    assert held <= Shipped(log);
    forall k | 0 <= k < |held| ensures held[k] == log[k] <==> ExactAt(log, k) {
      ShippedElement(log, k);
      ShippedIsExactIff(log, k);
    }
  }
}
