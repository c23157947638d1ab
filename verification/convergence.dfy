/** Convergence of passive replication: rounds that ship each replica its next transaction and
    drain the network bring every replica up to the primary. */
module Convergence {
  import opened Texts
  import opened EventLog
  import opened StoreSpec
  import opened Digest
  import opened Shipping
  import opened NetworkSpec
  import opened ReplicationSpec

  const MAX_DELIVERIES := 200

  function IdSet(log: Log): set<Text> {
    set b | b in log :: b.txId
  }

  predicate Known(w: World, ids: seq<Text>) {
    forall id | id in ids :: id in w.replicas
  }

  /** Every replica has the primary's transaction ids. */
  predicate Converged(w: World, ids: seq<Text>)
    requires Known(w, ids)
  {
    forall id | id in ids :: IdSet(w.replicas[id].store.log) == IdSet(w.primary.log)
  }

  /** What one replica is sent: the first transaction after its own last one, if any. */
  function NextMessage(space: Text, w: World, id: Text): seq<Message<TxEnvelope>>
    requires id in w.replicas
  {
    Messages(id, FirstOf(EnvelopesFrom(space, w.primary.log, |w.replicas[id].store.log|), 1))
  }

  function RoundMessages(space: Text, w: World, ids: seq<Text>): seq<Message<TxEnvelope>>
    requires Known(w, ids)
  {
    if ids == [] then [] else RoundMessages(space, w, ids[..|ids| - 1]) + NextMessage(space, w, ids[|ids| - 1])
  }

  function Drain(w: World, fuel: nat): World
    decreases fuel
  {
    if fuel == 0 || w.net.queue == [] then w else Drain(DeliverStep(w).0, fuel - 1)
  }

  function Round(space: Text, w: World, ids: seq<Text>): World
    requires Known(w, ids)
  {
    Drain(w.(net := SendAll(w.net, RoundMessages(space, w, ids))), MAX_DELIVERIES)
  }

  /** `flushUntilConverged` after healing: rounds until the id sets agree. */
  ghost function Flush(space: Text, w: World, ids: seq<Text>, rounds: nat): World
    decreases rounds
  {
    if rounds == 0 || !Known(w, ids) then w
    else
      var w' := Round(space, w, ids);
      if Known(w', ids) && Converged(w', ids) then w' else Flush(space, w', ids, rounds - 1)
  }

  // ---------------------------------------------------------------- distance to the primary

  ghost predicate Grows(w: World, w': World) {
    && w'.primary == w.primary && w'.replicas.Keys == w.replicas.Keys
    && forall id | id in w.replicas :: w.replicas[id].store.log <= w'.replicas[id].store.log
  }

  function Lag(w: World, id: Text): int
    requires id in w.replicas
  {
    |w.primary.log| - |w.replicas[id].store.log|
  }

  function TotalLag(w: World, ids: seq<Text>): int
    requires Known(w, ids)
  {
    if ids == [] then 0 else TotalLag(w, ids[..|ids| - 1]) + Lag(w, ids[|ids| - 1])
  }

  lemma LagIsNat(space: Text, w: World, id: Text)
    requires Consistent(space, w) && id in w.replicas
    ensures Lag(w, id) >= 0
  {
  }

  lemma {:induction false} TotalLagShrinks(w: World, w': World, ids: seq<Text>)
    requires Known(w, ids) && Grows(w, w')
    ensures TotalLag(w', ids) <= TotalLag(w, ids) && forall id | id in ids :: Lag(w', id) <= Lag(w, id)
    ensures (exists id | id in ids :: Lag(w', id) < Lag(w, id)) ==> TotalLag(w', ids) < TotalLag(w, ids)
  {
    if ids != [] {
      var init, last := ids[..|ids| - 1], ids[|ids| - 1];
      assert Known(w, init);
      TotalLagShrinks(w, w', init);
      assert w.replicas[last].store.log <= w'.replicas[last].store.log;
      if id :| id in ids && Lag(w', id) < Lag(w, id) {
        assert id == last || id in init;
      }
    }
  }

  lemma {:induction false} TotalLagZero(space: Text, w: World, ids: seq<Text>)
    requires Consistent(space, w) && Known(w, ids)
    ensures TotalLag(w, ids) >= 0
    ensures TotalLag(w, ids) == 0 <==> forall id | id in ids :: Lag(w, id) == 0
  {
    hide Consistent;
    if ids != [] {
      TotalLagZero(space, w, ids[..|ids| - 1]);
      LagIsNat(space, w, ids[|ids| - 1]);
    }
  }

  lemma CaughtUp(space: Text, w: World, id: Text)
    requires Consistent(space, w) && id in w.replicas
    ensures w.replicas[id].store.log == Shipped(w.primary.log) <==> Lag(w, id) == 0
    ensures IdSet(w.replicas[id].store.log) == IdSet(w.primary.log) ==> Lag(w, id) == 0
  {
    hide ShippedTx, CanonicalHash, ShipSlot, IdSet;
    var log, base := w.replicas[id].store.log, Shipped(w.primary.log);
    assert log == base[..|log|];
    if |log| < |base| {
      ShortMissesId(w.primary.log, |log|);
    }
  }

  lemma ShortMissesId(log: Log, n: nat)
    requires UniqueIds(log) && NonEmptyTxs(log) && n < |log|
    ensures IdSet(Shipped(log)[..n]) != IdSet(log)
  {
    hide ShippedTx;
    var base := Shipped(log);
    ShippedIsExact(log);
    FreshAfterPrefix(base, n);
    assert base[n].txId == log[n].txId && log[n] in log;
    assert log[n].txId in IdSet(log) && log[n].txId !in IdSet(base[..n]);
  }

  // ---------------------------------------------------------------- draining

  lemma DeliveryTicks(w: World)
    ensures DeliverStep(w).0.net == Tick(w.net).0
  {
    hide Apply;
  }

  lemma {:induction false} DrainKeeps(space: Text, w: World, fuel: nat)
    requires Consistent(space, w)
    ensures var w' := Drain(w, fuel);
      && Consistent(space, w') && Grows(w, w')
      && w'.net.partitions == w.net.partitions && w'.net.maxQueueSize == w.net.maxQueueSize
      && w'.net.queue == w.net.queue[Min(fuel, |w.net.queue|)..]
    decreases fuel
  {
    hide Consistent, DeliverStep, Expected;
    if fuel > 0 && w.net.queue != [] {
      DeliverKeepsConsistent(space, w);
      DeliveryTicks(w);
      DrainKeeps(space, DeliverStep(w).0, fuel - 1);
    }
  }

  /** Delivering a replica's next transaction makes it longer. */
  lemma DeliverAdvances(space: Text, w: World, n: nat)
    requires Consistent(space, w) && w.net.queue != [] && n < |w.primary.log|
    requires w.net.queue[0].payload == EnvelopeAt(space, w.primary.log, n)
    ensures w.net.queue[0].to in w.replicas
    ensures |w.replicas[w.net.queue[0].to].store.log| == n ==>
      |DeliverStep(w).0.replicas[w.net.queue[0].to].store.log| > n
  {
    hide InSync, Shipped, UniqueIds, NonEmptyTxs, Shippable, Apply, EnvelopeOf, ReceiptAt, ShippedTx;
    var m := w.net.queue[0];
    assert Genuine(space, w, m);
    if |w.replicas[m.to].store.log| == n {
      ShippedIsShippable(w.primary.log);
      ShippedElement(w.primary.log, n);
      DeliverySound(space, Shipped(w.primary.log), w.replicas[m.to], n);
    }
  }

  /** Whatever stale messages surround it, a replica's next transaction gets through a drain that
      comes as far as its place in the queue. */
  lemma {:induction false} DrainAdvances(space: Text, w: World, fuel: nat, at: nat, m: Message<TxEnvelope>, n: nat)
    requires Consistent(space, w) && m.to in w.replicas && n < |w.primary.log|
    requires n <= |w.replicas[m.to].store.log|
    requires m.payload == EnvelopeAt(space, w.primary.log, n)
    requires (at < fuel && at < |w.net.queue| && w.net.queue[at] == m) || |w.replicas[m.to].store.log| > n
    ensures var w' := Drain(w, fuel); w'.replicas.Keys == w.replicas.Keys && |w'.replicas[m.to].store.log| > n
    decreases fuel
  {
    hide Consistent, EnvelopeAt, DeliverStep, Expected;
    if fuel > 0 && w.net.queue != [] {
      DeliverKeepsConsistent(space, w);
      DeliveryTicks(w);
      var w1 := DeliverStep(w).0;
      if w.net.queue[0] == m {
        DeliverAdvances(space, w, n);
      }
      assert w.replicas[m.to].store.log <= w1.replicas[m.to].store.log;
      DrainAdvances(space, w1, fuel - 1, if at > 0 then at - 1 else 0, m, n);
    }
  }

  // ---------------------------------------------------------------- one round

  /** The message a lagging replica needs next. */
  function NextFor(space: Text, w: World, id: Text): Message<TxEnvelope>
    requires id in w.replicas && Lag(w, id) > 0
  {
    Message(PRIMARY, id, EnvelopeAt(space, w.primary.log, |w.replicas[id].store.log|))
  }

  lemma NextMessageIs(space: Text, w: World, id: Text)
    requires Consistent(space, w) && id in w.replicas
    ensures NextMessage(space, w, id) == if Lag(w, id) > 0 then [NextFor(space, w, id)] else []
  {
    hide EnvelopeAt, ShippedTx;
    assert w.replicas[id].store.log <= Shipped(w.primary.log);
  }

  /** A round sends every lagging replica what it needs, and nothing else. */
  lemma {:induction false} RoundMessagesAre(space: Text, w: World, ids: seq<Text>)
    requires Consistent(space, w) && Known(w, ids)
    ensures var ms := RoundMessages(space, w, ids);
      && |ms| <= |ids|
      && (forall id | id in ids && Lag(w, id) > 0 :: NextFor(space, w, id) in ms)
      && (forall m | m in ms :: m.to in ids && Lag(w, m.to) > 0 && m == NextFor(space, w, m.to))
  {
    hide Consistent, NextMessage, NextFor, Lag;
    if ids != [] {
      var init, last := ids[..|ids| - 1], ids[|ids| - 1];
      assert Known(w, init);
      RoundMessagesAre(space, w, init);
      NextMessageIs(space, w, last);
      NextForGoesTo(space, w);
    }
  }

  lemma NextForGoesTo(space: Text, w: World)
    ensures forall id | id in w.replicas && Lag(w, id) > 0 :: NextFor(space, w, id).to == id
  {
  }

  /** Sending on a healed network queues everything in order; what overflows is dropped at the front,
      but never the last message sent. */
  lemma {:induction false} SendAllIsSuffix<T>(n: Net<T>, ms: seq<Message<T>>) returns (gone: nat)
    requires n.partitions == {}
    ensures var n' := SendAll(n, ms);
      && n'.partitions == {} && n'.maxQueueSize == n.maxQueueSize
      && gone <= |n.queue + ms| && n'.queue == (n.queue + ms)[gone..]
      && (ms != [] ==> gone < |n.queue + ms|)
  {
    gone := 0;
    if ms != [] {
      var init, m := ms[..|ms| - 1], ms[|ms| - 1];
      gone := SendAllIsSuffix(n, init);
      var n1 := SendAll(n, init);
      assert n.queue + ms == n.queue + init + [m];
      if n1.maxQueueSize.Some? && |n1.queue| >= n1.maxQueueSize.value && n1.queue != [] {
        gone := gone + 1;
      }
    }
  }

  /** Room in the queue for one message to each replica. */
  predicate Roomy(w: World, ids: seq<Text>) {
    w.net.maxQueueSize.None? || w.net.maxQueueSize.value >= |ids|
  }

  /** The world once a round has sent its messages. */
  lemma SentRound(space: Text, w: World, ids: seq<Text>) returns (sent: World)
    requires Consistent(space, w) && Known(w, ids) && w.net.partitions == {}
    ensures Consistent(space, sent) && Grows(w, sent) && sent.replicas == w.replicas
    ensures Round(space, w, ids) == Drain(sent, MAX_DELIVERIES) && |sent.net.queue| <= |w.net.queue| + |ids|
    ensures sent.net.partitions == {} && sent.net.maxQueueSize == w.net.maxQueueSize
    ensures sent.net == SendAll(w.net, RoundMessages(space, w, ids))
    ensures Roomy(w, ids) ==> forall id | id in ids && Lag(w, id) > 0 :: NextFor(space, w, id) in sent.net.queue
    ensures (exists id | id in ids :: Lag(w, id) > 0) ==>
      exists id | id in ids && Lag(w, id) > 0 :: NextFor(space, w, id) in sent.net.queue
  {
    hide Consistent, NextFor, Lag, Drain, Genuine;
    var ms := RoundMessages(space, w, ids);
    RoundMessagesAre(space, w, ids);
    MessagesAreGenuine(space, w, ids);
    var gone := SendAllIsSuffix(w.net, ms);
    SendAllMembers(w.net, ms);
    sent := w.(net := SendAll(w.net, ms));
    QueueChange(space, w, sent.net);
    if Roomy(w, ids) {
      SentStays(w.net, ms);
      var q := sent.net.queue;
      forall m | m in ms ensures m in q {
        assert m in q[|q| - |ms|..];
      }
    }
    if id :| id in ids && Lag(w, id) > 0 {
      assert NextFor(space, w, id) in ms;
      var last := ms[|ms| - 1];
      assert (w.net.queue + ms)[gone..][|w.net.queue + ms| - gone - 1] == last;
      assert last in ms && last.to in ids && Lag(w, last.to) > 0 && NextFor(space, w, last.to) in sent.net.queue;
    }
  }

  lemma MessagesAreGenuine(space: Text, w: World, ids: seq<Text>)
    requires Consistent(space, w) && Known(w, ids)
    ensures forall m | m in RoundMessages(space, w, ids) :: Genuine(space, w, m)
  {
    hide Consistent, EnvelopeAt;
    RoundMessagesAre(space, w, ids);
  }

  lemma NextGetsThrough(space: Text, w: World, sent: World, id: Text)
    requires Consistent(space, sent) && sent.replicas == w.replicas && sent.primary == w.primary
    requires id in w.replicas && Lag(w, id) > 0 && NextFor(space, w, id) in sent.net.queue
    requires |sent.net.queue| <= MAX_DELIVERIES
    ensures var w' := Drain(sent, MAX_DELIVERIES);
      id in w'.replicas && w'.primary == w.primary && Lag(w', id) < Lag(w, id)
  {
    hide Consistent, Drain, EnvelopeAt;
    var at :| 0 <= at < |sent.net.queue| && sent.net.queue[at] == NextFor(space, w, id);
    DrainKeeps(space, sent, MAX_DELIVERIES);
    DrainAdvances(space, sent, MAX_DELIVERIES, at, NextFor(space, w, id), |w.replicas[id].store.log|);
  }

  /** One round delivers everything queued and sent. */
  predicate Fits(w: World, ids: seq<Text>) {
    |w.net.queue| + |ids| <= 200
  }

  /** After healing, whatever stale messages are queued: a round keeps the system consistent and
      moves no replica back.  If everything fits, it empties the network, brings every lagging
      replica closer when there is room to queue one message each, and at least one whatever the
      bound; otherwise it delivers what it can of the backlog. */
  lemma RoundAdvances(space: Text, w: World, ids: seq<Text>)
    requires Consistent(space, w) && Known(w, ids) && w.net.partitions == {}
    ensures var w' := Round(space, w, ids);
      && Consistent(space, w') && Grows(w, w') && Known(w', ids)
      && w'.net.partitions == {} && w'.net.maxQueueSize == w.net.maxQueueSize
      && (if Fits(w, ids) then w'.net.queue == [] else |w'.net.queue| <= |w.net.queue| + |ids| - 200)
      && (Fits(w, ids) && Roomy(w, ids) ==> forall id | id in ids && Lag(w, id) > 0 :: Lag(w', id) < Lag(w, id))
      && (Fits(w, ids) && (exists id | id in ids :: Lag(w, id) > 0) ==>
        exists id | id in ids :: Lag(w', id) < Lag(w, id))
  {
    hide Consistent, Drain;
    var sent := SentRound(space, w, ids);
    DrainKeeps(space, sent, MAX_DELIVERIES);
    var w' := Round(space, w, ids);
    if Fits(w, ids) {
      forall id | id in ids && Lag(w, id) > 0 && NextFor(space, w, id) in sent.net.queue
        ensures Lag(w', id) < Lag(w, id)
      {
        NextGetsThrough(space, w, sent, id);
      }
    }
  }

  // ---------------------------------------------------------------- convergence

  lemma ConvergedIsCaughtUp(space: Text, w: World, ids: seq<Text>)
    requires Consistent(space, w) && Known(w, ids)
    requires Converged(w, ids) || forall id | id in ids :: Lag(w, id) == 0
    ensures forall id | id in ids :: w.replicas[id].store.log == Shipped(w.primary.log)
  {
    hide Consistent, IdSet, Lag, Shipped;
    forall id | id in ids ensures w.replicas[id].store.log == Shipped(w.primary.log) {
      CaughtUp(space, w, id);
    }
  }

  /** Rounds until everything fits, when each round sends up to n messages. */
  function Backlog(queued: nat, n: nat): nat
    requires n < MAX_DELIVERIES || queued + n <= MAX_DELIVERIES
    decreases queued
  {
    if queued + n <= MAX_DELIVERIES then 0 else 1 + Backlog(queued + n - MAX_DELIVERIES, n)
  }

  lemma {:induction false} BacklogMonotone(fewer: nat, queued: nat, n: nat)
    requires fewer <= queued && (n < MAX_DELIVERIES || queued + n <= MAX_DELIVERIES)
    ensures Backlog(fewer, n) <= Backlog(queued, n)
    decreases queued
  {
    if fewer + n > MAX_DELIVERIES {
      BacklogMonotone(fewer + n - MAX_DELIVERIES, queued + n - MAX_DELIVERIES, n);
    }
  }

  /** Once healed, flushing leaves every replica with all the primary ships.  It takes the rounds
      that clear the backlog of stale messages, and then as many as the furthest replica is behind
      when the queue has room, or as all of them are behind together for any queue bound. */
  lemma {:induction false} FlushConvergesSoon(space: Text, w: World, ids: seq<Text>, rounds: nat)
    requires Consistent(space, w) && Known(w, ids) && w.net.partitions == {} && (|ids| < MAX_DELIVERIES || Fits(w, ids))
    requires var clearing := Backlog(|w.net.queue|, |ids|);
      || clearing + TotalLag(w, ids) <= rounds
      || (Roomy(w, ids) && clearing <= rounds && forall id | id in ids :: clearing + Lag(w, id) <= rounds)
    ensures var w' := Flush(space, w, ids, rounds);
      && Consistent(space, w') && Grows(w, w')
      && forall id | id in ids :: w'.replicas[id].store.log == Shipped(w.primary.log)
    decreases rounds
  {
    hide Consistent, Round, Lag, Shipped, IdSet, TotalLag;
    forall id | id in ids ensures Lag(w, id) >= 0 { LagIsNat(space, w, id); }
    TotalLagZero(space, w, ids);
    if rounds == 0 {
      ConvergedIsCaughtUp(space, w, ids);
    } else {
      RoundAdvances(space, w, ids);
      var w' := Round(space, w, ids);
      if Converged(w', ids) {
        ConvergedIsCaughtUp(space, w', ids);
      } else {
        TotalLagShrinks(w, w', ids);
        forall id | id in ids ensures Lag(w', id) >= 0 { LagIsNat(space, w', id); }
        TotalLagZero(space, w', ids);
        if !Fits(w, ids) {
          BacklogMonotone(|w'.net.queue|, |w.net.queue| + |ids| - MAX_DELIVERIES, |ids|);
        }
        FlushConvergesSoon(space, w', ids, rounds - 1);
      }
    }
  }

  // ---------------------------------------------------------------- any number of replicas

  /** A message that is what its replica needs next. */
  predicate Wanted(space: Text, w: World, ids: seq<Text>, m: Message<TxEnvelope>) {
    m.to in ids && m.to in w.replicas && Lag(w, m.to) > 0 && m == NextFor(space, w, m.to)
  }

  /** Only the first `stale` queued messages may be other than wanted. */
  predicate WantedFrom(space: Text, w: World, ids: seq<Text>, stale: nat) {
    forall i | stale <= i < |w.net.queue| :: Wanted(space, w, ids, w.net.queue[i])
  }

  ghost predicate SomeCloser(w: World, w': World, ids: seq<Text>)
    requires Known(w, ids) && Known(w', ids)
  {
    exists id | id in ids :: Lag(w', id) < Lag(w, id)
  }

  /** Once a round has sent its messages, whatever lies behind the stale ones is wanted, and so is the
      last message queued. */
  lemma SentAreWanted(space: Text, w: World, ids: seq<Text>, stale: nat, net: Net<TxEnvelope>)
    requires Consistent(space, w) && Known(w, ids) && w.net.partitions == {} && WantedFrom(space, w, ids, stale)
    requires (exists id | id in ids :: Lag(w, id) > 0) && net == SendAll(w.net, RoundMessages(space, w, ids))
    ensures net.queue != [] && Wanted(space, w, ids, net.queue[|net.queue| - 1])
    ensures forall j | stale <= j < |net.queue| :: Wanted(space, w, ids, net.queue[j])
  {
    hide Consistent, NextFor, Lag, SendAll;
    var ms := RoundMessages(space, w, ids);
    RoundMessagesAre(space, w, ids);
    var gone := SendAllIsSuffix(w.net, ms);
    var id :| id in ids && Lag(w, id) > 0;
    assert NextFor(space, w, id) in ms;
    assert ms[|ms| - 1] in ms && net.queue[|net.queue| - 1] == ms[|ms| - 1];
    forall j | stale <= j < |net.queue| ensures Wanted(space, w, ids, net.queue[j]) {
      assert net.queue[j] == (w.net.queue + ms)[j + gone];
      if j + gone >= |w.net.queue| {
        assert net.queue[j] in ms;
      }
    }
  }

  /** While anyone is behind, a round brings some replica closer or works off 200 stale messages,
      leaving only wanted ones behind them. */
  lemma RoundWorks(space: Text, w: World, ids: seq<Text>, stale: nat)
    requires Consistent(space, w) && Known(w, ids) && w.net.partitions == {} && WantedFrom(space, w, ids, stale)
    requires exists id | id in ids :: Lag(w, id) > 0
    ensures var w' := Round(space, w, ids);
      && Known(w', ids) && |w'.net.queue| <= |w.net.queue| + |ids|
      && (SomeCloser(w, w', ids) || (stale >= 200 && WantedFrom(space, w', ids, stale - 200)))
  {
    hide Consistent, Drain, Wanted, SendAll, Lag, NextFor, RoundMessages;
    var sent := SentRound(space, w, ids);
    SentAreWanted(space, w, ids, stale, sent.net);
    DrainKeeps(space, sent, MAX_DELIVERIES);
    var w', queue := Round(space, w, ids), sent.net.queue;
    if stale < MAX_DELIVERIES {
      WantedGetsThrough(space, w, sent, ids, if |queue| > stale then stale else |queue| - 1);
    } else if !SomeCloser(w, w', ids) {
      NothingCloser(w, w', ids);
      forall i | stale - MAX_DELIVERIES <= i < |w'.net.queue| ensures Wanted(space, w', ids, w'.net.queue[i]) {
        assert w'.net.queue[i] == queue[i + MAX_DELIVERIES];
        StillWanted(space, w, w', ids, w'.net.queue[i]);
      }
    }
  }

  lemma WantedGetsThrough(space: Text, w: World, sent: World, ids: seq<Text>, at: nat)
    requires Consistent(space, sent) && Known(w, ids) && sent.replicas == w.replicas && sent.primary == w.primary
    requires at < MAX_DELIVERIES && at < |sent.net.queue| && Wanted(space, w, ids, sent.net.queue[at])
    ensures var w' := Drain(sent, MAX_DELIVERIES);
      w'.replicas.Keys == w.replicas.Keys && w'.primary == w.primary && SomeCloser(w, w', ids)
  {
    hide Consistent, Drain, EnvelopeAt;
    var m := sent.net.queue[at];
    DrainKeeps(space, sent, MAX_DELIVERIES);
    DrainAdvances(space, sent, MAX_DELIVERIES, at, m, |w.replicas[m.to].store.log|);
    assert Lag(Drain(sent, MAX_DELIVERIES), m.to) < Lag(w, m.to);
  }

  lemma NothingCloser(w: World, w': World, ids: seq<Text>)
    requires Known(w, ids) && Grows(w, w') && Known(w', ids) && !SomeCloser(w, w', ids)
    ensures forall id | id in ids :: |w'.replicas[id].store.log| == |w.replicas[id].store.log|
  {
    forall id | id in ids ensures |w'.replicas[id].store.log| == |w.replicas[id].store.log| {
      assert w.replicas[id].store.log <= w'.replicas[id].store.log;
      assert !(Lag(w', id) < Lag(w, id));
    }
  }

  lemma StillWanted(space: Text, w: World, w': World, ids: seq<Text>, m: Message<TxEnvelope>)
    requires Wanted(space, w, ids, m) && w'.primary == w.primary && w'.replicas.Keys == w.replicas.Keys
    requires m.to in w.replicas && m.to in ids ==> |w'.replicas[m.to].store.log| == |w.replicas[m.to].store.log|
    ensures Wanted(space, w', ids, m)
  {
  }

  /** Rounds enough to catch up from a total lag, with `queued` messages of which the first `stale`
      may be stale, when each round sends up to n more. */
  function RoundsEnough(stale: nat, queued: nat, n: nat, lag: int): nat
    decreases lag, stale
  {
    if lag <= 0 then 0
    else if stale < MAX_DELIVERIES then 1 + RoundsEnough(queued + n, queued + n, n, lag - 1)
    else 1 + RoundsEnough(stale - MAX_DELIVERIES, queued + n, n, lag)
  }

  lemma {:induction false} LessIsEnough(stale: nat, queued: nat, lag: int, stale': nat, queued': nat, lag': int, n: nat)
    requires stale <= queued <= queued' && (lag < lag' || (lag == lag' && stale <= stale'))
    ensures RoundsEnough(stale, queued, n, lag) <= RoundsEnough(stale', queued', n, lag')
    decreases lag', stale', stale
  {
    if lag <= 0 {
      return;
    }
    if lag == lag' && stale >= MAX_DELIVERIES {
      LessIsEnough(stale - MAX_DELIVERIES, queued + n, lag, stale' - MAX_DELIVERIES, queued' + n, lag', n);
    } else if lag == lag' {
      if stale' < MAX_DELIVERIES {
        LessIsEnough(queued + n, queued + n, lag - 1, queued' + n, queued' + n, lag' - 1, n);
      } else {
        LessIsEnough(queued + n, queued + n, lag - 1, stale' - MAX_DELIVERIES, queued' + n, lag', n);
      }
    } else if stale' < MAX_DELIVERIES {
      LessIsEnough(stale, queued, lag, queued' + n, queued' + n, lag' - 1, n);
    } else {
      LessIsEnough(stale, queued, lag, stale' - MAX_DELIVERIES, queued' + n, lag', n);
    }
  }

  lemma EnoughIsNone(stale: nat, queued: nat, n: nat, lag: int)
    ensures RoundsEnough(stale, queued, n, lag) == 0 <==> lag <= 0
  {
  }

  /** A round that brought someone closer was one of those counted. */
  lemma LessAfterAdvance(stale: nat, queued: nat, lag: int, queued': nat, lag': int, n: nat)
    requires lag > 0 && lag' < lag && queued' <= queued + n
    ensures RoundsEnough(queued', queued', n, lag') < RoundsEnough(stale, queued, n, lag)
  {
    if stale < MAX_DELIVERIES {
      LessIsEnough(queued', queued', lag', queued + n, queued + n, lag - 1, n);
    } else {
      LessIsEnough(queued', queued', lag', stale - MAX_DELIVERIES, queued + n, lag, n);
    }
  }

  /** So was one that worked off stale messages. */
  lemma LessAfterWork(stale: nat, queued: nat, lag: int, queued': nat, lag': int, n: nat)
    requires lag > 0 && lag' <= lag && queued' <= queued + n && stale >= MAX_DELIVERIES
    ensures RoundsEnough(Min(stale - MAX_DELIVERIES, queued'), queued', n, lag') < RoundsEnough(stale, queued, n, lag)
  {
    LessIsEnough(Min(stale - MAX_DELIVERIES, queued'), queued', lag', stale - MAX_DELIVERIES, queued + n, lag, n);
  }

  /** The rounds still needed at a world whose first `stale` queued messages may be stale. */
  function StillNeeded(w: World, ids: seq<Text>, stale: nat): nat
    requires Known(w, ids)
  {
    RoundsEnough(stale, |w.net.queue|, |ids|, TotalLag(w, ids))
  }

  lemma RoundCounts(space: Text, w: World, ids: seq<Text>, stale: nat) returns (stale': nat)
    requires Consistent(space, w) && Known(w, ids) && w.net.partitions == {} && WantedFrom(space, w, ids, stale)
    ensures var w' := Round(space, w, ids);
      && Consistent(space, w') && Grows(w, w') && Known(w', ids) && w'.net.partitions == {}
      && WantedFrom(space, w', ids, stale') && stale' <= |w'.net.queue|
      && (StillNeeded(w', ids, stale') == 0 || StillNeeded(w', ids, stale') < StillNeeded(w, ids, stale))
  {
    hide Consistent, Round, Lag, TotalLag, Wanted, RoundsEnough;
    RoundAdvances(space, w, ids);
    var w' := Round(space, w, ids);
    TotalLagShrinks(w, w', ids);
    TotalLagZero(space, w, ids);
    var lag, lag', n, q' := TotalLag(w, ids), TotalLag(w', ids), |ids|, |w'.net.queue|;
    stale' := q';
    if lag == 0 {
      EnoughIsNone(q', q', n, lag');
      return;
    }
    forall id | id in ids ensures Lag(w, id) >= 0 { LagIsNat(space, w, id); }
    RoundWorks(space, w, ids, stale);
    if SomeCloser(w, w', ids) {
      LessAfterAdvance(stale, |w.net.queue|, lag, q', lag', n);
    } else {
      stale' := Min(stale - MAX_DELIVERIES, q');
      LessAfterWork(stale, |w.net.queue|, lag, q', lag', n);
    }
  }

  lemma {:induction false} FlushWorks(space: Text, w: World, ids: seq<Text>, stale: nat, rounds: nat)
    requires Consistent(space, w) && Known(w, ids) && w.net.partitions == {} && WantedFrom(space, w, ids, stale)
    requires StillNeeded(w, ids, stale) <= rounds
    ensures var w' := Flush(space, w, ids, rounds);
      && Consistent(space, w') && Grows(w, w')
      && forall id | id in ids :: w'.replicas[id].store.log == Shipped(w.primary.log)
    decreases rounds
  {
    hide Consistent, Round, Lag, Shipped, IdSet, TotalLag, WantedFrom, RoundsEnough;
    if rounds == 0 {
      EnoughIsNone(stale, |w.net.queue|, |ids|, TotalLag(w, ids));
      TotalLagZero(space, w, ids);
      ConvergedIsCaughtUp(space, w, ids);
    } else {
      var stale' := RoundCounts(space, w, ids, stale);
      var w' := Round(space, w, ids);
      if Converged(w', ids) {
        ConvergedIsCaughtUp(space, w', ids);
      } else {
        FlushWorks(space, w', ids, stale', rounds - 1);
      }
    }
  }

  /** Once healed, flushing leaves every replica with all the primary ships, however many replicas
      there are, whatever is queued and whatever the queue bound. */
  lemma FlushConverges(space: Text, w: World, ids: seq<Text>, rounds: nat)
    requires Consistent(space, w) && Known(w, ids) && w.net.partitions == {}
    requires StillNeeded(w, ids, |w.net.queue|) <= rounds
    ensures var w' := Flush(space, w, ids, rounds);
      && Consistent(space, w') && Grows(w, w')
      && forall id | id in ids :: w'.replicas[id].store.log == Shipped(w.primary.log)
  {
    hide Consistent, Lag, Shipped, TotalLag, RoundsEnough;
    FlushWorks(space, w, ids, |w.net.queue|, rounds);
  }
}
