/** The production replicator: pull one principal's visible log, apply, save a checkpoint, with
    crashes allowed between any two of these. */
module PassiveReplicaSpec {
  import opened Texts
  import opened Json
  import opened Canonical
  import opened EventLog
  import opened StoreSpec
  import opened Visibility
  import opened Digest
  import opened Shipping

  datatype ReplicatedTxBundle = ReplicatedTxBundle(
    graphSpaceId: Text, principalId: Text, principalCursor: nat, txBundle: TxBundle, ctx: IdempotencyCtx,
    canonicalHash: Text)

  const REPLICA_PREFIX: Text := Lit("replica:")

  function ReplicaSlot(space: Text, txId: Text): Slot {
    Slot(REPLICATOR, REPLICA_PREFIX + space + Lit(":") + txId)
  }

  function Replicated(space: Text, principal: Text, b: TxBundle, rank: nat): ReplicatedTxBundle {
    ReplicatedTxBundle(space, principal, rank, b,
      IdempotencyCtx(REPLICATOR, ReplicaSlot(space, b.txId).key, BundleHash(b), None), CanonicalHash(space, b))
  }

  /** What a replicated bundle carries besides the transaction. */
  lemma ReplicatedContextIs(space: Text, principal: Text, b: TxBundle, rank: nat)
    ensures var r := Replicated(space, principal, b, rank);
      && r.graphSpaceId == space && r.principalId == principal && r.principalCursor == rank && r.txBundle == b
      && r.ctx == IdempotencyCtx(Lit("replicator"), Lit("replica:") + space + Lit(":") + b.txId, BundleText(b), None)
      && r.canonicalHash == CanonicalHash(space, b)
  {
  }

  /** `pull`: a window of the visible log `v` after a cursor. */
  function PullBundles(space: Text, principal: Text, v: Log, from: nat, limit: nat): (r: seq<ReplicatedTxBundle>)
    ensures |r| == |Window(v, from, limit)|
  {
    var page := Window(v, from, limit);
    seq(|page|, i requires 0 <= i < |page| => Replicated(space, principal, page[i], from + i + 1))
  }

  lemma PullBundlesAre(space: Text, principal: Text, v: Log, from: nat, limit: nat)
    requires from <= |v|
    ensures var r := PullBundles(space, principal, v, from, limit);
      && |r| == Min(limit, |v| - from)
      && forall i | 0 <= i < |r| :: r[i] == Replicated(space, principal, v[from + i], from + i + 1)
  {
    hide Replicated;
  }

  lemma PullRanks(space: Text, principal: Text, v: Log, from: nat, limit: nat)
    ensures forall i | 0 <= i < |PullBundles(space, principal, v, from, limit)| ::
      PullBundles(space, principal, v, from, limit)[i].principalCursor == from + i + 1
  {
    hide CanonicalHash, BundleHash, ReplicaSlot;
  }

  /** `apply`: what the sink store does with one replicated bundle. */
  function SinkApply(sink: Store, rb: ReplicatedTxBundle): (Store, Outcome) {
    var txId := rb.txBundle.txId;
    if CanonicalHash(rb.graphSpaceId, rb.txBundle) != rb.canonicalHash then (sink, Failed(DivergenceDetected))
    else
      var existing := ReadTxOf(sink.log, txId);
      if existing.None? then Append(sink, rb.txBundle, rb.ctx, None)
      else if CanonicalHash(rb.graphSpaceId, BundleOf(existing.value)) != rb.canonicalHash
        then (sink, Failed(DivergenceDetected))
      else (sink, StableReceipt(sink.log, txId))
  }

  /** The sink store and the saved checkpoint. */
  datatype Sync = Sync(sink: Store, checkpoint: nat)

  /** A crash while handling bundle `at` of a pull: before it is applied, or after, unsaved. */
  datatype Crash = Crash(at: nat, applied: bool)

  /** The loop of `replicateOnce` from bundle i on: the state and how many were applied and saved. */
  function ApplyFrom(y: Sync, bundles: seq<ReplicatedTxBundle>, i: nat, crash: Option<Crash>): (r: (Sync, nat))
    requires i <= |bundles|
    ensures i <= r.1 <= |bundles|
    decreases |bundles| - i
  {
    if i == |bundles| || crash == Some(Crash(i, false)) then (y, i)
    else
      var (sink, o) := SinkApply(y.sink, bundles[i]);
      if crash == Some(Crash(i, true)) || !o.Committed? then (y.(sink := sink), i)
      else ApplyFrom(Sync(sink, bundles[i].principalCursor), bundles, i + 1, crash)
  }

  /** `replicateOnce` against the visible log `v`. */
  function Once(space: Text, principal: Text, v: Log, y: Sync, limit: nat, crash: Option<Crash>): (Sync, nat) {
    ApplyFrom(y, PullBundles(space, principal, v, y.checkpoint, limit), 0, crash)
  }

  /** `replicateUntilCaughtUp`, each round against the visible log as its pull finds it: the state,
      the transactions applied in all, and the rounds made. */
  function UntilCaughtUp(space: Text, principal: Text, views: seq<Log>, y: Sync, limit: nat): (r: (Sync, nat, nat))
    ensures r.2 <= |views|
    decreases |views|
  {
    if views == [] then (y, 0, 0)
    else
      var (y1, applied) := Once(space, principal, views[0], y, limit, None);
      if applied == 0 then (y1, 0, 1)
      else
        var (end, more, rounds) := UntilCaughtUp(space, principal, views[1..], y1, limit);
        (end, applied + more, rounds + 1)
  }

  // ---------------------------------------------------------------- the invariant

  /** The sink holds a prefix of the visible log and the checkpoint is at its end or one behind. */
  ghost predicate Following(space: Text, v: Log, y: Sync) {
    var m := |y.sink.log|;
    && UniqueIds(v) && NonEmptyTxs(v)
    && y.sink.log <= v
    && y.checkpoint <= m <= y.checkpoint + 1
    && forall slot | slot in y.sink.idempotency :: exists k | 0 <= k < m :: slot == ReplicaSlot(space, v[k].txId)
  }

  /** The transaction after the checkpoint is already applied and does not read back exactly. */
  predicate Stuck(v: Log, y: Sync) {
    y.checkpoint < |y.sink.log| && y.checkpoint < |v| && !ExactAt(v, y.checkpoint)
  }

  lemma StartFollows(space: Text, v: Log)
    requires UniqueIds(v) && NonEmptyTxs(v)
    ensures Following(space, v, Sync(EmptyStore, 0)) && !Stuck(v, Sync(EmptyStore, 0))
  {
  }

  lemma ReplicaSlotsDiffer(space: Text, a: Text, b: Text)
    requires ReplicaSlot(space, a) == ReplicaSlot(space, b)
    ensures a == b
  {
    var p := REPLICA_PREFIX + space + Lit(":");
    assert (p + a)[|p|..] == a && (p + b)[|p|..] == b;
  }

  lemma ReplicaSlotMeansHas(space: Text, v: Log, y: Sync, txId: Text)
    requires Following(space, v, y) && ReplicaSlot(space, txId) in y.sink.idempotency
    ensures HasTx(y.sink.log, txId)
  {
    hide ReplicaSlot;
    var k :| 0 <= k < |y.sink.log| && ReplicaSlot(space, txId) == ReplicaSlot(space, v[k].txId);
    ReplicaSlotsDiffer(space, txId, v[k].txId);
    assert y.sink.log[k] in y.sink.log;
  }

  /** A transaction the sink does not have is appended, with its own receipt. */
  lemma ApplyNew(space: Text, principal: Text, v: Log, y: Sync)
    requires Following(space, v, y) && y.checkpoint == |y.sink.log| < |v|
    ensures var k := y.checkpoint;
      var (sink, o) := SinkApply(y.sink, Replicated(space, principal, v[k], k + 1));
      && o == Committed(ReceiptAt(v, k)) && sink.log == v[..k + 1]
      && Following(space, v, Sync(sink, k)) && Following(space, v, Sync(sink, k + 1))
  {
    hide CanonicalHash, BundleHash, Events, IndexOf, LastEntries, ReceiptFor, UniqueIds, HasTx;
    var k, b := y.checkpoint, v[y.checkpoint];
    assert y.sink.log == v[..k] && b in v;
    NotYetThere(v, k);
    ReadTxMisses(y.sink.log, b.txId);
    if ReplicaSlot(space, b.txId) in y.sink.idempotency {
      ReplicaSlotMeansHas(space, v, y, b.txId);
    }
    var sink := SinkApply(y.sink, Replicated(space, principal, b, k + 1)).0;
    assert sink.log == v[..k + 1];
    forall slot | slot in sink.idempotency ensures exists i | 0 <= i < k + 1 :: slot == ReplicaSlot(space, v[i].txId) {
      if slot != ReplicaSlot(space, b.txId) {
        assert slot in y.sink.idempotency;
      }
    }
  }

  lemma NotYetThere(v: Log, n: nat)
    requires UniqueIds(v) && n < |v|
    ensures !HasTx(v[..n], v[n].txId)
  {
  }

  /** Delivered again after a crash, a transaction is accepted, with the receipt of its first
      application, exactly when the sink reads it back exactly; otherwise it is reported as a
      divergence.  The sink does not change either way. */
  lemma RedeliveryIff(space: Text, principal: Text, v: Log, y: Sync)
    requires Following(space, v, y) && y.checkpoint < |y.sink.log|
    ensures var k := y.checkpoint;
      SinkApply(y.sink, Replicated(space, principal, v[k], k + 1)) ==
        (y.sink, if ExactAt(v, k) then Committed(ReceiptAt(v, k)) else Failed(DivergenceDetected))
  {
    hide CanonicalHash, BundleHash, Events, IndexOf, LastEntries, ReceiptFor, UniqueIds, StableReceipt, SameBundle,
      ReadTxFrom;
    var k, log := y.checkpoint, y.sink.log;
    assert log == v[..|log|] && log[..k] == v[..k];
    PrefixUnique(v, |log|);
    ReadTxFinds(log, k);
    HashesAgree(space, BundleOf(StoredTxAt(log, k)), space, v[k]);
    SameAsStored(log, k);
    if ExactAt(log, k) {
      StableReceiptIsOriginal(log, k);
    }
  }

  lemma PrefixUnique(v: Log, n: nat)
    requires UniqueIds(v) && n <= |v|
    ensures UniqueIds(v[..n])
  {
  }

  /** What is read back is the same up to canonical form only when it is the very same. */
  lemma SameAsStored(log: Log, k: nat)
    requires k < |log|
    ensures SameBundle(BundleOf(StoredTxAt(log, k)), log[k]) <==> ExactAt(log, k)
  {
    hide Essence;
    ReadTxExactIff(log, k);
    StoredPartIs(log, k, Meta);
    StoredPartIs(log, k, Graph);
  }

  // ---------------------------------------------------------------- rounds

  /** From any point of a pull, with or without a crash: the invariant holds, the checkpoint and
      the sink never go back, and without a crash either everything pulled is applied and saved or
      the very first bundle is one the sink already has but cannot read back exactly. */
  lemma {:induction false} ApplyFromSafe(space: Text, principal: Text, v: Log, y: Sync, from: nat, limit: nat, i: nat,
      crash: Option<Crash>)
    requires Following(space, v, y) && from <= |v| && i <= |PullBundles(space, principal, v, from, limit)|
      && y.checkpoint == from + i
    ensures var bundles := PullBundles(space, principal, v, from, limit);
      var (y', n) := ApplyFrom(y, bundles, i, crash);
      && Following(space, v, y') && y'.checkpoint == from + n && y.sink.log <= y'.sink.log
      && (Stuck(v, y) ==> y' == y && n == i)
      && (crash.None? && !Stuck(v, y) ==>
            n == |bundles| && (n > i ==> |y'.sink.log| == y'.checkpoint) && (n == i ==> y' == y))
    decreases |PullBundles(space, principal, v, from, limit)| - i
  {
    hide SinkApply, Following, Replicated, PullBundles, ExactPart, ReceiptAt;
    var bundles := PullBundles(space, principal, v, from, limit);
    FollowingBounds(space, v, y);
    PullBundlesAre(space, principal, v, from, limit);
    if i < |bundles| && crash != Some(Crash(i, false)) {
      var (sink, o) := SinkApply(y.sink, bundles[i]);
      assert bundles[i] == Replicated(space, principal, v[from + i], from + i + 1);
      ReplicatedRank(space, principal, v[from + i], from + i + 1);
      if |y.sink.log| == y.checkpoint {
        ApplyNew(space, principal, v, y);
        FollowingBounds(space, v, Sync(sink, from + i));
      } else {
        RedeliveryIff(space, principal, v, y);
        SaveFollows(space, v, y);
      }
      if crash != Some(Crash(i, true)) && o.Committed? {
        ApplyFromSafe(space, principal, v, Sync(sink, from + i + 1), from, limit, i + 1, crash);
      }
    }
  }

  lemma FollowingBounds(space: Text, v: Log, y: Sync)
    requires Following(space, v, y)
    ensures y.sink.log <= v && y.checkpoint <= |y.sink.log| <= y.checkpoint + 1
  {
  }

  lemma SaveFollows(space: Text, v: Log, y: Sync)
    requires Following(space, v, y) && y.checkpoint < |y.sink.log|
    ensures Following(space, v, Sync(y.sink, y.checkpoint + 1))
  {
  }

  lemma ReplicatedRank(space: Text, principal: Text, b: TxBundle, rank: nat)
    ensures Replicated(space, principal, b, rank).principalCursor == rank
  {
  }

  /** One round against a visible log that may have grown since the last, wherever it crashes: the
      sink stays a duplicate-free prefix of the visible log with the checkpoint at most one behind
      it, and neither ever goes back. */
  lemma OnceSafe(space: Text, principal: Text, v: Log, y: Sync, limit: nat, crash: Option<Crash>)
    requires Following(space, v, y)
    ensures var (y', n) := Once(space, principal, v, y, limit, crash);
      && Following(space, v, y') && y'.checkpoint == y.checkpoint + n && y.sink.log <= y'.sink.log
      && (Stuck(v, y) ==> y' == y && n == 0)
      && (crash.None? && !Stuck(v, y) ==>
            && n == Min(limit, |v| - y.checkpoint)
            && (if n > 0 then |y'.sink.log| == y'.checkpoint else y' == y))
  {
    hide Following, Stuck, ApplyFrom, SinkApply, PullBundles;
    FollowingBounds(space, v, y);
    PullBundlesAre(space, principal, v, y.checkpoint, limit);
    ApplyFromSafe(space, principal, v, y, y.checkpoint, limit, 0, crash);
  }

  lemma GrowthFollows(space: Text, v: Log, w: Log, y: Sync)
    requires Following(space, v, y) && v <= w && UniqueIds(w) && NonEmptyTxs(w)
    ensures Following(space, w, y)
    ensures y.checkpoint < |y.sink.log| ==> Stuck(w, y) == Stuck(v, y)
  {
    hide ReplicaSlot;
    forall slot | slot in y.sink.idempotency
      ensures exists k | 0 <= k < |y.sink.log| :: slot == ReplicaSlot(space, w[k].txId)
    {
      var k :| 0 <= k < |y.sink.log| && slot == ReplicaSlot(space, v[k].txId);
      assert w[k] == v[k];
    }
    if y.checkpoint < |y.sink.log| {
      assert v[..y.checkpoint] == w[..y.checkpoint];
    }
  }

  /** One round of a run: the visible log it pulls from, its limit, and where it crashes. */
  datatype RoundOf = RoundOf(v: Log, limit: nat, crash: Option<Crash>)

  ghost predicate GrowingRounds(v: Log, rounds: seq<RoundOf>)
    decreases |rounds|
  {
    rounds == [] ||
    (v <= rounds[0].v && UniqueIds(rounds[0].v) && NonEmptyTxs(rounds[0].v) && GrowingRounds(rounds[0].v, rounds[1..]))
  }

  function Rounds(space: Text, principal: Text, y: Sync, rounds: seq<RoundOf>): Sync
    decreases |rounds|
  {
    if rounds == [] then y
    else Rounds(space, principal, Once(space, principal, rounds[0].v, y, rounds[0].limit, rounds[0].crash).0,
      rounds[1..])
  }

  function LastView(v: Log, rounds: seq<RoundOf>): Log {
    if rounds == [] then v else rounds[|rounds| - 1].v
  }

  /** Every run of rounds and crashes over a growing source keeps the invariant; one that is ever
      stuck stays as it is for good. */
  lemma {:induction false} RunFollows(space: Text, principal: Text, v: Log, y: Sync, rounds: seq<RoundOf>)
    requires Following(space, v, y) && GrowingRounds(v, rounds)
    ensures var y' := Rounds(space, principal, y, rounds);
      && Following(space, LastView(v, rounds), y') && y.checkpoint <= y'.checkpoint && y.sink.log <= y'.sink.log
      && (Stuck(v, y) ==> y' == y)
    decreases |rounds|
  {
    hide Following, Once, ExactAt, UniqueIds, NonEmptyTxs;
    if rounds != [] {
      FollowingBounds(space, v, y);
      GrowthFollows(space, v, rounds[0].v, y);
      OnceSafe(space, principal, rounds[0].v, y, rounds[0].limit, rounds[0].crash);
      RunFollows(space, principal, rounds[0].v,
        Once(space, principal, rounds[0].v, y, rounds[0].limit, rounds[0].crash).0, rounds[1..]);
    }
  }

  // ---------------------------------------------------------------- catching up

  lemma OneRoundLess(rounds: nat, limit: nat)
    requires rounds > 0
    ensures rounds * limit == (rounds - 1) * limit + limit
  {
  }

  lemma {:induction false} CatchesUpTo(space: Text, principal: Text, v: Log, y: Sync, limit: nat, views: seq<Log>,
      goal: nat)
    requires Following(space, v, y) && !Stuck(v, y) && GrowingViews(v, views) && limit > 0
    requires goal <= |v| && goal - y.checkpoint <= |views| * limit
    ensures var (y', applied, rounds) := UntilCaughtUp(space, principal, views, y, limit);
      && Following(space, if views == [] then v else views[|views| - 1], y') && applied == y'.checkpoint - y.checkpoint
      && y'.checkpoint >= goal
      && (rounds < |views| ==> rounds > 0 && y'.sink.log == views[rounds - 1])
    decreases |views|
  {
    hide Following, Once, ExactAt, UniqueIds, NonEmptyTxs;
    FollowingBounds(space, v, y);
    if views != [] {
      var w := views[0];
      OneRoundLess(|views|, limit);
      GrowthFollows(space, v, w, y);
      OnceSafe(space, principal, w, y, limit, None);
      var (y1, n) := Once(space, principal, w, y, limit, None);
      FollowingBounds(space, w, y1);
      if n > 0 {
        CatchesUpTo(space, principal, w, y1, limit, views[1..], goal);
      } else {
        ViewsOnlyGrow(v, views, |views| - 1);
        ViewsOnlyGrow(v, views, 0);
        GrowthFollows(space, w, views[|views| - 1], y1);
      }
    }
  }

  /** Given enough rounds without a crash for what is visible now, the checkpoint reaches the end of it
      exactly when the replicator is not stuck, however the source grows between the pulls; and one
      that stops early has all that its last pull found. */
  lemma CatchesUpIff(space: Text, principal: Text, v: Log, y: Sync, limit: nat, views: seq<Log>)
    requires Following(space, v, y) && GrowingViews(v, views) && limit > 0
    requires |v| - y.checkpoint <= |views| * limit
    ensures var (y', applied, rounds) := UntilCaughtUp(space, principal, views, y, limit);
      && Following(space, if views == [] then v else views[|views| - 1], y') && applied == y'.checkpoint - y.checkpoint
      && (y'.checkpoint >= |v| <==> !Stuck(v, y))
      && (!Stuck(v, y) ==> v <= y'.sink.log)
      && (!Stuck(v, y) && rounds < |views| ==> rounds > 0 && y'.sink.log == views[rounds - 1])
  {
    hide Following, Once, ExactAt, UniqueIds, NonEmptyTxs;
    FollowingBounds(space, v, y);
    var last := if views == [] then v else views[|views| - 1];
    if views != [] {
      ViewsOnlyGrow(v, views, |views| - 1);
      GrowthFollows(space, v, last, y);
    }
    if Stuck(v, y) {
      StaysStuck(space, principal, v, y, limit, views);
    } else {
      CatchesUpTo(space, principal, v, y, limit, views, |v|);
      FollowingBounds(space, last, UntilCaughtUp(space, principal, views, y, limit).0);
    }
  }

  lemma StaysStuck(space: Text, principal: Text, v: Log, y: Sync, limit: nat, views: seq<Log>)
    requires Following(space, v, y) && Stuck(v, y) && GrowingViews(v, views)
    ensures var (y', applied, _) := UntilCaughtUp(space, principal, views, y, limit); y' == y && applied == 0
  {
    hide Following, Once, ExactAt, UniqueIds, NonEmptyTxs;
    if views != [] {
      GrowthFollows(space, v, views[0], y);
      OnceSafe(space, principal, views[0], y, limit, None);
    }
  }

  /** Kernel-written sources never get a replicator stuck, whatever its principal sees of them. */
  lemma KernelSourceNeverSticks(source: Log, viewer: Viewer, y: Sync)
    requires forall b | b in source :: b.metaEvents == [] && |b.graphEvents| == 1
    ensures !Stuck(VisibleLog(source, viewer), y)
  {
    VisibleKeepsShape(source, viewer);
    KernelLogsAreExact(VisibleLog(source, viewer));
  }

  lemma {:induction false} AllVisible(log: Log, viewer: Viewer)
    requires forall b | b in log :: viewer.Sees(b)
    ensures VisibleLog(log, viewer) == log
  {
    if log != [] {
      AllVisible(log[..|log| - 1], viewer);
    }
  }

  /** Anything computed from the visible log, such as the principal's projection, is the same on a
      caught-up sink as on the source. */
  lemma SinkShowsTheSame(source: Log, viewer: Viewer, sink: Log)
    requires sink <= VisibleLog(source, viewer)
    ensures VisibleLog(sink, viewer) == sink
    ensures sink == VisibleLog(source, viewer) ==> VisibleLog(sink, viewer) == VisibleLog(source, viewer)
  {
    VisibleKeepsShape(source, viewer);
    forall b | b in sink ensures viewer.Sees(b) {
      assert b in VisibleLog(source, viewer);
    }
    AllVisible(sink, viewer);
  }

  /** A run that gets stuck: one crash before the checkpoint of a transaction with no meta events
      is saved, after an earlier one had some, and nothing is ever replicated again. */
  lemma CrashCanStick(space: Text, principal: Text)
    ensures exists v: Log, crash: Crash | UniqueIds(v) && NonEmptyTxs(v) ::
      Stuck(v, Once(space, principal, v, Sync(EmptyStore, 0), 2, Some(crash)).0)
  {
    hide SinkApply, Following, Replicated, PullBundles, UniqueIds, NonEmptyTxs;
    var v := TwoTxLog();
    var y := Sync(EmptyStore, 0);
    var bundles := PullBundles(space, principal, v, 0, 2);
    StartFollows(space, v);
    PullBundlesAre(space, principal, v, 0, 2);
    ApplyNew(space, principal, v, y);
    var (s1, o1) := SinkApply(y.sink, Replicated(space, principal, v[0], 1));
    var y1 := Sync(s1, 1);
    assert y1.sink.log == v[..1];
    ApplyNew(space, principal, v, y1);
    var (s2, o2) := SinkApply(s1, Replicated(space, principal, v[1], 2));
    assert s2.log == v[..2];
    ReplicatedRank(space, principal, v[0], 1);
    assert bundles[0] == Replicated(space, principal, v[0 + 0], 0 + 0 + 1)
      && bundles[1] == Replicated(space, principal, v[0 + 1], 0 + 1 + 1);
    assert ApplyFrom(y1, bundles, 1, Some(Crash(1, true))) == (Sync(s2, 1), 1);
    assert Once(space, principal, v, y, 2, Some(Crash(1, true))).0 == Sync(s2, 1);
    assert Stuck(v, Sync(s2, 1));
  }

  lemma TwoTxLog() returns (v: Log)
    ensures |v| == 2 && UniqueIds(v) && NonEmptyTxs(v) && !ExactAt(v, 1)
  {
    v := [TxBundle(Lit("a"), [Null], [Null]), TxBundle(Lit("b"), [], [Null])];
    assert v[..1] == [v[0]] && v[..1][..0] == [];
    assert Count(v[..1], Meta) == 1;
    assert Lit("a")[0] != Lit("b")[0];
  }
}
