/** Safety of the client over every run: any frames, any appends, and any number of validations and
    recoveries of one client awaiting their pulls at the same time. */
module ClientRuns {
  import opened Texts
  import Canonical
  import opened EventLog
  import opened StoreSpec
  import opened Visibility
  import opened Digest
  import opened Paging
  import opened ClientSpec

  /** Whose client it is, and of which space under which policy. */
  datatype Identity = Identity(policy: Policy, principal: Text, space: Text) {
    function Seen(log: Log): Log { VisibleLog(log, Viewer(policy, principal)) }
  }

  /** The first n transactions of the visible log with their ranks. */
  function Ranked(v: Log, n: nat): seq<VisibleTxBundle>
    requires n <= |v|
  {
    Labelled(v[..n], 0)
  }

  ghost predicate AdvancedAreValidated(decisions: seq<Decision>) {
    forall d | d in decisions && d.reason == DurableCursorAdvanced ::
      d.durableCursor == d.candidateCursor == d.pollValidatedCursor
  }

  /** The durable side is, up to canonical form, exactly the first `durableCursor` transactions
      of the visible log, and every logged advance was validated by a poll. */
  ghost predicate DurableIsPrefix(c: ClientState, v: Log) {
    && 0 <= c.durableCursor <= |v|
    && SameState(c.durableState, Ranked(v, c.durableCursor))
    && AdvancedAreValidated(c.decisions)
  }

  /** The candidate side holds one transaction per rank, whatever they are. */
  predicate Sized(c: ClientState) {
    |c.candidateState| == c.candidateCursor
  }

  /** What a call under way has collected is one slice of the visible log. */
  ghost predicate CallRight(call: Call, v: Log) {
    && 0 <= call.from <= call.cursor <= |v|
    && call.txs == Labelled(v[call.from..call.cursor], call.from)
    && (call.kind == Recovery ==> call.from == 0)
  }

  // ---------------------------------------------------------------- states

  lemma LabelledConcat(a: Log, b: Log, from: int)
    ensures Labelled(a + b, from) == Labelled(a, from) + Labelled(b, from + |a|)
  {
  }

  lemma JoinSlices(v: Log, from: nat, mid: nat, after: nat)
    requires from <= mid <= after <= |v|
    ensures Labelled(v[from..mid], from) + Labelled(v[mid..after], mid) == Labelled(v[from..after], from)
  {
    assert v[from..after] == v[from..mid] + v[mid..after];
    LabelledConcat(v[from..mid], v[mid..after], from);
  }

  lemma SameBundleRefl(b: TxBundle)
    ensures SameBundle(b, b)
  {
  }

  lemma SelfSame(state: seq<VisibleTxBundle>)
    ensures SameState(state, state)
  {
    forall i | 0 <= i < |state| ensures SameEntry(state[i], state[i]) {
      SameBundleRefl(state[i].txBundle);
    }
  }

  lemma SameStateTrans(a: seq<VisibleTxBundle>, b: seq<VisibleTxBundle>, c: seq<VisibleTxBundle>)
    requires SameState(a, b) && SameState(b, c)
    ensures SameState(a, c)
  {
    forall i | 0 <= i < |a| ensures SameEntry(a[i], c[i]) {
      assert SameEntry(a[i], b[i]) && SameEntry(b[i], c[i]);
      SameBundleTrans(a[i].txBundle, b[i].txBundle, c[i].txBundle);
    }
  }

  lemma SameBundleTrans(a: TxBundle, b: TxBundle, c: TxBundle)
    requires SameBundle(a, b) && SameBundle(b, c)
    ensures SameBundle(a, c)
  {
    forall i | 0 <= i < |a.metaEvents|
      ensures Canonical.Essence(a.metaEvents[i]) == Canonical.Essence(c.metaEvents[i])
    {
      assert Canonical.Essence(a.metaEvents[i]) == Canonical.Essence(b.metaEvents[i]);
    }
    forall i | 0 <= i < |a.graphEvents|
      ensures Canonical.Essence(a.graphEvents[i]) == Canonical.Essence(c.graphEvents[i])
    {
      assert Canonical.Essence(a.graphEvents[i]) == Canonical.Essence(b.graphEvents[i]);
    }
  }

  lemma SameStateSym(a: seq<VisibleTxBundle>, b: seq<VisibleTxBundle>)
    requires SameState(a, b)
    ensures SameState(b, a)
  {
    forall i | 0 <= i < |a| ensures SameEntry(b[i], a[i]) {
      assert SameEntry(a[i], b[i]);
    }
  }

  /** The durable side followed by a slice polled after it is a prefix of the visible log. */
  lemma PolledIsPrefix(durable: seq<VisibleTxBundle>, w: Log, k: nat, after: nat)
    requires k <= after <= |w| && SameState(durable, Ranked(w, k))
    ensures SameState(durable + Labelled(w[k..after], k), Ranked(w, after))
  {
    var all := durable + Labelled(w[k..after], k);
    forall i | 0 <= i < |all| ensures SameEntry(all[i], Ranked(w, after)[i]) {
      if i < k {
        assert SameEntry(durable[i], Ranked(w, k)[i]);
      } else {
        SameBundleRefl(w[i]);
      }
    }
  }

  // ---------------------------------------------------------------- every step of a call

  /** A pull, whatever has arrived since the last one, extends the slice. */
  lemma PullKeepsCall(call: Call, v: Log)
    requires CallRight(call, v)
    ensures CallRight(PullOnce(call, v), v) && PullOnce(call, v).cursor >= call.cursor
  {
    if !call.Done() {
      hide Pull, Labelled;
      PullIsGreedyPage(v, call.cursor, call.limitTx, DEFAULT_LIMIT_BYTES);
      var after := PullOnce(call, v).cursor;
      JoinSlices(v, call.from, call.cursor, after);
    }
  }

  lemma GrowthKeepsCall(call: Call, v: Log, w: Log)
    requires CallRight(call, v) && v <= w
    ensures CallRight(call, w)
  {
    assert v[call.from..call.cursor] == w[call.from..call.cursor];
  }

  lemma GrowthKeepsDurable(c: ClientState, v: Log, w: Log)
    requires DurableIsPrefix(c, v) && v <= w
    ensures DurableIsPrefix(c, w)
  {
    assert v[..c.durableCursor] == w[..c.durableCursor];
  }

  /** A validation commits exactly when no resync is pending, no other validation has committed
      since it began, and the candidate side is, up to canonical form, the visible log as far as
      its pulls reached; then that becomes the durable side.  Otherwise the candidate side is
      rolled back and a resync is required. */
  lemma FinishValidationIff(c: ClientState, v: Log, principal: Text, space: Text, call: Call)
    requires DurableIsPrefix(c, v) && Sized(c) && CallRight(call, v)
    ensures var (c', committed) := FinishValidation(c, principal, space, call);
      && DurableIsPrefix(c', v) && Sized(c') && c'.durableCursor >= c.durableCursor
      && (committed <==>
            && !c.needsPoll && call.from == c.durableCursor && c.candidateCursor == call.cursor
            && SameState(c.candidateState, Ranked(v, call.cursor)))
      && (committed ==> c'.durableCursor == call.cursor && c'.durableState == c.candidateState)
      && (!committed ==>
            && c'.durableCursor == c'.candidateCursor == c.durableCursor
            && c'.durableState == c'.candidateState == c.durableState && c'.needsPoll)
  {
    hide StateDigest, Ranked, Labelled;
    var polled := c.durableState + call.txs;
    DigestsAgree(principal, space, c.candidateState, c.candidateCursor, polled, call.cursor);
    RankedSize(v, c.durableCursor);
    RankedSize(v, call.cursor);
    LabelledSize(v[call.from..call.cursor], call.from);
    if call.from == c.durableCursor {
      PolledIsPrefix(c.durableState, v, c.durableCursor, call.cursor);
      if SameState(c.candidateState, polled) {
        SameStateTrans(c.candidateState, polled, Ranked(v, call.cursor));
      }
      if SameState(c.candidateState, Ranked(v, call.cursor)) {
        SameStateSym(polled, Ranked(v, call.cursor));
        SameStateTrans(c.candidateState, Ranked(v, call.cursor), polled);
      }
    }
  }

  lemma RankedSize(v: Log, n: nat)
    requires n <= |v|
    ensures |Ranked(v, n)| == n
  {
  }

  lemma LabelledSize(bundles: Log, from: int)
    ensures |Labelled(bundles, from)| == |bundles|
  {
  }

  lemma FinishRecoveryKeeps(c: ClientState, v: Log, call: Call)
    requires DurableIsPrefix(c, v) && CallRight(call, v) && call.kind == Recovery
    ensures var c' := FinishRecovery(c, call);
      && DurableIsPrefix(c', v) && Sized(c')
      && c'.durableCursor == c.durableCursor && c'.durableState == c.durableState
      && c'.candidateState == Ranked(v, call.cursor) && c'.candidateCursor == call.cursor && !c'.needsPoll
  {
  }

  lemma {:induction false} IngestAllKeeps(c: ClientState, frames: seq<Frame>)
    requires AdvancedAreValidated(c.decisions) && Sized(c)
    ensures var c' := IngestAll(c, frames).0;
      && c'.durableCursor == c.durableCursor && c'.durableState == c.durableState
      && AdvancedAreValidated(c'.decisions) && Sized(c')
    decreases |frames|
  {
    if frames != [] {
      IngestOneKeeps(c, frames[0]);
      hide IngestOne, Evaluate, AdvancedAreValidated, Sized;
      IngestAllKeeps(IngestOne(c, frames[0]), frames[1..]);
    }
  }

  lemma IngestOneKeeps(c: ClientState, f: Frame)
    requires AdvancedAreValidated(c.decisions) && Sized(c)
    ensures var c' := IngestOne(c, f);
      && c'.durableCursor == c.durableCursor && c'.durableState == c.durableState
      && AdvancedAreValidated(c'.decisions) && Sized(c')
  {
  }

  // ---------------------------------------------------------------- every run

  /** The store, the client, and its calls under way, each under its own handle. */
  datatype World = World(store: Store, client: ClientState, calls: map<nat, Call>)

  /** What can happen next.  A call is three kinds of step, and anything may come between them. */
  datatype Action =
    | OtherAppends(b: TxBundle, ctx: IdempotencyCtx)
    | IngestFrames(frames: seq<Frame>)
    | StartValidation(call: nat, limitTx: int)
    | StartRecovery(call: nat, limitTx: int)
    | PullFor(call: nat)
    | FinishCall(call: nat)

  /** A start under a handle in use, and a step of a call that is not under way, do nothing. */
  function Step(x: Identity, w: World, a: Action): World {
    match a
    case OtherAppends(b, ctx) => w.(store := Arrive(w.store, b, ctx))
    case IngestFrames(frames) => w.(client := Ingest(w.client, frames).0)
    case StartValidation(id, limitTx) =>
      if id in w.calls then w else w.(calls := w.calls[id := BeginValidation(w.client, limitTx)])
    case StartRecovery(id, limitTx) =>
      if id in w.calls then w
      else
        var (c, call) := BeginRecovery(w.client, limitTx);
        w.(client := c, calls := w.calls[id := call])
    case PullFor(id) =>
      if id !in w.calls then w else w.(calls := w.calls[id := PullOnce(w.calls[id], x.Seen(w.store.log))])
    case FinishCall(id) =>
      if id !in w.calls || !w.calls[id].Done() then w
      else
        var call := w.calls[id];
        w.(calls := w.calls - {id},
           client := if call.kind == Recovery then FinishRecovery(w.client, call)
                     else FinishValidation(w.client, x.principal, x.space, call).0)
  }

  function Run(x: Identity, w: World, actions: seq<Action>): World {
    if actions == [] then w else Step(x, Run(x, w, actions[..|actions| - 1]), actions[|actions| - 1])
  }

  ghost predicate Safe(x: Identity, w: World) {
    var v := x.Seen(w.store.log);
    && DurableIsPrefix(w.client, v) && Sized(w.client)
    && forall id | id in w.calls :: CallRight(w.calls[id], v)
  }

  lemma ArrivalSafe(x: Identity, w: World, b: TxBundle, ctx: IdempotencyCtx)
    requires Safe(x, w)
    ensures Safe(x, Step(x, w, OtherAppends(b, ctx)))
  {
    hide DurableIsPrefix, CallRight, Arrive, VisibleLog;
    var store := Arrive(w.store, b, ctx);
    ArriveGrows(w.store, b, ctx);
    VisibleGrows(w.store.log, store.log, Viewer(x.policy, x.principal));
    GrowthKeepsDurable(w.client, x.Seen(w.store.log), x.Seen(store.log));
    forall id | id in w.calls ensures CallRight(w.calls[id], x.Seen(store.log)) {
      GrowthKeepsCall(w.calls[id], x.Seen(w.store.log), x.Seen(store.log));
    }
  }

  lemma StartsSafe(x: Identity, w: World, id: nat, limitTx: int)
    requires Safe(x, w)
    ensures Safe(x, Step(x, w, StartValidation(id, limitTx))) && Safe(x, Step(x, w, StartRecovery(id, limitTx)))
  {
    hide SameState, VisibleLog;
    NothingCollected(x.Seen(w.store.log), w.client.durableCursor);
  }

  lemma NothingCollected(v: Log, from: int)
    ensures Labelled([], from) == [] && (0 <= from <= |v| ==> v[from..from] == [])
  {
  }

  lemma StepSafe(x: Identity, w: World, a: Action)
    requires Safe(x, w)
    ensures var w' := Step(x, w, a);
      && Safe(x, w') && w.store.log <= w'.store.log && w'.client.durableCursor >= w.client.durableCursor
  {
    hide DurableIsPrefix, CallRight, FinishValidation, FinishRecovery, PullOnce, VisibleLog, Arrive, Ingest, Ranked,
      SameState;
    match a
    case OtherAppends(b, ctx) =>
      ArriveGrows(w.store, b, ctx);
      ArrivalSafe(x, w, b, ctx);
    case IngestFrames(frames) => IngestKeeps(w.client, x.Seen(w.store.log), frames);
    case StartValidation(id, limitTx) => StartsSafe(x, w, id, limitTx);
    case StartRecovery(id, limitTx) => StartsSafe(x, w, id, limitTx);
    case PullFor(id) =>
      if id in w.calls {
        PullKeepsCall(w.calls[id], x.Seen(w.store.log));
      }
    case FinishCall(id) =>
      if id in w.calls {
        FinishKeeps(x, w, id);
      }
  }

  lemma IngestKeeps(c: ClientState, v: Log, frames: seq<Frame>)
    requires DurableIsPrefix(c, v) && Sized(c)
    ensures var c' := Ingest(c, frames).0; DurableIsPrefix(c', v) && Sized(c') && c'.durableCursor == c.durableCursor
  {
    IngestAllKeeps(c, frames);
  }

  lemma FinishKeeps(x: Identity, w: World, id: nat)
    requires Safe(x, w) && id in w.calls
    ensures Safe(x, Step(x, w, FinishCall(id)))
    ensures Step(x, w, FinishCall(id)).client.durableCursor >= w.client.durableCursor
  {
    hide DurableIsPrefix, CallRight, FinishValidation, FinishRecovery, VisibleLog, Ranked, SameState;
    var call, v := w.calls[id], x.Seen(w.store.log);
    FinishValidationIff(w.client, v, x.principal, x.space, call);
    if call.kind == Recovery {
      FinishRecoveryKeeps(w.client, v, call);
    }
  }

  /** Over every run from a correct start, with any frames from the transport, any appends, and any
      interleaving of this client's own validations and recoveries, the durable side stays a prefix
      of the visible log and its cursor never regresses. */
  lemma {:induction false} DurableSafe(x: Identity, w: World, actions: seq<Action>)
    requires Safe(x, w)
    ensures var w' := Run(x, w, actions);
      && Safe(x, w') && w.store.log <= w'.store.log && w'.client.durableCursor >= w.client.durableCursor
  {
    hide Safe, Step;
    if actions != [] {
      DurableSafe(x, w, actions[..|actions| - 1]);
      StepSafe(x, Run(x, w, actions[..|actions| - 1]), actions[|actions| - 1]);
    }
  }

  /** A new client, and one initialised with a true prefix, start correct. */
  lemma CorrectStart(x: Identity, store: Store, c: ClientState, state: seq<VisibleTxBundle>, cursor: int)
    requires var v := x.Seen(store.log); 0 <= cursor <= |v| && SameState(state, Ranked(v, cursor))
    requires AdvancedAreValidated(c.decisions)
    ensures Safe(x, World(store, FreshClient, map[])) && Safe(x, World(store, Initialize(c, state, cursor), map[]))
  {
    hide VisibleLog;
  }

  lemma {:induction false} RunConcat(x: Identity, w: World, a: seq<Action>, b: seq<Action>)
    ensures Run(x, w, a + b) == Run(x, Run(x, w, a), b)
  {
    if b == [] {
      assert a + b == a;
    } else {
      assert (a + b)[..|a + b| - 1] == a + b[..|b| - 1];
      RunConcat(x, w, a, b[..|b| - 1]);
    }
  }
}
