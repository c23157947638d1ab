/** Recovery on a quiet log: when a full poll followed by a validation lands on the visible head,
    and when the round limit keeps it from ever doing so. */
module ClientRecovery {
  import opened Texts
  import opened EventLog
  import opened StoreSpec
  import opened Visibility
  import opened Digest
  import opened Paging
  import opened ClientSpec
  import opened ClientRuns

  /** All the pulls of a call, when nothing arrives in between. */
  function PullOut(v: Log, call: Call): Call
    decreases if call.Done() then 0 else MAX_ROUNDS + 1 - call.rounds
  {
    if call.Done() then call else PullOut(v, PullOnce(call, v))
  }

  /** `recoverByFullPoll` on a quiet log, start to end. */
  function Recovered(c: ClientState, v: Log, limitTx: int): ClientState {
    var (started, call) := BeginRecovery(c, limitTx);
    FinishRecovery(started, PullOut(v, call))
  }

  /** `validateAndCommit` on a quiet log, start to end. */
  function Validated(c: ClientState, v: Log, principal: Text, space: Text, limitTx: int): (ClientState, bool) {
    FinishValidation(c, principal, space, PullOut(v, BeginValidation(c, limitTx)))
  }

  // ---------------------------------------------------------------- where pulls end

  /** The cursor after one pull from rank x. */
  function PageEnd(v: Log, x: nat, limitTx: int): (e: nat)
    requires x <= |v|
    ensures x <= e <= |v| && (x < |v| ==> x < e)
  {
    PullIsGreedyPage(v, x, limitTx, DEFAULT_LIMIT_BYTES);
    Pull(v, x, limitTx, DEFAULT_LIMIT_BYTES).1
  }

  /** The cursor after n pulls from rank x. */
  function Reach(v: Log, x: nat, limitTx: int, n: nat): (r: nat)
    requires x <= |v|
    ensures x <= r <= |v|
  {
    if n == 0 then x else PageEnd(v, Reach(v, x, limitTx, n - 1), limitTx)
  }

  lemma {:induction false} ReachFirst(v: Log, x: nat, limitTx: int, n: nat)
    requires x <= |v|
    ensures Reach(v, PageEnd(v, x, limitTx), limitTx, n) == Reach(v, x, limitTx, n + 1)
  {
    hide PageEnd;
    if n > 0 {
      ReachFirst(v, x, limitTx, n - 1);
    }
  }

  lemma PullMovesToPageEnd(v: Log, call: Call)
    requires CallRight(call, v) && !call.Done()
    ensures var next := PullOnce(call, v);
      && CallRight(next, v) && next.kind == call.kind && next.from == call.from && next.limitTx == call.limitTx
      && next.cursor == PageEnd(v, call.cursor, call.limitTx)
      && (next.ended <==> call.cursor == |v|) && (!next.ended ==> next.rounds == call.rounds + 1)
  {
    hide Pull;
    PullKeepsCall(call, v);
    PullIsGreedyPage(v, call.cursor, call.limitTx, DEFAULT_LIMIT_BYTES);
  }

  /** A quiet collection reaches what its remaining pulls reach, and a pull that came back empty
      means it is at the head. */
  lemma {:induction false} PullOutReaches(v: Log, call: Call)
    requires CallRight(call, v) && !call.ended && call.rounds <= MAX_ROUNDS
    ensures var out := PullOut(v, call);
      && out.Done() && CallRight(out, v) && out.kind == call.kind && out.from == call.from
      && out.cursor == Reach(v, call.cursor, call.limitTx, MAX_ROUNDS - call.rounds)
      && (out.ended ==> out.cursor == |v|)
    decreases MAX_ROUNDS - call.rounds
  {
    hide CallRight, PullOnce, PageEnd;
    if !call.Done() {
      CallBounds(call, v);
      PullMovesToPageEnd(v, call);
      ReachFirst(v, call.cursor, call.limitTx, MAX_ROUNDS - call.rounds - 1);
      var next := PullOnce(call, v);
      if next.ended {
        HeadStays(v, call.limitTx, MAX_ROUNDS - call.rounds);
      } else {
        PullOutReaches(v, next);
      }
    }
  }

  lemma CallBounds(call: Call, v: Log)
    requires CallRight(call, v)
    ensures 0 <= call.from <= call.cursor <= |v|
  {
  }

  lemma {:induction false} HeadStays(v: Log, limitTx: int, n: nat)
    ensures Reach(v, |v|, limitTx, n) == |v|
  {
    if n > 0 {
      HeadStays(v, limitTx, n - 1);
    }
  }

  lemma NewCallRight(v: Log, kind: CallKind, from: nat, limitTx: int)
    requires from <= |v| && (kind == Recovery ==> from == 0)
    ensures CallRight(NewCall(kind, from, limitTx), v)
  {
    NothingCollected(v, from);
  }

  // ---------------------------------------------------------------- pages and their order

  lemma {:induction false} TotalBytesConcat(a: Log, b: Log)
    ensures TotalBytes(a + b) == TotalBytes(a) + TotalBytes(b)
  {
    hide BundleBytes;
    if b == [] {
      assert a + b == a;
    } else {
      assert (a + b)[..|a + b| - 1] == a + b[..|b| - 1];
      TotalBytesConcat(a, b[..|b| - 1]);
    }
  }

  lemma SubRunSize(v: Log, x: nat, a: nat, b: nat, y: nat)
    requires x <= a <= b <= y <= |v|
    ensures TotalBytes(v[a..b]) <= TotalBytes(v[x..y])
  {
    hide TotalBytes;
    assert v[x..y] == v[x..a] + (v[a..b] + v[b..y]);
    TotalBytesConcat(v[a..b], v[b..y]);
    TotalBytesConcat(v[x..a], v[a..b] + v[b..y]);
  }

  /** What fits one page: a single transaction, or few enough in few enough bytes. */
  predicate OnePage(v: Log, x: nat, e: nat, limitTx: int)
    requires x <= e <= |v|
  {
    e - x <= AtLeast(1, limitTx) && (e - x > 1 ==> TotalBytes(v[x..e]) <= DEFAULT_LIMIT_BYTES)
  }

  /** A page ends at the furthest rank that still fits. */
  lemma PageEndIsFurthest(v: Log, x: nat, limitTx: int, e: nat)
    requires x <= e <= |v|
    ensures OnePage(v, x, PageEnd(v, x, limitTx), limitTx)
    ensures OnePage(v, x, e, limitTx) ==> e <= PageEnd(v, x, limitTx)
  {
    hide TotalBytes;
    PullIsGreedyPage(v, x, limitTx, DEFAULT_LIMIT_BYTES);
    var end := PageEnd(v, x, limitTx);
    if OnePage(v, x, e, limitTx) && end < e {
      SubRunSize(v, x, x, end + 1, e);
    }
  }

  lemma OnePageShrinks(v: Log, x: nat, a: nat, e: nat, limitTx: int)
    requires x <= a <= e <= |v| && OnePage(v, x, e, limitTx)
    ensures OnePage(v, a, e, limitTx)
  {
    hide TotalBytes;
    SubRunSize(v, x, a, e, e);
  }

  /** Starting later never ends a page earlier. */
  lemma PageEndMonotone(v: Log, x: nat, y: nat, limitTx: int)
    requires x <= y <= |v|
    ensures PageEnd(v, x, limitTx) <= PageEnd(v, y, limitTx)
  {
    hide OnePage, PageEnd;
    var e := PageEnd(v, x, limitTx);
    PageEndIsFurthest(v, x, limitTx, e);
    if y <= e {
      OnePageShrinks(v, x, y, e, limitTx);
      PageEndIsFurthest(v, y, limitTx, e);
    }
  }

  lemma {:induction false} ReachMonotone(v: Log, x: nat, y: nat, limitTx: int, n: nat)
    requires x <= y <= |v|
    ensures Reach(v, x, limitTx, n) <= Reach(v, y, limitTx, n)
  {
    hide PageEnd;
    if n > 0 {
      ReachMonotone(v, x, y, limitTx, n - 1);
      PageEndMonotone(v, Reach(v, x, limitTx, n - 1), Reach(v, y, limitTx, n - 1), limitTx);
    }
  }

  /** A page that ends short of the head ends there however the log grows. */
  lemma PageEndStable(v: Log, w: Log, x: nat, limitTx: int)
    requires v <= w && x <= |v| && PageEnd(v, x, limitTx) < |v|
    ensures PageEnd(w, x, limitTx) == PageEnd(v, x, limitTx)
  {
    hide TotalBytes, PageEnd;
    var e, e' := PageEnd(v, x, limitTx), PageEnd(w, x, limitTx);
    PageEndIsFurthest(v, x, limitTx, e);
    assert w[x..e] == v[x..e];
    PageEndIsFurthest(w, x, limitTx, e);
    if e < e' {
      PageEndIsFurthest(w, x, limitTx, e');
      SubRunSize(w, x, x, e + 1, e');
      assert w[x..e + 1] == v[x..e + 1];
      PageEndIsFurthest(v, x, limitTx, e + 1);
    }
  }

  lemma {:induction false} ReachStable(v: Log, w: Log, x: nat, limitTx: int, n: nat)
    requires v <= w && x <= |v| && Reach(v, x, limitTx, n) < |v|
    ensures Reach(w, x, limitTx, n) == Reach(v, x, limitTx, n)
  {
    hide PageEnd;
    if n > 0 {
      ReachStable(v, w, x, limitTx, n - 1);
      PageEndStable(v, w, Reach(v, x, limitTx, n - 1), limitTx);
    }
  }

  // ---------------------------------------------------------------- recovery

  /** Full recovery followed by validation on a quiet log commits exactly when the pulls from the
      start and the pulls from the durable cursor end at the same rank, and lands on the visible
      head exactly when the pulls from the start do. */
  lemma RecoverThenValidate(c: ClientState, v: Log, principal: Text, space: Text, limitTx: int)
    requires DurableIsPrefix(c, v)
    ensures var (c', committed) := Validated(Recovered(c, v, limitTx), v, principal, space, limitTx);
      var full, delta := Reach(v, 0, limitTx, MAX_ROUNDS), Reach(v, c.durableCursor, limitTx, MAX_ROUNDS);
      && full <= delta
      && (committed <==> full == delta)
      && (committed && c'.durableCursor == |v| <==> full == |v|)
      && (committed ==> c'.durableCursor == full && c'.durableState == Ranked(v, full))
      && (!committed ==> c'.durableCursor == c.durableCursor && c'.durableState == c.durableState)
      && DurableIsPrefix(c', v)
  {
    hide CallRight, PullOut, FinishValidation, FinishRecovery, Reach, Ranked, SameState;
    var d := DurableCursorOf(c, v);
    var started, call := BeginRecovery(c, limitTx).0, BeginRecovery(c, limitTx).1;
    NewCallRight(v, Recovery, 0, limitTx);
    PullOutReaches(v, call);
    FinishRecoveryKeeps(started, v, PullOut(v, call));
    var r := Recovered(c, v, limitTx);
    NewCallRight(v, Validation, d, limitTx);
    PullOutReaches(v, BeginValidation(r, limitTx));
    FinishValidationIff(r, v, principal, space, PullOut(v, BeginValidation(r, limitTx)));
    ReachMonotone(v, 0, d, limitTx, MAX_ROUNDS);
    SelfSame(r.candidateState);
  }

  lemma DurableCursorOf(c: ClientState, v: Log) returns (d: nat)
    requires DurableIsPrefix(c, v)
    ensures d == c.durableCursor <= |v| && DurableIsPrefix(Record(c, PollRecoveryTriggered), v)
  {
    d := c.durableCursor;
  }

  /** Whenever the full poll finishes within its rounds, that is, gets an empty answer, recovery
      followed by validation commits and lands on the visible head. */
  lemma FinishedPollRecovers(c: ClientState, v: Log, principal: Text, space: Text, limitTx: int)
    requires DurableIsPrefix(c, v) && PullOut(v, BeginRecovery(c, limitTx).1).ended
    ensures var (c', committed) := Validated(Recovered(c, v, limitTx), v, principal, space, limitTx);
      committed && c'.durableCursor == |v| && c'.durableState == Ranked(v, |v|)
  {
    hide PullOut, Validated, Recovered, Reach, DurableIsPrefix;
    NewCallRight(v, Recovery, 0, limitTx);
    PullOutReaches(v, BeginRecovery(c, limitTx).1);
    RecoverThenValidate(c, v, principal, space, limitTx);
  }

  /** The pulls from the start end short of the head, and the first of them no further than what is
      durable. */
  predicate Stalled(v: Log, durableCursor: nat, limitTx: int) {
    Reach(v, 0, limitTx, MAX_ROUNDS) < |v| && PageEnd(v, 0, limitTx) <= durableCursor
  }

  /** A stalled client stays stalled: however the log has grown by the time of the attempt, recovery
      followed by validation does not commit and leaves the durable side as it was. */
  lemma StalledForGood(c: ClientState, v: Log, w: Log, principal: Text, space: Text, limitTx: int)
    requires v <= w && DurableIsPrefix(c, v) && Stalled(v, c.durableCursor, limitTx)
    ensures Stalled(w, c.durableCursor, limitTx)
    ensures var (c', committed) := Validated(Recovered(c, w, limitTx), w, principal, space, limitTx);
      !committed && c'.durableCursor == c.durableCursor && c'.durableState == c.durableState
  {
    hide Validated, Recovered, Reach, PageEnd, DurableIsPrefix;
    GrowthKeepsDurable(c, v, w);
    var d := DurableCursorOf(c, w);
    var first := PageEnd(w, 0, limitTx);
    FirstPage(v, w, limitTx);
    ReachStable(v, w, 0, limitTx, MAX_ROUNDS);
    ReachFirst(w, 0, limitTx, MAX_ROUNDS);
    ReachMonotone(w, first, d, limitTx, MAX_ROUNDS);
    OneMorePull(w, 0, limitTx, MAX_ROUNDS);
    RecoverThenValidate(c, w, principal, space, limitTx);
  }

  lemma FirstPage(v: Log, w: Log, limitTx: int)
    requires v <= w && Reach(v, 0, limitTx, MAX_ROUNDS) < |v|
    ensures PageEnd(w, 0, limitTx) == PageEnd(v, 0, limitTx)
  {
    hide PageEnd;
    ReachFirst(v, 0, limitTx, MAX_ROUNDS - 1);
    PageEndStable(v, w, 0, limitTx);
  }

  lemma OneMorePull(v: Log, x: nat, limitTx: int, n: nat)
    requires x <= |v| && Reach(v, x, limitTx, n) < |v|
    ensures Reach(v, x, limitTx, n) < Reach(v, x, limitTx, n + 1)
  {
    hide PageEnd;
  }

  // ---------------------------------------------------------------- as runs

  function Pulls(id: nat, n: nat): seq<Action> {
    seq(n, i requires 0 <= i < n => PullFor(id))
  }

  lemma OneStep(x: Identity, w: World, a: Action)
    ensures Run(x, w, [a]) == Step(x, w, a)
  {
    assert [a][..0] == [];
  }

  lemma {:induction false} QuietPulls(x: Identity, w: World, id: nat, n: nat)
    requires id in w.calls && n + w.calls[id].rounds > MAX_ROUNDS
    ensures Run(x, w, Pulls(id, n)) == w.(calls := w.calls[id := PullOut(x.Seen(w.store.log), w.calls[id])])
    decreases n
  {
    hide PullOnce, VisibleLog, Run;
    var call, v := w.calls[id], x.Seen(w.store.log);
    if n == 0 {
      assert Pulls(id, 0) == [];
      RunNothing(x, w);
    } else {
      var w1 := Step(x, w, PullFor(id));
      assert Pulls(id, n) == [PullFor(id)] + Pulls(id, n - 1);
      RunConcat(x, w, [PullFor(id)], Pulls(id, n - 1));
      OneStep(x, w, PullFor(id));
      PullRounds(call, v);
      if call.Done() || PullOnce(call, v).ended {
        DonePulls(x, w1, id, n - 1);
      } else {
        QuietPulls(x, w1, id, n - 1);
      }
      assert w1.calls[id := PullOut(v, call)] == w.calls[id := PullOut(v, call)];
    }
  }

  lemma RunNothing(x: Identity, w: World)
    ensures Run(x, w, []) == w
  {
  }

  lemma PullRounds(call: Call, v: Log)
    ensures PullOnce(call, v).ended || call.Done() || PullOnce(call, v).rounds == call.rounds + 1
    ensures call.Done() ==> PullOnce(call, v) == call
  {
    hide Pull;
  }

  lemma {:induction false} DonePulls(x: Identity, w: World, id: nat, n: nat)
    requires id in w.calls && w.calls[id].Done()
    ensures Run(x, w, Pulls(id, n)) == w
  {
    hide VisibleLog;
    if n > 0 {
      assert Pulls(id, n)[..n - 1] == Pulls(id, n - 1);
      DonePulls(x, w, id, n - 1);
    }
  }

  /** A call nothing comes between is the recovery, or the validation, of a quiet log. */
  lemma UninterruptedCalls(x: Identity, w: World, id: nat, limitTx: int)
    requires id !in w.calls
    ensures var v := x.Seen(w.store.log);
      && Run(x, w, [StartRecovery(id, limitTx)] + Pulls(id, MAX_ROUNDS + 1) + [FinishCall(id)])
           == w.(client := Recovered(w.client, v, limitTx))
      && Run(x, w, [StartValidation(id, limitTx)] + Pulls(id, MAX_ROUNDS + 1) + [FinishCall(id)])
           == w.(client := Validated(w.client, v, x.principal, x.space, limitTx).0)
  {
    hide Run, PullOnce, FinishRecovery, FinishValidation, VisibleLog;
    Uninterrupted(x, w, id, StartRecovery(id, limitTx));
    Uninterrupted(x, w, id, StartValidation(id, limitTx));
  }

  lemma Uninterrupted(x: Identity, w: World, id: nat, start: Action)
    requires id !in w.calls && (start.StartRecovery? || start.StartValidation?) && start.call == id
    ensures var w1 := Step(x, w, start);
      && id in w1.calls
      && Run(x, w, [start] + Pulls(id, MAX_ROUNDS + 1) + [FinishCall(id)])
           == Step(x, w1.(calls := w1.calls[id := PullOut(x.Seen(w.store.log), w1.calls[id])]), FinishCall(id))
      && PullOut(x.Seen(w.store.log), w1.calls[id]).Done() && w1.calls - {id} == w.calls
      && PullOut(x.Seen(w.store.log), w1.calls[id]).kind == w1.calls[id].kind
  {
    hide Run, PullOnce, FinishRecovery, FinishValidation, VisibleLog;
    var w1 := Step(x, w, start);
    OneStep(x, w, start);
    RunConcat(x, w, [start], Pulls(id, MAX_ROUNDS + 1));
    RunConcat(x, w, [start] + Pulls(id, MAX_ROUNDS + 1), [FinishCall(id)]);
    QuietPulls(x, w1, id, MAX_ROUNDS + 1);
    var w2 := Run(x, w, [start] + Pulls(id, MAX_ROUNDS + 1));
    OneStep(x, w2, FinishCall(id));
    PullOutDone(x.Seen(w.store.log), w1.calls[id]);
  }

  lemma {:induction false} PullOutDone(v: Log, call: Call)
    ensures PullOut(v, call).Done() && PullOut(v, call).kind == call.kind
    decreases if call.Done() then 0 else MAX_ROUNDS + 1 - call.rounds
  {
    hide Pull;
    if !call.Done() {
      PullOutDone(v, PullOnce(call, v));
    }
  }

  // ---------------------------------------------------------------- how long a log may be

  /** Any n transactions in a row fit one page. */
  predicate RunsFit(v: Log, n: nat, limitTx: int) {
    forall x, e | 0 <= x <= e <= |v| && e - x <= n :: OnePage(v, x, e, limitTx)
  }

  lemma {:induction false} FullPagesReach(v: Log, x: nat, limitTx: int, n: nat, rounds: nat)
    requires x <= |v| && RunsFit(v, n, limitTx)
    ensures Reach(v, x, limitTx, rounds) >= (if x + rounds * n <= |v| then x + rounds * n else |v|)
  {
    hide PageEnd, OnePage;
    if rounds > 0 {
      FullPagesReach(v, x, limitTx, n, rounds - 1);
      assert rounds * n == (rounds - 1) * n + n;
      var r := Reach(v, x, limitTx, rounds - 1);
      var e := if r + n <= |v| then r + n else |v|;
      assert OnePage(v, r, e, limitTx);
      PageEndIsFurthest(v, r, limitTx, e);
    }
  }

  /** When any n transactions in a row fit a page, every log of at most 256 n transactions
      recovers. */
  lemma FullPagesRecover(c: ClientState, v: Log, principal: Text, space: Text, limitTx: int, n: nat)
    requires DurableIsPrefix(c, v) && RunsFit(v, n, limitTx) && |v| <= MAX_ROUNDS * n
    ensures var (c', committed) := Validated(Recovered(c, v, limitTx), v, principal, space, limitTx);
      committed && c'.durableCursor == |v| && c'.durableState == Ranked(v, |v|)
  {
    hide Validated, Recovered, Reach, DurableIsPrefix, RunsFit;
    FullPagesReach(v, 0, limitTx, n, MAX_ROUNDS);
    RecoverThenValidate(c, v, principal, space, limitTx);
  }

  /** So every log of at most 256 transactions recovers, whatever the limits and the sizes. */
  lemma SmallLogsRecover(c: ClientState, v: Log, principal: Text, space: Text, limitTx: int)
    requires DurableIsPrefix(c, v) && |v| <= 256
    ensures var (c', committed) := Validated(Recovered(c, v, limitTx), v, principal, space, limitTx);
      committed && c'.durableCursor == |v| && c'.durableState == Ranked(v, |v|)
  {
    hide Validated, Recovered, DurableIsPrefix;
    FullPagesRecover(c, v, principal, space, limitTx, 1);
  }

  lemma {:induction false} OneAPull(v: Log, x: nat, n: nat)
    requires x + n <= |v|
    ensures Reach(v, x, 1, n) == x + n
  {
    hide PageEnd, TotalBytes;
    if n > 0 {
      OneAPull(v, x, n - 1);
      PageEndIsFurthest(v, x + n - 1, 1, x + n);
    }
  }

  /** Pulling one transaction at a time from a longer log, a client with anything durable is
      stalled. */
  lemma OneAPullStalls(v: Log, durableCursor: nat)
    requires |v| > 256 && 0 < durableCursor
    ensures Stalled(v, durableCursor, 1)
  {
    OneAPull(v, 0, MAX_ROUNDS);
    OneAPull(v, 0, 1);
  }
}
