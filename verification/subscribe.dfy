/** The subscribe path when the transport is honest: what overlaps is ignored, what follows on is
    applied, a gap asks for a poll; and what was applied is what validation commits. */
module Subscribe {
  import opened Texts
  import opened EventLog
  import opened Digest
  import opened Paging
  import opened ClientSpec
  import opened ClientRuns
  import opened ClientRecovery

  /** The frames of transactions a+1 to b of the visible log. */
  function FramesOf(v: Log, a: nat, b: nat): seq<Frame>
    requires a <= b <= |v|
  {
    seq(b - a, i requires 0 <= i < b - a => Frame(VisibleTxBundle(a + i + 1, v[a + i])))
  }

  /** The candidate side is the first k visible transactions and no poll is asked for. */
  ghost predicate FollowsTo(c: ClientState, v: Log, k: nat) {
    && k <= |v| && !c.needsPoll
    && c.candidateCursor == k && c.candidateState == Ranked(v, k)
    && c.seenTxIds == IdsOf(Ranked(v, k))
  }

  predicate NamedTxs(v: Log) {
    forall b | b in v :: b.txId != []
  }

  lemma FramesTail(v: Log, a: nat, b: nat)
    requires a < b <= |v|
    ensures FramesOf(v, a, b)[0] == Frame(VisibleTxBundle(a + 1, v[a]))
      && FramesOf(v, a, b)[1..] == FramesOf(v, a + 1, b)
  {
  }

  lemma SeenIds(v: Log, k: nat, i: nat)
    requires UniqueIds(v) && k <= |v| && i < |v|
    ensures v[i].txId in IdsOf(Ranked(v, k)) <==> i < k
  {
    if i < k {
      assert Ranked(v, k)[i].txBundle == v[i];
    }
  }

  lemma RankedSnoc(v: Log, k: nat)
    requires k < |v|
    ensures Ranked(v, k + 1) == Ranked(v, k) + [VisibleTxBundle(k + 1, v[k])]
    ensures IdsOf(Ranked(v, k + 1)) == IdsOf(Ranked(v, k)) + {v[k].txId}
  {
    assert v[..k + 1] == v[..k] + [v[k]];
  }

  /** One honest frame: ignored when already followed, applied when it comes next. */
  lemma HonestFrame(c: ClientState, v: Log, k: nat, a: nat)
    requires UniqueIds(v) && NamedTxs(v) && FollowsTo(c, v, k) && a <= k && a < |v|
    ensures var f := Frame(VisibleTxBundle(a + 1, v[a]));
      && Evaluate(c, f) == (if a < k then IgnoreDuplicateOrStale else ApplySafe)
      && FollowsTo(IngestOne(c, f), v, if a < k then k else k + 1)
      && IngestOne(c, f).durableCursor == c.durableCursor && IngestOne(c, f).durableState == c.durableState
  {
    hide UniqueIds, Ranked, IdsOf;
    assert v[a] in v;
    SeenIds(v, k, a);
    if a == k {
      RankedSnoc(v, k);
    }
  }

  /** A run of frames that overlaps or continues what is followed is taken to its end: each frame
      is applied once, repeats and stale ones are ignored, and no poll is needed. */
  lemma {:induction false} HonestRunApplied(c: ClientState, v: Log, k: nat, a: nat, b: nat)
    requires UniqueIds(v) && NamedTxs(v) && FollowsTo(c, v, k) && a <= k && a <= b <= |v|
    ensures var (c', accepted) := Ingest(c, FramesOf(v, a, b));
      && FollowsTo(c', v, if b < k then k else b) && accepted == (if b < k then 0 else b - k)
      && c'.durableCursor == c.durableCursor && c'.durableState == c.durableState
    decreases b - a
  {
    hide UniqueIds, NamedTxs, Evaluate, IngestOne, Ranked, IdsOf;
    if a < b {
      FramesTail(v, a, b);
      HonestFrame(c, v, k, a);
      var c1 := IngestOne(c, FramesOf(v, a, b)[0]);
      HonestRunApplied(c1, v, if a < k then k else k + 1, a + 1, b);
    }
  }

  /** A run that starts beyond what is followed applies nothing and asks for a poll. */
  lemma GapAsksForPoll(c: ClientState, v: Log, k: nat, a: nat, b: nat)
    requires NamedTxs(v) && FollowsTo(c, v, k) && k < a < b <= |v|
    ensures var (c', accepted) := Ingest(c, FramesOf(v, a, b));
      c'.needsPoll && accepted == 0 && c'.candidateState == c.candidateState && c'.candidateCursor == k
  {
    assert v[a] in v;
    FramesTail(v, a, b);
  }

  /** While a poll is asked for, no frame of any kind changes the candidate side. */
  lemma BlockedUntilPoll(c: ClientState, frames: seq<Frame>)
    requires c.needsPoll
    ensures var (c', accepted) := Ingest(c, frames);
      accepted == 0 && c'.needsPoll && c'.candidateState == c.candidateState && c'.candidateCursor == c.candidateCursor
  {
  }

  /** A client that follows the head by subscription commits it at its next validation on a quiet
      log exactly when the pulls from its durable cursor reach the head. */
  lemma FollowedHeadCommits(c: ClientState, v: Log, principal: Text, space: Text, limitTx: int)
    requires DurableIsPrefix(c, v) && FollowsTo(c, v, |v|)
    ensures var (c', committed) := Validated(c, v, principal, space, limitTx);
      && (committed <==> Reach(v, c.durableCursor, limitTx, MAX_ROUNDS) == |v|)
      && (committed ==> c'.durableCursor == |v| && c'.durableState == Ranked(v, |v|))
  {
    hide FinishValidation, PullOut, CallRight, Reach, Ranked, SameState;
    var d := DurableCursorOf(c, v);
    NewCallRight(v, Validation, d, limitTx);
    PullOutReaches(v, BeginValidation(c, limitTx));
    RankedSize(v, |v|);
    FinishValidationIff(c, v, principal, space, PullOut(v, BeginValidation(c, limitTx)));
    SelfSame(c.candidateState);
  }
}
