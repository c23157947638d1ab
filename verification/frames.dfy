/** What a client does with any frames at all, true or forged: which ones it takes, which ones it
    ignores, and which ones make it ask for a poll. */
module Frames {
  import opened Texts
  import opened Digest
  import opened ClientSpec

  /** A frame with a transaction that has an id. */
  predicate Complete(f: Frame) { f.Frame? && f.entry.txBundle.txId != [] }

  /** A frame of something already taken: its rank is not beyond the candidate side's and its id has
      been seen. */
  predicate Repeats(c: ClientState, f: Frame) {
    Complete(f) && f.entry.principalCursor <= c.candidateCursor && f.entry.txBundle.txId in c.seenTxIds
  }

  /** A frame of exactly the next rank, with a new id. */
  predicate Continues(c: ClientState, f: Frame) {
    Complete(f) && f.entry.principalCursor == c.candidateCursor + 1 && f.entry.txBundle.txId !in c.seenTxIds
  }

  function Reasons(c: ClientState): seq<DecisionReason> {
    seq(|c.decisions|, i requires 0 <= i < |c.decisions| => c.decisions[i].reason)
  }

  /** What is recorded about one frame. */
  function ReasonsFor(c: ClientState, f: Frame): seq<DecisionReason> {
    if Repeats(c, f) then [TransportDeltaDecision, TransportDeltaIgnored, SubscribeDeduped]
    else if Continues(c, f) then [TransportDeltaDecision]
    else [TransportDeltaDecision, TransportResyncRequired,
          if !Complete(f) then SubscribeInvalidTxBundle
          else if f.entry.principalCursor > c.candidateCursor + 1 then SubscribeGapDetected
          else SubscribeOutOfOrder]
  }

  /** Nothing of the durable side, and of the candidate side only what is said. */
  predicate OnlyCandidateGrew(c: ClientState, c': ClientState, added: seq<VisibleTxBundle>, cursor: int) {
    && c'.durableCursor == c.durableCursor && c'.durableState == c.durableState
    && c'.pollValidatedCursor == c.pollValidatedCursor
    && c'.candidateState == c.candidateState + added && c'.candidateCursor == cursor
    && c'.seenTxIds == c.seenTxIds + IdsOf(added)
  }

  /** Any one frame to a client that asks for no poll: it goes on without a poll exactly when the frame
      repeats or continues, and takes it exactly when it continues. */
  lemma OneFrame(c: ClientState, f: Frame)
    requires !c.needsPoll
    ensures var (c', accepted) := Ingest(c, [f]);
      && (!c'.needsPoll <==> Repeats(c, f) || Continues(c, f))
      && accepted == (if Continues(c, f) then 1 else 0)
      && (if Continues(c, f) then OnlyCandidateGrew(c, c', [f.entry], f.entry.principalCursor)
          else OnlyCandidateGrew(c, c', [], c.candidateCursor))
      && Reasons(c') == Reasons(c) + ReasonsFor(c, f)
  {
    OneFrameIs(c, f);
    hide IngestAll;
    var c' := IngestOne(c, f);
    assert Reasons(c') == Reasons(c) + ReasonsFor(c, f);
    assert IdsOf([]) == {} && c.candidateState + [] == c.candidateState;
    if Continues(c, f) {
      assert IdsOf([f.entry]) == {f.entry.txBundle.txId};
    }
  }

  lemma OneFrameIs(c: ClientState, f: Frame)
    requires !c.needsPoll
    ensures Ingest(c, [f]) == (IngestOne(c, f), if Evaluate(c, f).ApplySafe? then 1 else 0)
  {
    hide IngestOne, Evaluate;
    assert [f][1..] == [];
    NoFrames(IngestOne(c, f));
  }

  lemma NoFrames(c: ClientState)
    ensures IngestAll(c, []) == (c, 0)
  {
  }

  /** A run and one more frame: the frame meets the client as the run left it, if it left it without a
      poll to ask for; otherwise it is not looked at. */
  lemma {:induction false} IngestSnoc(c: ClientState, frames: seq<Frame>, f: Frame)
    requires !c.needsPoll
    ensures var (c1, n) := Ingest(c, frames);
      Ingest(c, frames + [f]) == if c1.needsPoll then (c1, n) else (Ingest(c1, [f]).0, n + Ingest(c1, [f]).1)
    decreases |frames|
  {
    if frames == [] {
      assert frames + [f] == [f];
      NoFrames(c);
    } else {
      assert (frames + [f])[1..] == frames[1..] + [f] && (frames + [f])[0] == frames[0];
      OneFrameAsks(c, frames[0]);
      if !IngestOne(c, frames[0]).needsPoll {
        IngestSnoc(IngestOne(c, frames[0]), frames[1..], f);
      }
    }
  }

  lemma OneFrameAsks(c: ClientState, f: Frame)
    requires !c.needsPoll
    ensures IngestOne(c, f).needsPoll <==> Evaluate(c, f).RequiresPollResync?
  {
  }

  /** A whole run of any frames: a poll is asked for exactly when some frame neither repeats nor
      continues at the client as the frames before it left it; the run ends there, and up to there the
      candidate side has grown by just the frames that continued it. */
  lemma {:induction false} RunAsksIff(c: ClientState, frames: seq<Frame>)
    requires !c.needsPoll
    ensures var c' := Ingest(c, frames).0;
      && (c'.needsPoll <==> exists i | 0 <= i < |frames| :: Breaks(c, frames, i))
      && OnlyCandidateGrew(c, c', Taken(c, frames), LastRank(Taken(c, frames), c.candidateCursor))
      && Ingest(c, frames).1 == |Taken(c, frames)|
    decreases |frames|
  {
    hide Ingest, Repeats, OnlyCandidateGrew;
    if frames == [] {
      NoFramesRun(c);
    } else {
      var init, f := frames[..|frames| - 1], frames[|frames| - 1];
      RunAsksIff(c, init);
      IngestSnoc(c, init, f);
      assert frames == init + [f] && frames[..|init|] == init;
      var c1 := Ingest(c, init).0;
      forall i | 0 <= i < |init| ensures Breaks(c, init, i) <==> Breaks(c, frames, i) {
        assert init[..i] == frames[..i];
      }
      assert Breaks(c, frames, |init|) <==> !c1.needsPoll && !Repeats(c1, f) && !Continues(c1, f);
      var more := if !c1.needsPoll && Continues(c1, f) then [f.entry] else [];
      assert Taken(c, frames) == Taken(c, init) + more;
      if !c1.needsPoll {
        OneFrame(c1, f);
        GrewTwice(c, c1, Ingest(c1, [f]).0, Taken(c, init), more);
      } else {
        assert Taken(c, frames) == Taken(c, init);
        SomeBreaks(c, frames, init);
      }
    }
  }

  lemma SomeBreaks(c: ClientState, frames: seq<Frame>, init: seq<Frame>)
    requires init <= frames && exists i | 0 <= i < |init| :: Breaks(c, init, i)
    ensures exists i | 0 <= i < |frames| :: Breaks(c, frames, i)
  {
    hide Ingest;
    var i :| 0 <= i < |init| && Breaks(c, init, i);
    assert init[..i] == frames[..i] && Breaks(c, frames, i);
  }

  /** The frame that first breaks the rule, at the client the frames before it left. */
  predicate Breaks(c: ClientState, frames: seq<Frame>, i: nat)
    requires i < |frames|
  {
    var met := Ingest(c, frames[..i]).0;
    !met.needsPoll && !Repeats(met, frames[i]) && !Continues(met, frames[i])
  }

  /** The entries of the frames that continued, each at the client the frames before it left. */
  function Taken(c: ClientState, frames: seq<Frame>): seq<VisibleTxBundle> {
    if frames == [] then []
    else
      var n := |frames| - 1;
      var met := Ingest(c, frames[..n]).0;
      Taken(c, frames[..n]) + if !met.needsPoll && Continues(met, frames[n]) then [frames[n].entry] else []
  }

  /** The rank of the last of some entries. */
  function LastRank(entries: seq<VisibleTxBundle>, cursor: int): int {
    if entries == [] then cursor else entries[|entries| - 1].principalCursor
  }

  lemma NoFramesRun(c: ClientState)
    requires !c.needsPoll
    ensures Ingest(c, []) == (c, 0) && OnlyCandidateGrew(c, c, [], c.candidateCursor)
  {
    assert c.candidateState + [] == c.candidateState && IdsOf([]) == {};
  }

  lemma GrewTwice(c: ClientState, c1: ClientState, c2: ClientState, a: seq<VisibleTxBundle>, b: seq<VisibleTxBundle>)
    requires OnlyCandidateGrew(c, c1, a, LastRank(a, c.candidateCursor))
    requires OnlyCandidateGrew(c1, c2, b, LastRank(b, c1.candidateCursor))
    ensures OnlyCandidateGrew(c, c2, a + b, LastRank(a + b, c.candidateCursor))
  {
    assert c.candidateState + a + b == c.candidateState + (a + b);
    assert IdsOf(a + b) == IdsOf(a) + IdsOf(b);
    assert b == [] ==> a + b == a;
  }
}
