/** The sync client itself: mutable fields, loops over frames and pulls, and calls that others, and
    the client's own other calls, run into while they await their pulls. */
module SyncClient {
  import opened Texts
  import opened EventLog
  import opened StoreSpec
  import opened Visibility
  import opened Digest
  import opened Paging
  import opened Stores
  import opened Arrivals
  import opened Gateway
  import opened ClientSpec
  import opened ClientRuns
  import opened Frames

  /** What a call under the handle `id` does: `n` pulls, others in between. */
  function PullsAmid(id: nat, others: seq<seq<Action>>, n: nat): seq<Action>
    requires n <= |others|
  {
    if n == 0 then [] else PullsAmid(id, others, n - 1) + others[n - 1] + [PullFor(id)]
  }

  /** The actions of others leave a handle alone. */
  predicate LeavesAlone(actions: seq<Action>, id: nat) {
    forall a | a in actions :: match a
      case OtherAppends(_, _) => true
      case IngestFrames(_) => true
      case _ => a.call != id
  }

  lemma {:induction false} LeftAlone(x: Identity, w: World, actions: seq<Action>, id: nat)
    requires id in w.calls && LeavesAlone(actions, id)
    ensures id in Run(x, w, actions).calls && Run(x, w, actions).calls[id] == w.calls[id]
  {
    if actions != [] {
      var init, last := actions[..|actions| - 1], actions[|actions| - 1];
      assert last in actions && LeavesAlone(init, id);
      LeftAlone(x, w, init, id);
      StepLeavesAlone(x, Run(x, w, init), last, id);
    }
  }

  lemma StepLeavesAlone(x: Identity, w: World, a: Action, id: nat)
    requires id in w.calls && LeavesAlone([a], id)
    ensures id in Step(x, w, a).calls && Step(x, w, a).calls[id] == w.calls[id]
  {
    hide VisibleLog, Arrive, Ingest, FinishValidation, FinishRecovery, PullOnce;
    assert a in [a];
  }

  lemma RunSnoc(x: Identity, w: World, actions: seq<Action>, a: Action)
    ensures Run(x, w, actions + [a]) == Step(x, Run(x, w, actions), a)
  {
    assert (actions + [a])[..|actions|] == actions;
  }

  lemma OneMorePull(id: nat, others: seq<seq<Action>>, n: nat, start: Action)
    requires n < |others|
    ensures [start] + PullsAmid(id, others, n + 1) == ([start] + PullsAmid(id, others, n) + others[n]) + [PullFor(id)]
  {
  }

  lemma IngestAllStep(c: ClientState, frames: seq<Frame>, i: nat)
    requires i < |frames|
    ensures var next := IngestOne(c, frames[i]);
      IngestAll(c, frames[i..]) ==
        match Evaluate(c, frames[i])
        case RequiresPollResync(_) => (next, 0)
        case IgnoreDuplicateOrStale => IngestAll(next, frames[i + 1..])
        case ApplySafe => (IngestAll(next, frames[i + 1..]).0, IngestAll(next, frames[i + 1..]).1 + 1)
  {
    hide Evaluate, IngestOne;
    assert frames[i..][1..] == frames[i + 1..];
  }

  lemma NoFramesLeft(c: ClientState, frames: seq<Frame>)
    ensures IngestAll(c, frames[|frames|..]) == (c, 0)
  {
  }

  class StateDigestSyncClient {
    const gateway: LocalSyncGateway
    const principal: Text
    var durableCursor: int
    var durableState: seq<VisibleTxBundle>
    var candidateCursor: int
    var candidateState: seq<VisibleTxBundle>
    var pollValidatedCursor: int
    var seenTxIds: set<Text>
    var needsPoll: bool
    var decisions: seq<Decision>
    var calls: map<nat, Call>          // calls awaiting a pull

    function State(): ClientState
      reads this
    {
      ClientState(durableCursor, durableState, candidateCursor, candidateState, pollValidatedCursor, seenTxIds,
        needsPoll, decisions)
    }

    function Id(): Identity {
      Identity(gateway.policy, principal, gateway.graphSpaceId)
    }

    ghost function World(): ClientRuns.World
      reads this, gateway.eventStore
    {
      ClientRuns.World(gateway.eventStore.Abs(), State(), calls)
    }

    constructor (gateway: LocalSyncGateway, principal: Text)
      ensures this.gateway == gateway && this.principal == principal && State() == FreshClient && calls == map[]
    {
      this.gateway, this.principal := gateway, principal;
      durableCursor, durableState, candidateCursor, candidateState := 0, [], 0, [];
      pollValidatedCursor, seenTxIds, needsPoll, decisions := 0, {}, false, [];
      calls := map[];
    }

    method InitializeDurableState(state: seq<VisibleTxBundle>, cursor: int)
      modifies this
      ensures State() == Initialize(old(State()), state, cursor)
    {
      durableState, durableCursor := state, cursor;
      candidateState, candidateCursor := state, cursor;
      pollValidatedCursor := cursor;
      CollectSeenIds(state);
      needsPoll := false;
    }

    /** `seenTxIds` becomes the ids of `state`. */
    method CollectSeenIds(state: seq<VisibleTxBundle>)
      modifies this`seenTxIds
      ensures seenTxIds == IdsOf(state)
    {
      seenTxIds := {};
      for i := 0 to |state|
        invariant seenTxIds == IdsOf(state[..i])
      {
        seenTxIds := seenTxIds + {state[i].txBundle.txId};
        assert state[..i + 1] == state[..i] + [state[i]];
      }
      assert state[..|state|] == state;
    }

    method RecordDecision(reason: DecisionReason)
      modifies this`decisions
      ensures State() == Record(old(State()), reason)
    {
      decisions := decisions + [Decision(reason, durableCursor, candidateCursor, pollValidatedCursor)];
    }

    method TriggerPollRecovery(reason: DecisionReason)
      modifies this`needsPoll, this`decisions
      ensures State() == ClientSpec.TriggerPollRecovery(old(State()), reason)
    {
      needsPoll := true;
      RecordDecision(reason);
    }

    method RollbackCandidateToDurable()
      modifies this`candidateCursor, this`candidateState, this`seenTxIds
      ensures State() == Rollback(old(State()))
    {
      candidateCursor := durableCursor;
      candidateState := durableState;
      CollectSeenIds(candidateState);
    }

    /** One frame of the loop: ignored, applied, or the start of a poll recovery. */
    method IngestFrame(frame: Frame) returns (decision: Verdict)
      modifies this`candidateState, this`candidateCursor, this`seenTxIds, this`needsPoll, this`decisions
      ensures decision == Evaluate(old(State()), frame) && State() == IngestOne(old(State()), frame)
    {
      hide IdsOf;
      decision := Evaluate(State(), frame);
      RecordDecision(TransportDeltaDecision);
      match decision
      case IgnoreDuplicateOrStale =>
        RecordDecision(TransportDeltaIgnored);
        RecordDecision(SubscribeDeduped);
      case RequiresPollResync(reason) =>
        RecordDecision(TransportResyncRequired);
        TriggerPollRecovery(ResyncDecision(reason));
      case ApplySafe =>
        candidateState := candidateState + [frame.entry];
        seenTxIds := seenTxIds + {frame.entry.txBundle.txId};
        candidateCursor := frame.entry.principalCursor;
    }

    method IngestSubscribeTxBundles(frames: seq<Frame>) returns (accepted: nat, requiresPoll: bool)
      modifies this`candidateState, this`candidateCursor, this`seenTxIds, this`needsPoll, this`decisions
      ensures (State(), accepted) == Ingest(old(State()), frames) && requiresPoll == needsPoll
      ensures requiresPoll <==> old(needsPoll) || exists i | 0 <= i < |frames| :: Breaks(old(State()), frames, i)
    {
      hide IngestAll, IngestOne, Evaluate, IdsOf;
      if needsPoll {
        RecordDecision(SubscribeBlockedRequiresPoll);
        return 0, true;
      }
      RunAsksIff(State(), frames);
      accepted := 0;
      var i := 0;
      ghost var all := IngestAll(State(), frames);
      while i < |frames|
        invariant i <= |frames|
        invariant var rest := IngestAll(State(), frames[i..]); (rest.0, accepted + rest.1) == all
        decreases |frames| - i
      {
        IngestAllStep(State(), frames, i);
        var decision := IngestFrame(frames[i]);
        if decision.RequiresPollResync? {
          requiresPoll := needsPoll;
          return;
        }
        if decision.ApplySafe? {
          accepted := accepted + 1;
        }
        i := i + 1;
      }
      NoFramesLeft(State(), frames);
      requiresPoll := needsPoll;
    }

    // ---------------------------------------------------------------- the steps of a call

    /** One pull of a call under way. */
    method PullForCall(id: nat)
      requires gateway.Ready()
      modifies this`calls
      ensures World() == Step(Id(), old(World()), PullFor(id))
    {
      hide Pull, VisibleLog, UniqueIds, Events, Count, IndexOf, LastEntries;
      if id !in calls || calls[id].Done() { return; }
      var call := calls[id];
      var page, after := gateway.SyncPull(principal, call.cursor, Some(call.limitTx), None);
      if |page| == 0 {
        call := call.(ended := true);
      } else {
        call := call.(txs := call.txs + page, cursor := after, rounds := call.rounds + 1);
      }
      calls := calls[id := call];
    }

    /** `validateAndCommit` after its pulls. */
    method CommitPolled(call: Call) returns (committed: bool)
      modifies this
      ensures (State(), committed) == FinishValidation(old(State()), principal, gateway.graphSpaceId, call)
      ensures calls == old(calls)
    {
      hide StateDigest;
      var polledState := durableState + call.txs;
      pollValidatedCursor := call.cursor;
      if pollValidatedCursor < candidateCursor {
        TriggerPollRecovery(PollNotCaughtUp);
        RollbackCandidateToDurable();
        return false;
      }
      var candidateDigest := StateDigest(principal, gateway.graphSpaceId, candidateState, candidateCursor);
      var polledDigest := StateDigest(principal, gateway.graphSpaceId, polledState, call.cursor);
      if !needsPoll && candidateCursor == call.cursor && candidateDigest == polledDigest {
        durableCursor := candidateCursor;
        durableState := candidateState;
        RecordDecision(DurableCursorAdvanced);
        return true;
      }
      TriggerPollRecovery(DigestMismatch);
      RecordDecision(ValidationFailedRequiresPoll);
      RollbackCandidateToDurable();
      return false;
    }

    /** `recoverByFullPoll` after its pulls. */
    method AdoptPolled(call: Call)
      modifies this
      ensures State() == FinishRecovery(old(State()), call) && calls == old(calls)
    {
      candidateState := call.txs;
      candidateCursor := call.cursor;
      pollValidatedCursor := call.cursor;
      CollectSeenIds(candidateState);
      needsPoll := false;
      RecordDecision(PollRecoveryCompleted);
    }

    /** Anything that can happen while a call awaits a pull. */
    method Perform(action: Action)
      requires gateway.Ready()
      modifies this, gateway.eventStore
      ensures gateway.Ready() && World() == Step(Id(), old(World()), action)
    {
      hide VisibleLog, UniqueIds, Events, Count, IndexOf, LastEntries, Arrive, Ingest, FinishValidation, FinishRecovery,
        PullOnce;
      match action
      case OtherAppends(b, ctx) => AppendArrival(gateway.eventStore, b, ctx);
      case IngestFrames(frames) => var _, _ := IngestSubscribeTxBundles(frames);
      case StartValidation(id, limitTx) =>
        if id !in calls {
          calls := calls[id := NewCall(Validation, durableCursor, limitTx)];
        }
      case StartRecovery(id, limitTx) =>
        if id !in calls {
          RecordDecision(PollRecoveryTriggered);
          calls := calls[id := NewCall(Recovery, 0, limitTx)];
        }
      case PullFor(id) => PullForCall(id);
      case FinishCall(id) =>
        if id in calls && calls[id].Done() {
          var call := calls[id];
          calls := calls - {id};
          if call.kind == Recovery {
            AdoptPolled(call);
          } else {
            var _ := CommitPolled(call);
          }
        }
    }

    method PerformAll(actions: seq<Action>)
      requires gateway.Ready()
      modifies this, gateway.eventStore
      ensures gateway.Ready() && World() == Run(Id(), old(World()), actions)
    {
      hide VisibleLog, UniqueIds, Events, Count, IndexOf, LastEntries, Step;
      for i := 0 to |actions|
        invariant gateway.Ready() && World() == Run(Id(), old(World()), actions[..i])
      {
        RunSnoc(Id(), old(World()), actions[..i], actions[i]);
        assert actions[..i + 1] == actions[..i] + [actions[i]];
        Perform(actions[i]);
      }
      assert actions[..|actions|] == actions;
    }

    // ---------------------------------------------------------------- whole calls

    /** Pulls until one is empty or 256 have been made; `others` is what happens before each pull
        and, last, before the call goes on. */
    method CollectFromCursor(id: nat, others: seq<seq<Action>>) returns (ghost pulls: nat)
      requires gateway.Ready() && id in calls && calls[id].rounds == 0 && !calls[id].ended
      requires |others| == MAX_ROUNDS + 2 && forall i | 0 <= i < |others| :: LeavesAlone(others[i], id)
      modifies this, gateway.eventStore
      ensures gateway.Ready() && pulls <= MAX_ROUNDS + 1
      ensures World() == Run(Id(), old(World()), PullsAmid(id, others, pulls) + others[pulls])
      ensures id in calls && calls[id].Done() && calls[id].kind == old(calls[id].kind)
    {
      hide VisibleLog, UniqueIds, Events, Count, IndexOf, LastEntries, Step, PullOnce;
      pulls := 0;
      var round := 0;
      RunNothing(Id(), World());
      while id in calls && !calls[id].Done()
        invariant 0 <= round <= MAX_ROUNDS + 1 && pulls == round
        invariant gateway.Ready() && World() == Run(Id(), old(World()), PullsAmid(id, others, pulls))
        invariant id in calls && calls[id].kind == old(calls[id].kind)
        invariant if calls[id].ended then round <= calls[id].rounds + 1 <= MAX_ROUNDS else calls[id].rounds == round
        decreases MAX_ROUNDS + 1 - round
      {
        ghost var w := World();
        LeftAlone(Id(), w, others[round], id);
        PerformAll(others[round]);
        RunConcat(Id(), old(World()), PullsAmid(id, others, pulls), others[round]);
        RunSnoc(Id(), old(World()), PullsAmid(id, others, pulls) + others[round], PullFor(id));
        PullCounts(Id(), World(), id);
        PullForCall(id);
        round := round + 1;
        pulls := pulls + 1;
      }
      LeftAlone(Id(), World(), others[round], id);
      PerformAll(others[round]);
      RunConcat(Id(), old(World()), PullsAmid(id, others, pulls), others[round]);
    }

    /** A whole validation, whatever happens during its awaits: the run of its own steps amid the
        others', and its answer is that of its last step. */
    method ValidateAndCommit(id: nat, limitTx: int, others: seq<seq<Action>>)
      returns (committed: bool, requiresPoll: bool, cursor: int, ghost pulls: nat)
      requires gateway.Ready() && id !in calls
      requires |others| == MAX_ROUNDS + 2 && forall i | 0 <= i < |others| :: LeavesAlone(others[i], id)
      modifies this, gateway.eventStore
      ensures gateway.Ready() && pulls <= MAX_ROUNDS + 1
      ensures
        var polling := [StartValidation(id, limitTx)] + PullsAmid(id, others, pulls);
        var amid := Run(Id(), old(World()), polling + others[pulls]);
        && id in amid.calls && amid.calls[id].Done()
        && World() == Step(Id(), amid, FinishCall(id))
        && committed == FinishValidation(amid.client, principal, gateway.graphSpaceId, amid.calls[id]).1
      ensures requiresPoll == !committed && cursor == durableCursor
    {
      hide VisibleLog, UniqueIds, Events, Count, IndexOf, LastEntries, FinishValidation, PullOnce, PullsAmid, Run;
      calls := calls[id := NewCall(Validation, durableCursor, limitTx)];
      ghost var started := World();
      pulls := CollectFromCursor(id, others);
      AfterStart(Id(), old(World()), StartValidation(id, limitTx), PullsAmid(id, others, pulls), others[pulls]);
      var call := calls[id];
      calls := calls - {id};
      committed := CommitPolled(call);
      requiresPoll, cursor := !committed, durableCursor;
    }

    /** A whole recovery, likewise. */
    method RecoverByFullPoll(id: nat, limitTx: int, others: seq<seq<Action>>)
      returns (cursor: int, digest: Text, ghost pulls: nat)
      requires gateway.Ready() && id !in calls
      requires |others| == MAX_ROUNDS + 2 && forall i | 0 <= i < |others| :: LeavesAlone(others[i], id)
      modifies this, gateway.eventStore
      ensures gateway.Ready() && pulls <= MAX_ROUNDS + 1
      ensures
        var polling := [StartRecovery(id, limitTx)] + PullsAmid(id, others, pulls);
        var amid := Run(Id(), old(World()), polling + others[pulls]);
        && id in amid.calls && amid.calls[id].Done()
        && World() == Step(Id(), amid, FinishCall(id))
      ensures cursor == candidateCursor
      ensures digest == StateDigest(principal, gateway.graphSpaceId, candidateState, candidateCursor)
    {
      hide VisibleLog, UniqueIds, Events, Count, IndexOf, LastEntries, FinishRecovery, PullOnce, PullsAmid, Run,
        StateDigest;
      RecordDecision(PollRecoveryTriggered);
      calls := calls[id := NewCall(Recovery, 0, limitTx)];
      pulls := CollectFromCursor(id, others);
      AfterStart(Id(), old(World()), StartRecovery(id, limitTx), PullsAmid(id, others, pulls), others[pulls]);
      var call := calls[id];
      calls := calls - {id};
      AdoptPolled(call);
      digest := StateDigest(principal, gateway.graphSpaceId, candidateState, candidateCursor);
      cursor := candidateCursor;
    }
  }

  lemma RunNothing(x: Identity, w: World)
    ensures Run(x, w, []) == w
  {
  }

  /** A pull of a call that is not done counts as a round or ends it. */
  lemma PullCounts(x: Identity, w: World, id: nat)
    requires id in w.calls && !w.calls[id].Done()
    ensures var w' := Step(x, w, PullFor(id));
      && id in w'.calls && w'.calls[id].kind == w.calls[id].kind
      && (if w'.calls[id].ended then w'.calls[id].rounds == w.calls[id].rounds
          else w'.calls[id].rounds == w.calls[id].rounds + 1)
  {
    hide Pull, VisibleLog;
  }

  lemma AfterStart(x: Identity, w: World, start: Action, pulls: seq<Action>, last: seq<Action>)
    ensures Run(x, Step(x, w, start), pulls + last) == Run(x, w, [start] + pulls + last)
  {
    hide Step;
    assert [start] + pulls + last == [start] + (pulls + last);
    RunConcat(x, w, [start], pulls + last);
    RunSnoc(x, w, [], start);
    assert [] + [start] == [start];
    RunNothing(x, w);
  }
}
