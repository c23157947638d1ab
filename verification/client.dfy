/** The digest-validated sync client as a state machine: what each of its operations does to the
    durable and the candidate side. */
module ClientSpec {
  import opened Texts
  import opened EventLog
  import opened Digest
  import opened Paging

  datatype DecisionReason =
    | DurableCursorAdvanced | SubscribeDeduped | SubscribeGapDetected | SubscribeOutOfOrder
    | SubscribeInvalidTxBundle | SubscribeBlockedRequiresPoll | PollNotCaughtUp | DigestMismatch
    | ValidationFailedRequiresPoll | PollRecoveryTriggered | PollRecoveryCompleted
    | TransportDeltaDecision | TransportDeltaIgnored | TransportResyncRequired

  datatype Decision = Decision(reason: DecisionReason, durableCursor: int, candidateCursor: int,
      pollValidatedCursor: int)

  /** A subscribe frame's bundle as it arrives: anything with the right shape, or garbage. */
  datatype Frame = Garbled(principalCursor: int) | Frame(entry: VisibleTxBundle)

  datatype ResyncReason = InvalidTxBundle | CursorGap | CursorRegression | TxIdMismatch
  datatype Verdict = ApplySafe | IgnoreDuplicateOrStale | RequiresPollResync(reason: ResyncReason)

  datatype ClientState = ClientState(
    durableCursor: int, durableState: seq<VisibleTxBundle>,
    candidateCursor: int, candidateState: seq<VisibleTxBundle>,
    pollValidatedCursor: int, seenTxIds: set<Text>, needsPoll: bool, decisions: seq<Decision>)

  const FreshClient := ClientState(0, [], 0, [], 0, {}, false, [])

  function IdsOf(state: seq<VisibleTxBundle>): set<Text> {
    set e | e in state :: e.txBundle.txId
  }

  function Record(c: ClientState, reason: DecisionReason): ClientState {
    c.(decisions := c.decisions + [Decision(reason, c.durableCursor, c.candidateCursor, c.pollValidatedCursor)])
  }

  function TriggerPollRecovery(c: ClientState, reason: DecisionReason): ClientState {
    Record(c.(needsPoll := true), reason)
  }

  function Rollback(c: ClientState): ClientState {
    c.(candidateCursor := c.durableCursor, candidateState := c.durableState, seenTxIds := IdsOf(c.durableState))
  }

  /** `initializeDurableState`. */
  function Initialize(c: ClientState, state: seq<VisibleTxBundle>, cursor: int): ClientState {
    ClientState(cursor, state, cursor, state, cursor, IdsOf(state), false, c.decisions)
  }

  // ---------------------------------------------------------------- subscribe

  function Evaluate(c: ClientState, f: Frame): Verdict {
    if f.Garbled? || f.entry.txBundle.txId == [] then RequiresPollResync(InvalidTxBundle)
    else
      var seen := f.entry.txBundle.txId in c.seenTxIds;
      if f.entry.principalCursor < c.candidateCursor then
        if seen then IgnoreDuplicateOrStale else RequiresPollResync(CursorRegression)
      else if f.entry.principalCursor == c.candidateCursor then
        if seen then IgnoreDuplicateOrStale else RequiresPollResync(TxIdMismatch)
      else if f.entry.principalCursor != c.candidateCursor + 1 then RequiresPollResync(CursorGap)
      else if seen then RequiresPollResync(TxIdMismatch)
      else ApplySafe
  }

  function ResyncDecision(reason: ResyncReason): DecisionReason {
    match reason
    case InvalidTxBundle => SubscribeInvalidTxBundle
    case CursorGap => SubscribeGapDetected
    case _ => SubscribeOutOfOrder
  }

  /** One frame: ignored, applied to the candidate side, or the start of a poll recovery. */
  function IngestOne(c: ClientState, f: Frame): ClientState {
    var logged := Record(c, TransportDeltaDecision);
    match Evaluate(c, f)
    case IgnoreDuplicateOrStale => Record(Record(logged, TransportDeltaIgnored), SubscribeDeduped)
    case RequiresPollResync(reason) =>
      TriggerPollRecovery(Record(logged, TransportResyncRequired), ResyncDecision(reason))
    case ApplySafe =>
      logged.(candidateState := logged.candidateState + [f.entry],
              seenTxIds := logged.seenTxIds + {f.entry.txBundle.txId},
              candidateCursor := f.entry.principalCursor)
  }

  /** Frames in order until one asks for a resync; `accepted` counts the applied ones. */
  function IngestAll(c: ClientState, frames: seq<Frame>): (r: (ClientState, nat))
    decreases |frames|
  {
    if frames == [] then (c, 0)
    else
      var next := IngestOne(c, frames[0]);
      match Evaluate(c, frames[0])
      case RequiresPollResync(_) => (next, 0)
      case IgnoreDuplicateOrStale => IngestAll(next, frames[1..])
      case ApplySafe => var rest := IngestAll(next, frames[1..]); (rest.0, rest.1 + 1)
  }

  function Ingest(c: ClientState, frames: seq<Frame>): (ClientState, nat) {
    if c.needsPoll then (Record(c, SubscribeBlockedRequiresPoll), 0) else IngestAll(c, frames)
  }

  // ---------------------------------------------------------------- polling

  const MAX_ROUNDS := 256

  datatype CallKind = Validation | Recovery

  /** A validation or recovery awaiting its pulls: where it started, what it has collected, and
      whether a pull has come back empty. */
  datatype Call = Call(
    kind: CallKind, from: int, limitTx: int, txs: seq<VisibleTxBundle>, cursor: int, rounds: nat, ended: bool) {

    /** No further pull will be made. */
    predicate Done() { ended || rounds >= MAX_ROUNDS }
  }

  function NewCall(kind: CallKind, from: int, limitTx: int): Call {
    Call(kind, from, limitTx, [], from, 0, false)
  }

  /** `validateAndCommit` up to its first await. */
  function BeginValidation(c: ClientState, limitTx: int): Call {
    NewCall(Validation, c.durableCursor, limitTx)
  }

  /** `recoverByFullPoll` up to its first await. */
  function BeginRecovery(c: ClientState, limitTx: int): (ClientState, Call) {
    (Record(c, PollRecoveryTriggered), NewCall(Recovery, 0, limitTx))
  }

  /** One pull of the collection, on the visible log as that pull finds it. */
  function PullOnce(call: Call, v: Log): Call {
    if call.Done() then call
    else
      var (page, after) := Pull(v, call.cursor, call.limitTx, DEFAULT_LIMIT_BYTES);
      if page == [] then call.(ended := true)
      else call.(txs := call.txs + page, cursor := after, rounds := call.rounds + 1)
  }

  /** The rest of `validateAndCommit`, on the client as it is by then. */
  function FinishValidation(c: ClientState, principal: Text, space: Text, call: Call): (ClientState, bool) {
    var after := call.cursor;
    var polled := c.(pollValidatedCursor := after);
    if after < c.candidateCursor then (Rollback(TriggerPollRecovery(polled, PollNotCaughtUp)), false)
    else if !c.needsPoll && c.candidateCursor == after
            && StateDigest(principal, space, c.candidateState, c.candidateCursor) ==
              StateDigest(principal, space, c.durableState + call.txs, after) then
      var committed := polled.(durableCursor := c.candidateCursor, durableState := c.candidateState);
      (Record(committed, DurableCursorAdvanced), true)
    else (Rollback(Record(TriggerPollRecovery(polled, DigestMismatch), ValidationFailedRequiresPoll)), false)
  }

  /** The rest of `recoverByFullPoll`. */
  function FinishRecovery(c: ClientState, call: Call): ClientState {
    Record(c.(candidateState := call.txs, candidateCursor := call.cursor, pollValidatedCursor := call.cursor,
              seenTxIds := IdsOf(call.txs), needsPoll := false), PollRecoveryCompleted)
  }
}
