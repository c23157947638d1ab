/** The kernel over a store other writers append to while a command is being resolved. */
module Kernel {
  import opened Texts
  import opened Json
  import opened EventLog
  import opened StoreSpec
  import opened Stores
  import opened Visibility
  import opened KernelSpec
  import opened Shipping
  import opened Receipts

  /** Appends of other writers, in order. */
  function AppendEach(s: Store, arrivals: seq<(TxBundle, IdempotencyCtx)>): Store {
    if arrivals == [] then s
    else
      var last := arrivals[|arrivals| - 1];
      Append(AppendEach(s, arrivals[..|arrivals| - 1]), last.0, last.1, None).0
  }

  /** A whole execution: resolve on `s`, then what arrived meanwhile, then the append. */
  function Executed(s: Store, c: Command, authorization: Effect, arrivals: seq<(TxBundle, IdempotencyCtx)>)
    : (Store, Outcome)
  {
    match Prepare(s.log, c, authorization)
    case Rejected(reason) =>
      var early := reason == MalformedCommand || reason == InvalidBaseRevision;
      (if early then s else AppendEach(s, arrivals), Failed(reason))
    case Ready(ctx) => Append(AppendEach(s, arrivals), c.Bundle(), ctx, None)
  }

  lemma AppendEachStep(s: Store, arrivals: seq<(TxBundle, IdempotencyCtx)>, i: nat)
    requires i < |arrivals|
    ensures AppendEach(s, arrivals[..i + 1]) ==
      Append(AppendEach(s, arrivals[..i]), arrivals[i].0, arrivals[i].1, None).0
  {
    assert arrivals[..i + 1][..i] == arrivals[..i];
  }

  lemma {:induction false} ArrivalsGrow(s: Store, arrivals: seq<(TxBundle, IdempotencyCtx)>)
    requires NonEmptyTxs(s.log)
    ensures s.log <= AppendEach(s, arrivals).log && NonEmptyTxs(AppendEach(s, arrivals).log)
  {
    hide Head, ReceiptFor;
    if arrivals != [] {
      ArrivalsGrow(s, arrivals[..|arrivals| - 1]);
    }
  }

  /** A refused command is answered without a trace: only what others appended meanwhile is new, and
      masked or denied is all a well-formed command with a known base learns. */
  lemma RefusedNeverAppends(s: Store, c: Command, authorization: Effect, arrivals: seq<(TxBundle, IdempotencyCtx)>)
    requires authorization != Allow
    ensures var (s', o) := Executed(s, c, authorization, arrivals);
      && (s' == s || s' == AppendEach(s, arrivals))
      && o == Failed(
           if c.Malformed() then MalformedCommand
           else if c.NamesBase() && TokenPosition(s.log, c.requireBaseRevision.value).None? then InvalidBaseRevision
           else if authorization == Mask then NotFoundGeneric
           else PermissionDenied)
  {
    hide ResolveRevisionTokenToCursor, TokenPosition, PayloadHash, AppendEach;
    if c.NamesBase() {
      ResolveIsHead(s.log, c.requireBaseRevision.value);
    }
  }

  /** A command is malformed exactly when one of its four names is empty or its payload is one of the
      values JavaScript takes for false; it is then refused before anything else happens. */
  lemma MalformedIff(s: Store, c: Command, authorization: Effect, arrivals: seq<(TxBundle, IdempotencyCtx)>)
    ensures var (s', o) := Executed(s, c, authorization, arrivals);
      var refused := c.graphSpaceId == [] || c.commandId == [] || c.actorId == [] || c.idempotencyKey == []
        || c.payload in [Absent, Null, Bool(false), String([]), Number(Lit("0")), NonFinite(Lit("NaN"))];
      && (refused ==> s' == s && o == Failed(MalformedCommand))
      && (!refused && authorization == Allow && (c.requireBaseRevision.None? || c.requireBaseRevision.value == []) ==>
            (s', o) == Append(AppendEach(s, arrivals), TxBundle(c.commandId, [], [c.payload]),
                              IdempotencyCtx(c.actorId, c.idempotencyKey, PayloadHash(c), None), None))
  {
    hide ResolveRevisionTokenToCursor, PayloadHash, AppendEach, Append;
  }

  /** Under a fresh slot an execution commits exactly when the command is well formed, allowed and,
      if it names a base, that base was the end of the log and nobody appended since; then its
      transaction is the only one added to theirs. */
  lemma ExecuteCommitsIff(s: Store, c: Command, authorization: Effect, arrivals: seq<(TxBundle, IdempotencyCtx)>)
    requires NonEmptyTxs(s.log) && c.CommandSlot() !in AppendEach(s, arrivals).idempotency
    ensures var (s', o) := Executed(s, c, authorization, arrivals);
      var others := AppendEach(s, arrivals).log;
      var n := |others|;
      && (o.Committed? <==>
            !c.Malformed() && authorization == Allow
            && (c.NamesBase() ==> TokenPosition(s.log, c.requireBaseRevision.value) == Some(|s.log|) && n == |s.log|))
      && (if o.Committed?
          then s'.log == others + [TxBundle(c.commandId, [], [c.payload])] && o == Committed(ReceiptAt(s'.log, n))
          else s'.log <= others)
  {
    hide ResolveRevisionTokenToCursor, TokenPosition, PayloadHash, AppendEach, ReceiptFor, Count;
    ArrivalsGrow(s, arrivals);
    var others := AppendEach(s, arrivals).log;
    assert others[..|others|] == others && (others + [c.Bundle()])[..|others|] == others;
    if c.NamesBase() {
      ResolveIsHead(s.log, c.requireBaseRevision.value);
      var at := TokenPosition(s.log, c.requireBaseRevision.value);
      if at.Some? {
        assert others[..at.value] == s.log[..at.value];
        if Head(others[..at.value]) == Head(others[..|others|]) {
          HeadInjective(others, at.value, |others|);
        }
      }
    }
  }

  class KernelMinimalImpl {
    const eventStore: InMemoryLocalEventStore

    constructor (eventStore: InMemoryLocalEventStore)
      ensures this.eventStore == eventStore
    {
      this.eventStore := eventStore;
    }

    method ResolveRevision(token: Text) returns (cursor: Option<Cursor>)
      requires eventStore.Valid()
      ensures cursor == ResolveRevisionTokenToCursor(token, IndexOf(eventStore.log))
      ensures var p := TokenPosition(eventStore.log, token);
        cursor == if p.Some? then Some(Head(eventStore.log[..p.value])) else None
    {
      hide Events, Count, LastEntries, IndexOf, FindEntry, TokenPosition;
      ResolveIsHead(eventStore.log, token);
      if token == REVISION_ROOT_TOKEN { return Some(Cursor(0, 0)); }
      if !(TX_TOKEN_PREFIX <= token) { return None; }
      var txId := token[|TX_TOKEN_PREFIX|..];
      if |txId| == 0 { return None; }
      var entry := FindInIndex(eventStore, txId);
      if entry.None? { return None; }
      cursor := Some(Cursor(entry.value.meta.end, entry.value.graph.end));
    }

    method OthersAppend(arrivals: seq<(TxBundle, IdempotencyCtx)>)
      requires eventStore.Valid()
      modifies eventStore
      ensures eventStore.Valid() && eventStore.Abs() == AppendEach(old(eventStore.Abs()), arrivals)
    {
      hide Events, Count, IndexOf, LastEntries, Append;
      for i := 0 to |arrivals|
        invariant eventStore.Valid() && eventStore.Abs() == AppendEach(old(eventStore.Abs()), arrivals[..i])
      {
        var _ := eventStore.AppendTx(arrivals[i].0, arrivals[i].1, None);
        AppendEachStep(old(eventStore.Abs()), arrivals, i);
      }
      assert arrivals[..|arrivals|] == arrivals;
    }

    method Execute(c: Command, authorization: Effect, arrivals: seq<(TxBundle, IdempotencyCtx)>) returns (o: Outcome)
      requires eventStore.Valid()
      modifies eventStore
      ensures eventStore.Valid() && (eventStore.Abs(), o) == Executed(old(eventStore.Abs()), c, authorization, arrivals)
    {
      hide Events, Count, IndexOf, LastEntries, Append, AppendEach, ResolveRevisionTokenToCursor, PayloadHash;
      if |c.graphSpaceId| == 0 || |c.commandId| == 0 || |c.actorId| == 0 || |c.idempotencyKey| == 0
        || Falsy(c.payload) {
        return Failed(MalformedCommand);
      }
      var requiredBaseCursor: Option<Cursor> := None;
      if c.requireBaseRevision.Some? && |c.requireBaseRevision.value| > 0 {
        var resolved := ResolveRevision(c.requireBaseRevision.value);
        if resolved.None? { return Failed(InvalidBaseRevision); }
        requiredBaseCursor := resolved;
      }
      OthersAppend(arrivals);
      if authorization != Allow {
        o := ToAuthorizationError(authorization);
        return;
      }
      var ctx := IdempotencyCtx(c.actorId, c.idempotencyKey, PayloadHash(c), requiredBaseCursor);
      o := eventStore.AppendTx(TxBundle(c.commandId, [], [c.payload]), ctx, None);
    }

    method ToAuthorizationError(authorization: Effect) returns (o: Outcome)
      requires authorization != Allow
      ensures o == Failed(if authorization.Mask? then NotFoundGeneric else PermissionDenied)
    {
      if authorization.Mask? { return Failed(NotFoundGeneric); }
      return Failed(PermissionDenied);
    }
  }
}
