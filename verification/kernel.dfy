/** The kernel: base-revision tokens as compare-and-swap over the log, for any number of writers
    whose resolve and append steps interleave. */
module KernelSpec {
  import opened Texts
  import opened Json
  import opened JsonParser
  import opened Canonical
  import opened EventLog
  import opened StoreSpec
  import opened Shipping
  import opened Visibility

  const REVISION_ROOT_TOKEN: Text := Lit("rev:root")
  const TX_TOKEN_PREFIX: Text := Lit("rev:tx:")
  const PAYLOAD_KEY: Text := Lit("payload")
  const BASE_KEY: Text := Lit("requireBaseRevision")

  // ---------------------------------------------------------------- revision tokens

  function RevisionTokenForHead(index: seq<TxIndexEntry>): Text {
    if index == [] then REVISION_ROOT_TOKEN else TX_TOKEN_PREFIX + index[|index| - 1].txId
  }

  function ResolveRevisionTokenToCursor(token: Text, index: seq<TxIndexEntry>): Option<Cursor> {
    if token == REVISION_ROOT_TOKEN then Some(Cursor(0, 0))
    else if !(TX_TOKEN_PREFIX <= token) then None
    else
      var txId := token[|TX_TOKEN_PREFIX|..];
      if txId == [] then None
      else
        var entry :- FindEntry(index, txId);
        Some(Cursor(entry.meta.end, entry.graph.end))
  }

  /** How tokens are written. */
  lemma TokensAre(log: Log)
    ensures RevisionTokenForHead(IndexOf(log)) ==
      if log == [] then Lit("rev:root") else Lit("rev:tx:") + log[|log| - 1].txId
  {
    if log != [] {
      IndexOfAt(log, |log| - 1);
    }
  }

  /** The length of the log up to and including the first transaction with an id. */
  function PositionAfter(log: Log, txId: Text): (p: Option<nat>)
    ensures p.Some? ==> 0 < p.value <= |log| && log[p.value - 1].txId == txId
  {
    if log == [] then None
    else
      var earlier := PositionAfter(log[..|log| - 1], txId);
      if earlier.Some? then earlier else if log[|log| - 1].txId == txId then Some(|log|) else None
  }

  /** The position of the log a token names: the start, or right after a transaction. */
  function TokenPosition(log: Log, token: Text): (p: Option<nat>)
    ensures p.Some? ==> p.value <= |log|
  {
    if token == REVISION_ROOT_TOKEN then Some(0)
    else if TX_TOKEN_PREFIX <= token && token != TX_TOKEN_PREFIX then PositionAfter(log, token[|TX_TOKEN_PREFIX|..])
    else None
  }

  lemma {:induction false} FindEntrySnoc(index: seq<TxIndexEntry>, e: TxIndexEntry, txId: Text)
    ensures FindEntry(index + [e], txId) ==
      if FindEntry(index, txId).Some? then FindEntry(index, txId) else if e.txId == txId then Some(e) else None
  {
    if index == [] {
      assert [e][1..] == [];
    } else {
      assert (index + [e])[1..] == index[1..] + [e];
      FindEntrySnoc(index[1..], e, txId);
    }
  }

  lemma RangeEnd(before: nat, count: nat)
    ensures RangeAfter(before, count).end == before + count
  {
  }

  /** The index entry found for an id ends at the head right after its first transaction. */
  lemma {:induction false} FoundEntryEnds(log: Log, txId: Text)
    ensures var p, entry := PositionAfter(log, txId), FindEntry(IndexOf(log), txId);
      && (p.Some? <==> entry.Some?)
      && (p.Some? ==> Cursor(entry.value.meta.end, entry.value.graph.end) == Head(log[..p.value]))
  {
    hide FindEntry, RangeAfter, Count;
    if log == [] {
      NoEntry(txId);
    } else {
      var init, last := log[..|log| - 1], log[|log| - 1];
      assert log[..|log|] == log;
      CountStep(log, |init|, Meta);
      CountStep(log, |init|, Graph);
      FoundEntryEnds(init, txId);
      FindEntrySnoc(IndexOf(init), EntryFor(init, last), txId);
      RangeEnd(Count(init, Meta), |last.metaEvents|);
      RangeEnd(Count(init, Graph), |last.graphEvents|);
      var p := PositionAfter(log, txId);
      if p.Some? {
        assert log[..p.value] == if p.value == |log| then log else init[..p.value];
      }
    }
  }

  lemma NoEntry(txId: Text)
    ensures FindEntry(IndexOf([]), txId) == None
  {
  }

  /** Resolving a token gives the head the log had at the position the token names. */
  lemma ResolveIsHead(log: Log, token: Text)
    ensures ResolveRevisionTokenToCursor(token, IndexOf(log)) ==
      match TokenPosition(log, token)
      case None => None
      case Some(p) => Some(Head(log[..p]))
  {
    hide FindEntry, PositionAfter, REVISION_ROOT_TOKEN, TX_TOKEN_PREFIX;
    if token != REVISION_ROOT_TOKEN && TX_TOKEN_PREFIX <= token && token != TX_TOKEN_PREFIX {
      FoundEntryEnds(log, token[|TX_TOKEN_PREFIX|..]);
    }
  }

  lemma {:induction false} PositionStable(log: Log, more: Log, txId: Text)
    requires PositionAfter(log, txId).Some?
    ensures PositionAfter(log + more, txId) == PositionAfter(log, txId)
  {
    if more == [] {
      assert log + more == log;
    } else {
      assert (log + more)[..|log + more| - 1] == log + more[..|more| - 1];
      PositionStable(log, more[..|more| - 1], txId);
    }
  }

  /** A token keeps naming the same position however the log grows. */
  lemma TokenStable(log: Log, more: Log, token: Text)
    requires log <= more && TokenPosition(log, token).Some?
    ensures TokenPosition(more, token) == TokenPosition(log, token)
  {
    hide PositionAfter, REVISION_ROOT_TOKEN, TX_TOKEN_PREFIX;
    assert more == log + more[|log|..];
    if token != REVISION_ROOT_TOKEN {
      PositionStable(log, more[|log|..], token[|TX_TOKEN_PREFIX|..]);
    }
  }

  lemma {:induction false} PositionFound(log: Log, txId: Text)
    ensures PositionAfter(log, txId).Some? <==> HasTx(log, txId)
  {
    if log != [] {
      var init, last := log[..|log| - 1], log[|log| - 1];
      PositionFound(init, txId);
      HasTxUnfold(init, last, txId);
      assert log == init + [last];
    }
  }

  lemma TokenShapes(txId: Text)
    ensures TX_TOKEN_PREFIX + txId != REVISION_ROOT_TOKEN && TX_TOKEN_PREFIX <= TX_TOKEN_PREFIX + txId
    ensures (TX_TOKEN_PREFIX + txId)[|TX_TOKEN_PREFIX|..] == txId
    ensures TX_TOKEN_PREFIX + txId == TX_TOKEN_PREFIX <==> txId == []
  {
    assert TX_TOKEN_PREFIX[4] != REVISION_ROOT_TOKEN[4];
    assert (TX_TOKEN_PREFIX + txId)[4] == TX_TOKEN_PREFIX[4];
  }

  /** The token of the head resolves to the head exactly when the last transaction's id is not
      empty and no earlier transaction has it. */
  lemma TokenRoundTripIff(log: Log)
    requires NonEmptyTxs(log)
    ensures ResolveRevisionTokenToCursor(RevisionTokenForHead(IndexOf(log)), IndexOf(log)) == Some(Head(log)) <==>
            log == [] || (log[|log| - 1].txId != [] && !HasTx(log[..|log| - 1], log[|log| - 1].txId))
  {
    hide REVISION_ROOT_TOKEN, TX_TOKEN_PREFIX, ResolveRevisionTokenToCursor, NonEmptyTxs, Count;
    if log == [] {
      RootResolves([]);
    } else {
      var init, last := log[..|log| - 1], log[|log| - 1];
      IndexOfAt(log, |init|);
      TokenShapes(last.txId);
      ResolveIsHead(log, TX_TOKEN_PREFIX + last.txId);
      PositionFound(init, last.txId);
      assert log[..|log|] == log;
      if p :| 0 < p <= |log| && Some(p) == PositionAfter(log, last.txId) && Head(log[..p]) == Head(log) {
        HeadInjective(log, p, |log|);
      }
    }
  }

  lemma RootResolves(log: Log)
    ensures ResolveRevisionTokenToCursor(REVISION_ROOT_TOKEN, IndexOf(log)) == Some(Head([]))
  {
  }

  // ---------------------------------------------------------------- commands

  datatype Command = Command(graphSpaceId: Text, commandId: Text, actorId: Text, idempotencyKey: Text, payload: Payload,
      requireBaseRevision: Option<Text>) {
    function Bundle(): TxBundle { TxBundle(commandId, [], [payload]) }

    function CommandSlot(): Slot { Slot(actorId, idempotencyKey) }

    /** An empty token is no token. */
    predicate NamesBase() { requireBaseRevision.Some? && requireBaseRevision.value != [] }

    predicate Malformed() {
      graphSpaceId == [] || commandId == [] || actorId == [] || idempotencyKey == [] || Falsy(payload)
    }
  }

  predicate Falsy(v: Json) {
    || v.Absent? || v.Null? || v == Bool(false) || v == String([]) || v == Number(Lit("0"))
      || v == NonFinite(Lit("NaN"))
  }

  function HashedCommand(c: Command): (v: Payload)
    ensures v.Object?
  {
    KeysDiffer();
    TwoFieldsAreData(Field(PAYLOAD_KEY, c.payload), BaseField(c));
    Object([Field(PAYLOAD_KEY, c.payload), BaseField(c)])
  }

  function BaseField(c: Command): Field {
    Field(BASE_KEY, if c.requireBaseRevision.Some? then String(c.requireBaseRevision.value) else Absent)
  }

  lemma TwoFieldsAreData(a: Field, b: Field)
    requires a.key != b.key && IsData(a.value) && IsData(b.value)
    ensures IsData(Object([a, b]))
  {
  }

  /** The payload hash of a command, kept as the text it is computed from. */
  function PayloadHash(c: Command): Text {
    CanonicalStringify(HashedCommand(c)).GetOr([])
  }

  /** Two commands have one payload hash exactly when their payloads mean the same and they name
      the same base. */
  lemma PayloadHashesAgree(a: Command, b: Command)
    requires !a.Malformed() && !b.Malformed()
    ensures PayloadHash(a) == PayloadHash(b) <==>
      MeaningOf(a.payload) == MeaningOf(b.payload) && a.requireBaseRevision == b.requireBaseRevision
  {
    hide PAYLOAD_KEY, BASE_KEY;
    KeysDiffer();
    HashedMeaning(a);
    HashedMeaning(b);
    SerializeOutcome(HashedCommand(a));
    SerializeOutcome(HashedCommand(b));
    UniquelyDecodable(HashedCommand(a), HashedCommand(b));
    var ma, mb := HashedMap(a), HashedMap(b);
    if ma == mb {
      assert ma[PAYLOAD_KEY] == mb[PAYLOAD_KEY];
      assert BASE_KEY in ma <==> BASE_KEY in mb;
      assert BASE_KEY in ma ==> ma[BASE_KEY] == mb[BASE_KEY];
    }
  }

  /** The hashed text reads back as an object of the payload and, if the command names one, the base. */
  lemma PayloadHashReads(c: Command) returns (r: Json, payload: Json)
    requires !c.Malformed()
    ensures ParseValue(PayloadHash(c)) == Some((r, [])) && r.Object?
    ensures Field(Lit("payload"), payload) in r.fields && ReadsAs(c.payload, payload, false)
    ensures c.requireBaseRevision.Some? ==>
      Field(Lit("requireBaseRevision"), String(c.requireBaseRevision.value)) in r.fields
    ensures forall f | f in r.fields ::
      f.key == Lit("payload") || (f.key == Lit("requireBaseRevision") && c.requireBaseRevision.Some?)
  {
    var v := HashedCommand(c);
    SerializeOutcome(v);
    r := ReaderInvertsPrinter(v);
    hide ReadsAs;
    KeysDiffer();
    payload := PrintedMember(v.fields, r, Field(PAYLOAD_KEY, c.payload));
    if c.requireBaseRevision.Some? {
      var base := PrintedMember(v.fields, r, BaseField(c));
      TextReads(c.requireBaseRevision.value, base);
    }
    forall f | f in r.fields
      ensures f.key == Lit("payload") || (f.key == Lit("requireBaseRevision") && c.requireBaseRevision.Some?)
    {
      OnlyMembers(v.fields, r, f);
    }
  }

  lemma TextReads(s: Text, y: Json)
    requires ReadsAs(String(s), y, false)
    ensures y == String(s)
  {
  }

  lemma PrintedMember(fields: seq<Field>, r: Json, g: Field) returns (y: Json)
    requires DistinctKeys(fields) && ReadsAs(Object(fields), r, false) && g in fields && !g.value.Absent?
    ensures r.Object? && Field(g.key, y) in r.fields && ReadsAs(g.value, y, false)
  {
    assert IsPrinted(g, false);
    var f :| f in r.fields && f.key == g.key;
    assert ReadFrom(fields, f, false);
    var h :| h in fields && h.key == f.key && IsPrinted(h, false) && ReadsAs(h.value, f.value, false);
    assert h == g;
    y := f.value;
    assert f == Field(g.key, y);
  }

  lemma OnlyMembers(fields: seq<Field>, r: Json, f: Field)
    requires ReadsAs(Object(fields), r, false) && f in r.fields
    ensures exists g | g in fields :: g.key == f.key && !g.value.Absent?
  {
    assert ReadFrom(fields, f, false);
    var g :| g in fields && g.key == f.key && IsPrinted(g, false) && ReadsAs(g.value, f.value, false);
    assert !g.value.Absent?;
  }

  lemma KeysDiffer()
    ensures PAYLOAD_KEY != BASE_KEY
  {
    assert |PAYLOAD_KEY| != |BASE_KEY|;
  }

  function HashedMap(c: Command): map<Text, Meaning> {
    var base := if c.requireBaseRevision.Some? then map[BASE_KEY := MString(c.requireBaseRevision.value)] else map[];
    base[PAYLOAD_KEY := MeaningOf(c.payload)]
  }

  lemma HashedMeaning(c: Command)
    requires !c.payload.Absent?
    ensures MeaningOf(HashedCommand(c)) == MObject(HashedMap(c))
  {
    hide PAYLOAD_KEY, BASE_KEY;
    var head, base := Field(PAYLOAD_KEY, c.payload), BaseField(c);
    assert HashedCommand(c).fields == [head] + [base] && [base] == [base] + [];
    MeaningOfCons(head, [base]);
    MeaningOfCons(base, []);
  }

  // ---------------------------------------------------------------- one execution

  datatype Prepared = Rejected(reason: Reason) | Ready(ctx: IdempotencyCtx)

  /** Everything `execute` does before the append: validation, resolving the base token against
      the log of that moment, and authorization. */
  function Prepare(log: Log, c: Command, authorization: Effect): Prepared {
    if c.Malformed() then Rejected(MalformedCommand)
    else
      var base := if c.NamesBase() then ResolveRevisionTokenToCursor(c.requireBaseRevision.value, IndexOf(log))
        else None;
      if c.NamesBase() && base.None? then Rejected(InvalidBaseRevision)
      else if authorization.Mask? then Rejected(NotFoundGeneric)
      else if authorization.Deny? then Rejected(PermissionDenied)
      else Ready(IdempotencyCtx(c.actorId, c.idempotencyKey, PayloadHash(c), base))
  }

  // ---------------------------------------------------------------- many writers

  /** A writer between its resolve step and its append step. */
  datatype Pending = Pending(command: Command, ctx: IdempotencyCtx)

  /** The store, the writers under way, and who wrote each transaction: a command, or someone
      appending directly. */
  datatype World = World(store: Store, pending: map<Text, Pending>, slots: seq<Slot>, authors: seq<Option<Command>>)

  datatype Action =
    | Resolve(writer: Text, command: Command, authorization: Effect)
    | AppendPending(writer: Text)
    | AppendDirectly(b: TxBundle, ctx: IdempotencyCtx, failAt: Option<FaultPoint>)

  function Written(w: World, b: TxBundle, ctx: IdempotencyCtx, failAt: Option<FaultPoint>,
                   author: Option<Command>): (World, Outcome)
  {
    var (store, o) := Append(w.store, b, ctx, failAt);
    if store.log == w.store.log then (w, o)
    else (w.(store := store, slots := w.slots + [ctx.IdemSlot()], authors := w.authors + [author]), o)
  }

  function Step(w: World, a: Action): (World, Option<Outcome>) {
    match a
    case Resolve(writer, c, authorization) =>
      (match Prepare(w.store.log, c, authorization)
       case Rejected(reason) => (w, Some(Failed(reason)))
       case Ready(ctx) => (w.(pending := w.pending[writer := Pending(c, ctx)]), None))
    case AppendPending(writer) =>
      if writer !in w.pending then (w, None)
      else
        var p := w.pending[writer];
        var (w', o) := Written(w, p.command.Bundle(), p.ctx, None, Some(p.command));
        (w'.(pending := w.pending - {writer}), Some(o))
    case AppendDirectly(b, ctx, failAt) =>
      var (w', o) := Written(w, b, ctx, failAt, None);
      (w', Some(o))
  }

  /** Transaction i, if a command naming a base wrote it, sits exactly where the base token points;
      the row of its slot holds its command's payload hash. */
  ghost predicate AuthorRight(w: World, i: nat)
    requires i < |w.authors| == |w.slots| == |w.store.log|
  {
    w.authors[i].Some? ==>
      var c := w.authors[i].value;
      && !c.Malformed() && w.store.log[i] == c.Bundle() && w.slots[i] == c.CommandSlot()
      && w.slots[i] in w.store.idempotency && w.store.idempotency[w.slots[i]].payloadHash == PayloadHash(c)
      && (c.NamesBase() ==> TokenPosition(w.store.log, c.requireBaseRevision.value) == Some(i))
  }

  /** A writer under way carries the head its token named, and the token still names it. */
  ghost predicate PendingRight(w: World, p: Pending) {
    var c := p.command;
    && !c.Malformed() && p.ctx.IdemSlot() == c.CommandSlot() && p.ctx.payloadHash == PayloadHash(c)
    && (c.NamesBase() ==>
          var at := TokenPosition(w.store.log, c.requireBaseRevision.value);
          at.Some? && p.ctx.requiredBaseCursor == Some(Head(w.store.log[..at.value])))
    && (!c.NamesBase() ==> p.ctx.requiredBaseCursor.None?)
  }

  ghost predicate Ordered(w: World) {
    && History(w.store, w.slots) && |w.authors| == |w.slots| == |w.store.log|
    && (forall i | 0 <= i < |w.authors| :: AuthorRight(w, i))
    && (forall writer | writer in w.pending :: PendingRight(w, w.pending[writer]))
  }

  lemma PrepareRight(w: World, c: Command, authorization: Effect)
    requires Prepare(w.store.log, c, authorization).Ready?
    ensures PendingRight(w, Pending(c, Prepare(w.store.log, c, authorization).ctx))
  {
    hide ResolveRevisionTokenToCursor, TokenPosition, PayloadHash, Count, IndexOf;
    if c.NamesBase() {
      ResolveIsHead(w.store.log, c.requireBaseRevision.value);
    }
  }

  /** A commit that carried a base cursor lies right after the transaction its token names. */
  lemma CommitIsAtToken(w: World, p: Pending)
    requires NonEmptyTxs(w.store.log) && PendingRight(w, p) && p.command.NamesBase()
    requires p.ctx.requiredBaseCursor.value == Head(w.store.log)
    ensures TokenPosition(w.store.log, p.command.requireBaseRevision.value) == Some(|w.store.log|)
  {
    hide TokenPosition, PayloadHash, Count, NonEmptyTxs;
    var log := w.store.log;
    assert log[..|log|] == log;
    HeadInjective(log, TokenPosition(log, p.command.requireBaseRevision.value).value, |log|);
  }

  lemma AuthorsStay(w: World, w': World, b: TxBundle)
    requires Ordered(w) && w'.store.log == w.store.log + [b]
    requires |w'.authors| == |w'.slots| == |w'.store.log| && w.authors <= w'.authors && w.slots <= w'.slots
    requires forall s | s in w.store.idempotency ::
      s in w'.store.idempotency && w'.store.idempotency[s] == w.store.idempotency[s]
    ensures forall i | 0 <= i < |w.authors| :: AuthorRight(w', i)
    ensures forall p: Pending | PendingRight(w, p) :: PendingRight(w', p)
  {
    hide TokenPosition, PayloadHash, Count, ReceiptFor;
    forall i | 0 <= i < |w.authors| ensures AuthorRight(w', i) {
      assert AuthorRight(w, i);
      if w.authors[i].Some? && w.authors[i].value.NamesBase() {
        TokenStable(w.store.log, w'.store.log, w.authors[i].value.requireBaseRevision.value);
      }
    }
    forall p: Pending | PendingRight(w, p) ensures PendingRight(w', p) {
      if p.command.NamesBase() {
        TokenStable(w.store.log, w'.store.log, p.command.requireBaseRevision.value);
        var at := TokenPosition(w.store.log, p.command.requireBaseRevision.value).value;
        assert w'.store.log[..at] == w.store.log[..at];
      }
    }
  }

  /** Any append, a writer's or a direct one, keeps the order. */
  lemma WrittenKeepsOrder(w: World, b: TxBundle, ctx: IdempotencyCtx, failAt: Option<FaultPoint>,
      author: Option<Command>)
    requires Ordered(w)
    requires author.Some? ==> b == author.value.Bundle() && PendingRight(w, Pending(author.value, ctx))
    ensures var (w', o) := Written(w, b, ctx, failAt, author);
      Ordered(w') && w.store.log <= w'.store.log && w'.pending == w.pending
  {
    hide TokenPosition, PayloadHash, Count, ReceiptFor, AuthorRight, PendingRight, History;
    var (w', o) := Written(w, b, ctx, failAt, author);
    if w'.store.log != w.store.log {
      AppendKeepsHistory(w.store, w.slots, b, ctx, failAt);
      NewSlotKeepsRows(w, b, ctx, failAt);
      AuthorsStay(w, w', b);
      if author.Some? {
        NewAuthorRight(w, ctx, failAt, author.value);
      } else {
        NoAuthorRight(w', |w.authors|);
      }
    }
  }

  lemma NoAuthorRight(w: World, i: nat)
    requires i < |w.authors| == |w.slots| == |w.store.log| && w.authors[i].None?
    ensures AuthorRight(w, i)
  {
  }

  lemma NewSlotKeepsRows(w: World, b: TxBundle, ctx: IdempotencyCtx, failAt: Option<FaultPoint>)
    requires Append(w.store, b, ctx, failAt).0.log != w.store.log
    ensures var s' := Append(w.store, b, ctx, failAt).0;
      && s'.log == w.store.log + [b]
      && forall s | s in w.store.idempotency :: s in s'.idempotency && s'.idempotency[s] == w.store.idempotency[s]
  {
    hide ReceiptFor;
  }

  lemma NewAuthorRight(w: World, ctx: IdempotencyCtx, failAt: Option<FaultPoint>, c: Command)
    requires Ordered(w) && PendingRight(w, Pending(c, ctx))
    requires Append(w.store, c.Bundle(), ctx, failAt).0.log != w.store.log
    ensures var w' := Written(w, c.Bundle(), ctx, failAt, Some(c)).0;
      |w'.authors| == |w'.slots| == |w'.store.log| && AuthorRight(w', |w.authors|)
  {
    hide TokenPosition, PayloadHash, Count, ReceiptFor, ReceiptAt;
    var w' := Written(w, c.Bundle(), ctx, failAt, Some(c)).0;
    if c.NamesBase() {
      CommitIsAtToken(w, Pending(c, ctx));
      TokenStable(w.store.log, w'.store.log, c.requireBaseRevision.value);
    }
  }

  /** One step of any writer keeps the order and never removes a transaction. */
  lemma StepKeepsOrder(w: World, a: Action)
    requires Ordered(w)
    ensures Ordered(Step(w, a).0) && w.store.log <= Step(w, a).0.store.log
  {
    hide TokenPosition, PayloadHash, Count, Written, AuthorRight, PendingRight, History, Prepare;
    match a
    case Resolve(writer, c, authorization) =>
      if Prepare(w.store.log, c, authorization).Ready? {
        PrepareRight(w, c, authorization);
      }
      OnlyPendingChanged(w, Step(w, a).0);
    case AppendPending(writer) =>
      if writer in w.pending {
        var p := w.pending[writer];
        WrittenKeepsOrder(w, p.command.Bundle(), p.ctx, None, Some(p.command));
        OnlyPendingChanged(Written(w, p.command.Bundle(), p.ctx, None, Some(p.command)).0, Step(w, a).0);
      }
    case AppendDirectly(b, ctx, failAt) => WrittenKeepsOrder(w, b, ctx, failAt, None);
  }

  /** When a writer's append step runs under a fresh slot, it commits exactly when it named no base
      or the log still ends where its token points; otherwise it is a revision mismatch. */
  lemma CommitsIffBaseIsHead(w: World, writer: Text)
    requires Ordered(w) && writer in w.pending && w.pending[writer].command.CommandSlot() !in w.store.idempotency
    ensures var c, n := w.pending[writer].command, |w.store.log|;
      var (w', o) := Step(w, AppendPending(writer));
      if !c.NamesBase() || TokenPosition(w.store.log, c.requireBaseRevision.value) == Some(n)
      then w'.store.log == w.store.log + [c.Bundle()] && o == Some(Committed(ReceiptAt(w'.store.log, n)))
      else w'.store == w.store && o == Some(Failed(RevisionMismatch))
  {
    hide TokenPosition, PayloadHash, ReceiptFor, Count;
    var p := w.pending[writer];
    assert PendingRight(w, p);
    var log := w.store.log;
    assert log[..|log|] == log && (log + [p.command.Bundle()])[..|log|] == log;
    assert p.ctx == IdempotencyCtx(p.command.actorId, p.command.idempotencyKey, p.ctx.payloadHash,
      p.ctx.requiredBaseCursor);
    if p.command.NamesBase() && p.ctx.requiredBaseCursor == Some(Head(log)) {
      CommitIsAtToken(w, p);
    }
  }

  lemma OnlyPendingChanged(w: World, w': World)
    requires w'.store == w.store && w'.slots == w.slots && w'.authors == w.authors
    requires |w.authors| == |w.slots| == |w.store.log|
    ensures forall i | 0 <= i < |w.authors| :: AuthorRight(w', i) == AuthorRight(w, i)
    ensures forall p: Pending :: PendingRight(w', p) == PendingRight(w, p)
  {
    hide TokenPosition, PayloadHash, Count;
  }

  function Run(w: World, actions: seq<Action>): World
    decreases |actions|
  {
    if actions == [] then w else Run(Step(w, actions[0]).0, actions[1..])
  }

  /** Compare-and-swap over every interleaving: a transaction committed by a command naming a base
      lies right after the transaction its token names, so no two such commits name one base; each
      idempotency slot commits once; and the log only grows. */
  lemma {:induction false} RunKeepsOrder(w: World, actions: seq<Action>)
    requires Ordered(w)
    ensures var w' := Run(w, actions);
      && Ordered(w') && w.store.log <= w'.store.log
      && (forall i | 0 <= i < |w'.authors| && w'.authors[i].Some? && w'.authors[i].value.NamesBase() ::
            TokenPosition(w'.store.log, w'.authors[i].value.requireBaseRevision.value) == Some(i))
      && (forall i, j | 0 <= i < j < |w'.slots| :: w'.slots[i] != w'.slots[j])
    decreases |actions|
  {
    hide TokenPosition, PayloadHash, Step, ReceiptFor;
    if actions == [] {
      forall i | 0 <= i < |w.authors| && w.authors[i].Some? && w.authors[i].value.NamesBase()
        ensures TokenPosition(w.store.log, w.authors[i].value.requireBaseRevision.value) == Some(i)
      {
        assert AuthorRight(w, i);
      }
    } else {
      StepKeepsOrder(w, actions[0]);
      RunKeepsOrder(Step(w, actions[0]).0, actions[1..]);
    }
  }

  lemma FreshWorldOrdered()
    ensures Ordered(World(EmptyStore, map[], [], []))
  {
  }

  /** At most one command naming a given base ever commits. */
  lemma OneCommitPerBase(w: World, i: nat, j: nat)
    requires Ordered(w) && i < |w.authors| && j < |w.authors| && w.authors[i].Some? && w.authors[j].Some?
    requires w.authors[i].value.NamesBase()
    requires w.authors[i].value.requireBaseRevision == w.authors[j].value.requireBaseRevision
    ensures i == j
  {
    hide TokenPosition, PayloadHash;
    assert AuthorRight(w, i) && AuthorRight(w, j);
  }

  /** A command under the slot of one that committed, whatever happened in between and whatever
      base it names: the same payload and base token replay the first receipt, anything else is
      refused, and the store does not change. */
  lemma RetryReplays(w: World, i: nat, c: Command, authorization: Effect)
    requires Ordered(w) && i < |w.authors| && w.authors[i].Some? && c.CommandSlot() == w.authors[i].value.CommandSlot()
    requires Prepare(w.store.log, c, authorization).Ready?
    ensures var first := w.authors[i].value;
      Append(w.store, c.Bundle(), Prepare(w.store.log, c, authorization).ctx, None) ==
        (w.store, if MeaningOf(c.payload) == MeaningOf(first.payload)
                     && c.requireBaseRevision == first.requireBaseRevision
                  then Committed(ReceiptAt(w.store.log, i)) else Failed(IdempotencyPayloadMismatch))
  {
    hide TokenPosition, PayloadHash, ReceiptFor, MeaningOf, ResolveRevisionTokenToCursor;
    assert AuthorRight(w, i);
    var ctx := Prepare(w.store.log, c, authorization).ctx;
    ReplayAfterCommit(w.store, w.slots, i, c.Bundle(), ctx, None);
    PayloadHashesAgree(c, w.authors[i].value);
  }
}
