/** Runs of the projection engine: every operation is cut at its awaits, and what other writers
    append and the engine's other operations run in between. */
module ProjectionRuns {
  import opened Texts
  import opened EventLog
  import opened StoreSpec
  import opened Visibility
  import opened ProjectionSpec

  datatype Operation = PlainRebuild | IncrementalRead | SnapshotRebuild | Compaction

  /** A projection and how many transactions were replayed for it. */
  datatype Result = Result(snapshot: Snapshot, applied: nat)

  /** A projection handed out, with the number of transactions its principal saw when asking. */
  datatype Answer = Answer(principal: Text, result: Result, asked: nat)

  /** What a call awaits: the load of the latest snapshot, the read of the log, the save of an
      envelope, or its own end, when it caches its result. */
  datatype Stage =
    | Loading
    | Reading(from: nat, nodeCount: nat)
    | Saving(envelope: Envelope, result: Option<Result>)
    | Caching(done: Result)

  datatype Call = Call(op: Operation, principal: Text, stage: Stage)

  /** `asked` records how much the principal of each call saw when it was made. */
  datatype World = World(store: Store, engine: Engine, calls: map<nat, Call>, asked: map<nat, nat>)

  // ---------------------------------------------------------------- the steps of a call

  /** A call up to its first await. */
  function Begin(x: Setting, e: Engine, op: Operation, principal: Text): Call {
    var key := x.CacheKey(principal);
    var stage := match op
      case PlainRebuild => Reading(0, 0)
      case IncrementalRead =>
        if key in e.cache then Reading(e.cache[key].cursor, e.cache[key].nodeCount) else Reading(0, 0)
      case _ => Loading;
    Call(op, principal, stage)
  }

  /** After the load: a rebuild goes on from its seed, compaction ends if there is nothing
      to do. */
  function Loaded(x: Setting, latest: Option<Envelope>, call: Call): Option<Call> {
    if call.op == Compaction then
      var saved :- Compacted(x, latest, call.principal);
      Some(call.(stage := Saving(saved, None)))
    else
      var (from, nodeCount) := Seed(x, latest, call.principal);
      Some(call.(stage := Reading(from, nodeCount)))
  }

  /** After the read. */
  function Read(x: Setting, v: Log, call: Call): Call
    requires call.stage.Reading?
  {
    var (s, applied) := RebuildInternal(v, call.principal, call.stage.from, call.stage.nodeCount);
    var result := Result(s, applied);
    var envelope := EnvelopeOf(x, call.principal, s);
    call.(stage := if call.op == SnapshotRebuild then Saving(envelope, Some(result)) else Caching(result))
  }

  /** One more await of a call is over: the engine, the call if it goes on, and its result if not. */
  function Proceeded(x: Setting, log: Log, e: Engine, call: Call): (Engine, Option<Call>, Option<Result>) {
    match call.stage
    case Loading => (e, Loaded(x, Latest(x, e, call.principal), call), None)
    case Reading(_, _) => (e, Some(Read(x, x.Seen(log, call.principal), call)), None)
    case Saving(envelope, result) =>
      var saved := e.(snapshots := e.snapshots[x.ScopeKey(call.principal) := envelope]);
      (saved, if result.Some? then Some(call.(stage := Caching(result.value))) else None, None)
    case Caching(result) =>
      (e.(cache := e.cache[x.CacheKey(call.principal) := result.snapshot]), None, Some(result))
  }

  // ---------------------------------------------------------------- runs

  datatype Action =
    | OtherAppends(b: TxBundle, ctx: IdempotencyCtx)
    | StartCall(call: nat, op: Operation, principal: Text)
    | Proceed(call: nat)
    | SaveUncompacted(principal: Text, snapshotId: Text, cursor: nat)
    | Invalidate(space: Text)

  /** A world with one more call under way. */
  function At(w: World, id: nat, call: Call): World {
    w.(calls := w.calls[id := call])
  }

  /** One action, and the projection it hands out, if any.  `SaveUncompacted` is another holder of the
      snapshot store saving the plain projection of some prefix; a start under a handle in use, and a
      step of a call that is not under way, do nothing. */
  function Step(x: Setting, w: World, a: Action): (World, Option<Answer>) {
    match a
    case OtherAppends(b, ctx) => (w.(store := Arrive(w.store, b, ctx)), None)
    case StartCall(id, op, p) =>
      if id in w.calls then (w, None)
      else (At(w, id, Begin(x, w.engine, op, p)).(asked := w.asked[id := |x.Seen(w.store.log, p)|]), None)
    case Proceed(id) =>
      if id !in w.calls then (w, None)
      else
        var (e, call, result) := Proceeded(x, w.store.log, w.engine, w.calls[id]);
        var asked := if id in w.asked then w.asked[id] else 0;
        (w.(engine := e, calls := if call.Some? then w.calls[id := call.value] else w.calls - {id}),
         if result.Some? then Some(Answer(w.calls[id].principal, result.value, asked)) else None)
    case SaveUncompacted(p, id, cursor) =>
      if cursor > |x.Seen(w.store.log, p)| then (w, None)
      else
        var saved := Envelope(id, SNAPSHOT_VERSION_V1, x.graphSpaceId, p, cursor, Compute(p, cursor, cursor));
        (w.(engine := w.engine.(snapshots := w.engine.snapshots[x.ScopeKey(p) := saved])), None)
    case Invalidate(space) => (if space == x.graphSpaceId then w.(engine := w.engine.(cache := map[])) else w, None)
  }

  function Noted(answers: seq<Answer>, a: Option<Answer>): seq<Answer> {
    if a.Some? then answers + [a.value] else answers
  }

  /** A run: where it ends, and the projections handed out, in order. */
  function Run(x: Setting, w: World, actions: seq<Action>): (World, seq<Answer>) {
    if actions == [] then (w, [])
    else
      var (w', answers) := Run(x, w, actions[..|actions| - 1]);
      var (end, answer) := Step(x, w', actions[|actions| - 1]);
      (end, Noted(answers, answer))
  }

  lemma {:induction false} RunConcat(x: Setting, w: World, a: seq<Action>, b: seq<Action>)
    ensures var (w1, answers) := Run(x, w, a);
      Run(x, w, a + b) == (Run(x, w1, b).0, answers + Run(x, w1, b).1)
  {
    hide Step;
    if b == [] {
      assert a + b == a;
      var answers := Run(x, w, a).1;
      assert answers + [] == answers;
    } else {
      assert (a + b)[..|a + b| - 1] == a + b[..|b| - 1];
      RunConcat(x, w, a, b[..|b| - 1]);
      var (w1, answers) := Run(x, w, a);
      var (w2, more) := Run(x, w1, b[..|b| - 1]);
      var answer := Step(x, w2, b[|b| - 1]).1;
      assert Noted(answers + more, answer) == answers + Noted(more, answer);
    }
  }

  lemma RunSnoc(x: Setting, w: World, actions: seq<Action>, a: Action)
    ensures var (w1, answers) := Run(x, w, actions);
      var (w2, answer) := Step(x, w1, a);
      Run(x, w, actions + [a]) == (w2, Noted(answers, answer))
  {
    hide Step;
    assert (actions + [a])[..|actions|] == actions;
  }

  // ---------------------------------------------------------------- the invariant

  /** A result is the full projection of what the principal saw at some moment since asking. */
  ghost predicate ResultRight(x: Setting, log: Log, principal: Text, r: Result, asked: nat) {
    var n := r.snapshot.cursor;
    && asked <= n <= |x.Seen(log, principal)| && r.applied <= n
    && r.snapshot == FullRebuild(x.Seen(log, principal)[..n], principal) == Compute(principal, n, n)
  }

  ghost predicate AnswerRight(x: Setting, log: Log, a: Answer) {
    ResultRight(x, log, a.principal, a.result, a.asked)
  }

  /** An envelope that stands for a prefix of what the principal sees. */
  ghost predicate EnvelopeRight(x: Setting, log: Log, principal: Text, saved: Envelope) {
    && saved.cursorAt <= |x.Seen(log, principal)|
    && Normalize(x, saved.payload, saved.cursorAt, principal) == Compute(principal, saved.cursorAt, saved.cursorAt)
  }

  ghost predicate CallRight(x: Setting, log: Log, call: Call, asked: nat) {
    && asked <= |x.Seen(log, call.principal)|
    && match call.stage
       case Loading => true
       case Reading(from, nodeCount) => nodeCount == from <= |x.Seen(log, call.principal)|
       case Saving(envelope, result) =>
         && EnvelopeRight(x, log, call.principal, envelope)
         && (result.Some? ==> ResultRight(x, log, call.principal, result.value, asked))
       case Caching(result) => ResultRight(x, log, call.principal, result, asked)
  }

  ghost predicate CallsRight(x: Setting, w: World) {
    forall id | id in w.calls :: id in w.asked && CallRight(x, w.store.log, w.calls[id], w.asked[id])
  }

  ghost predicate Right(x: Setting, w: World) {
    Faithful(x, w.store.log, w.engine) && CallsRight(x, w)
  }

  lemma GrowthKeepsResult(x: Setting, log: Log, more: Log, principal: Text, r: Result, asked: nat)
    requires ResultRight(x, log, principal, r, asked) && log <= more
    ensures ResultRight(x, more, principal, r, asked)
  {
    hide Compute, FullRebuild;
    VisibleGrows(log, more, Viewer(x.policy, principal));
    var n := r.snapshot.cursor;
    assert x.Seen(more, principal)[..n] == x.Seen(log, principal)[..n];
  }

  lemma GrowthKeepsCall(x: Setting, log: Log, more: Log, call: Call, asked: nat)
    requires CallRight(x, log, call, asked) && log <= more
    ensures CallRight(x, more, call, asked)
  {
    hide Normalize, Compute, ResultRight;
    VisibleGrows(log, more, Viewer(x.policy, call.principal));
    match call.stage
    case Saving(_, result) =>
      if result.Some? {
        GrowthKeepsResult(x, log, more, call.principal, result.value, asked);
      }
    case Caching(result) => GrowthKeepsResult(x, log, more, call.principal, result, asked);
    case _ =>
  }

  lemma BeginRight(x: Setting, log: Log, e: Engine, op: Operation, principal: Text)
    requires Faithful(x, log, e)
    ensures CallRight(x, log, Begin(x, e, op, principal), |x.Seen(log, principal)|)
  {
    hide Normalize;
    assert CachedRight(x, log, e, principal);
  }

  lemma LoadedRight(x: Setting, log: Log, e: Engine, call: Call, asked: nat)
    requires Faithful(x, log, e) && CallRight(x, log, call, asked)
    ensures var next := Loaded(x, Latest(x, e, call.principal), call);
      next.Some? ==> CallRight(x, log, next.value, asked) && next.value.principal == call.principal
  {
    hide Normalize, Compute, Compact, NeedsCompaction, Reusable, ResultRight;
    assert StoredRight(x, log, e, call.principal);
    var latest := Latest(x, e, call.principal);
    if latest.Some? {
      var n := latest.value.cursorAt;
      CompactNormalizes(x, call.principal, n);
      ComputeFields(call.principal, n, n);
    }
  }

  /** Wherever the seed came from, and however the log grew since, the read gives the full projection
      of what the principal sees by then. */
  lemma ReadRight(x: Setting, log: Log, call: Call, asked: nat)
    requires CallRight(x, log, call, asked) && call.stage.Reading? && Countable(log)
    ensures CallRight(x, log, Read(x, x.Seen(log, call.principal), call), asked)
  {
    hide Normalize, Compute, Compact, ReadAfter;
    var v, p := x.Seen(log, call.principal), call.principal;
    ReadsAll(x, log, p, 0);
    ReadsAll(x, log, p, call.stage.from);
    ComputeFields(p, |v|, |v|);
    CompactNormalizes(x, p, |v|);
    assert v[..|v|] == v;
  }

  lemma ProceededRight(x: Setting, log: Log, e: Engine, call: Call, asked: nat)
    requires Faithful(x, log, e) && CallRight(x, log, call, asked) && Countable(log)
    ensures var (e', next, result) := Proceeded(x, log, e, call);
      && Faithful(x, log, e')
      && (next.Some? ==> CallRight(x, log, next.value, asked))
      && (result.Some? ==> ResultRight(x, log, call.principal, result.value, asked))
  {
    hide Faithful, Normalize, Compute, FullRebuild, Loaded, Read;
    match call.stage
    case Loading => LoadedRight(x, log, e, call, asked);
    case Reading(_, _) => ReadRight(x, log, call, asked);
    case Saving(envelope, result) => StorePut(x, log, e, call.principal, envelope);
    case Caching(result) => CachePut(x, log, e, call.principal, result.snapshot);
  }

  lemma StepFaithful(x: Setting, w: World, a: Action)
    requires Right(x, w) && Countable(w.store.log)
    ensures var (w', answer) := Step(x, w, a);
      && Right(x, w') && w.store.log <= w'.store.log
      && (answer.Some? ==> AnswerRight(x, w'.store.log, answer.value))
  {
    hide Faithful, CallRight, ResultRight, Proceeded, Begin, Normalize, Compute, Arrive;
    match a
    case OtherAppends(b, ctx) =>
      ArriveGrows(w.store, b, ctx);
      var more := Arrive(w.store, b, ctx).log;
      GrowthFaithful(x, w.store.log, more, w.engine);
      forall id | id in w.calls ensures id in w.asked && CallRight(x, more, w.calls[id], w.asked[id]) {
        GrowthKeepsCall(x, w.store.log, more, w.calls[id], w.asked[id]);
      }
    case StartCall(id, op, p) => BeginRight(x, w.store.log, w.engine, op, p);
    case Proceed(id) =>
      if id in w.calls {
        ProceededRight(x, w.store.log, w.engine, w.calls[id], w.asked[id]);
      }
    case SaveUncompacted(p, id, cursor) => SaveFaithful(x, w, p, id, cursor);
    case Invalidate(space) =>
      StoredAreRight(x, w.store.log, w.engine);
      InvalidateFaithful(x, w.store.log, w.engine);
  }

  lemma SaveFaithful(x: Setting, w: World, p: Text, id: Text, cursor: nat)
    requires Faithful(x, w.store.log, w.engine)
    ensures Faithful(x, w.store.log, Step(x, w, SaveUncompacted(p, id, cursor)).0.engine)
  {
    hide Faithful, Normalize, Compute;
    CompactNormalizes(x, p, cursor);
    if cursor <= |x.Seen(w.store.log, p)| {
      StorePut(x, w.store.log, w.engine, p,
        Envelope(id, SNAPSHOT_VERSION_V1, x.graphSpaceId, p, cursor, Compute(p, cursor, cursor)));
    }
  }

  lemma StoredAreRight(x: Setting, log: Log, e: Engine)
    requires Faithful(x, log, e)
    ensures forall p :: StoredRight(x, log, e, p)
  {
    hide Normalize, Compute;
    forall p ensures StoredRight(x, log, e, p) {
      assert CachedRight(x, log, e, p) && StoredRight(x, log, e, p);
    }
  }

  lemma InvalidateFaithful(x: Setting, log: Log, e: Engine)
    requires forall p :: StoredRight(x, log, e, p)
    ensures Faithful(x, log, e.(cache := map[]))
  {
    hide Normalize, Compute;
    forall p ensures StoredRight(x, log, e.(cache := map[]), p) {
      assert StoredRight(x, log, e, p);
    }
  }

  lemma StepGrows(x: Setting, w: World, a: Action)
    ensures w.store.log <= Step(x, w, a).0.store.log
  {
    hide Proceeded, Begin, Arrive;
    if a.OtherAppends? {
      ArriveGrows(w.store, a.b, a.ctx);
    }
  }

  /** Over every interleaving of the parts of reads, rebuilds, seeded rebuilds and compactions of
      however many principals, of appends, foreign saves and invalidations: every projection handed
      out is the full rebuild of a visible log its principal had between asking and being answered. */
  lemma {:induction false} EveryProjectionIsFull(x: Setting, w: World, actions: seq<Action>)
    requires Right(x, w) && Countable(Run(x, w, actions).0.store.log)
    ensures var (end, answers) := Run(x, w, actions);
      && Right(x, end) && w.store.log <= end.store.log
      && forall a | a in answers :: AnswerRight(x, end.store.log, a)
  {
    hide Right, Step, ResultRight;
    if actions != [] {
      var init, last := actions[..|actions| - 1], actions[|actions| - 1];
      var (w1, answers) := Run(x, w, init);
      StepGrows(x, w1, last);
      EveryProjectionIsFull(x, w, init);
      StepFaithful(x, w1, last);
      forall a | a in answers ensures AnswerRight(x, Step(x, w1, last).0.store.log, a) {
        GrowthKeepsResult(x, w1.store.log, Step(x, w1, last).0.store.log, a.principal, a.result, a.asked);
      }
    }
  }

  /** A new engine over an empty snapshot store is right, whatever the log already holds. */
  lemma StartFaithful(x: Setting, store: Store)
    ensures Right(x, World(store, Engine(map[], map[]), map[], map[]))
  {
  }

  /** An invalidation forgets whatever the cache had got wrong: as long as the stored snapshots and the
      calls under way are right, every projection handed out after it is a full one again. */
  lemma InvalidationHeals(x: Setting, w: World, actions: seq<Action>)
    requires forall p :: StoredRight(x, w.store.log, w.engine, p)
    requires CallsRight(x, w)
    requires Countable(Run(x, Step(x, w, Invalidate(x.graphSpaceId)).0, actions).0.store.log)
    ensures var (end, answers) := Run(x, Step(x, w, Invalidate(x.graphSpaceId)).0, actions);
      && Right(x, end)
      && forall a | a in answers :: AnswerRight(x, end.store.log, a)
  {
    hide Run, CallRight, ResultRight, StoredRight, Faithful;
    InvalidateFaithful(x, w.store.log, w.engine);
    EveryProjectionIsFull(x, Step(x, w, Invalidate(x.graphSpaceId)).0, actions);
  }

  // ---------------------------------------------------------------- calls nothing comes between

  function Alone(id: nat, op: Operation, principal: Text): seq<Action> {
    [StartCall(id, op, principal), Proceed(id), Proceed(id), Proceed(id), Proceed(id)]
  }

  lemma RunAlone(x: Setting, w: World, id: nat, op: Operation, principal: Text)
    ensures var (w1, a1) := Step(x, w, StartCall(id, op, principal));
      var (w2, a2) := Step(x, w1, Proceed(id));
      var (w3, a3) := Step(x, w2, Proceed(id));
      var (w4, a4) := Step(x, w3, Proceed(id));
      var (w5, a5) := Step(x, w4, Proceed(id));
      Run(x, w, Alone(id, op, principal)) == (w5, Noted(Noted(Noted(Noted(Noted([], a1), a2), a3), a4), a5))
  {
    hide Step;
    var start, go := StartCall(id, op, principal), Proceed(id);
    RunNothing(x, w);
    RunSnoc(x, w, [], start);
    assert [] + [start] == [start];
    RunSnoc(x, w, [start], go);
    assert [start] + [go] == [start, go];
    RunSnoc(x, w, [start, go], go);
    assert [start, go] + [go] == [start, go, go];
    RunSnoc(x, w, [start, go, go], go);
    assert [start, go, go] + [go] == [start, go, go, go];
    RunSnoc(x, w, [start, go, go, go], go);
    assert [start, go, go, go] + [go] == Alone(id, op, principal);
  }

  lemma RunNothing(x: Setting, w: World)
    ensures Run(x, w, []) == (w, [])
  {
  }

  lemma OneAnswer(a: Answer)
    ensures Noted([], Some(a)) == [a]
  {
  }

  /** The world in which a call has just been made. */
  function Asked(x: Setting, w: World, id: nat, p: Text): World {
    w.(asked := w.asked[id := |x.Seen(w.store.log, p)|])
  }

  lemma ProceededCall(x: Setting, w: World, id: nat, call: Call)
    requires id !in w.calls && id in w.asked
    ensures var (e, next, result) := Proceeded(x, w.store.log, w.engine, call);
      Step(x, At(w, id, call), Proceed(id)) ==
        (if next.Some? then At(w.(engine := e), id, next.value) else w.(engine := e),
         if result.Some? then Some(Answer(call.principal, result.value, w.asked[id])) else None)
    ensures Step(x, w, Proceed(id)) == (w, None)
  {
    hide Proceeded;
    assert w.calls[id := call] - {id} == w.calls;
    var next := Proceeded(x, w.store.log, w.engine, call).1;
    if next.Some? {
      assert w.calls[id := call][id := next.value] == w.calls[id := next.value];
    }
  }

  /** A call nothing comes between is the operation done at once: a rebuild. */
  lemma UninterruptedRebuild(x: Setting, w: World, id: nat, p: Text)
    requires id !in w.calls
    ensures var v, started := x.Seen(w.store.log, p), Asked(x, w, id, p);
      var (e, s) := Rebuild(x, w.store.log, w.engine, p);
      Run(x, w, Alone(id, PlainRebuild, p)) ==
        (started.(engine := e), [Answer(p, Result(s, ReadAfter(v, 0)), |v|)])
  {
    hide VisibleLog, Compute, ReadAfter, Run;
    RunAlone(x, w, id, PlainRebuild, p);
    ReadThenCached(x, Asked(x, w, id, p), id, Begin(x, w.engine, PlainRebuild, p));
  }

  lemma ReadThenCached(x: Setting, w: World, id: nat, call: Call)
    requires id !in w.calls && id in w.asked && call.stage.Reading? && call.op != SnapshotRebuild
    ensures var (s, applied) :=
        RebuildInternal(x.Seen(w.store.log, call.principal), call.principal, call.stage.from, call.stage.nodeCount);
      var (w1, a1) := Step(x, At(w, id, call), Proceed(id));
      var (w2, a2) := Step(x, w1, Proceed(id));
      && w2 == w.(engine := w.engine.(cache := w.engine.cache[x.CacheKey(call.principal) := s]))
      && a1 == None && a2 == Some(Answer(call.principal, Result(s, applied), w.asked[id]))
      && Step(x, w2, Proceed(id)) == (w2, None)
      && Noted([], a2) == [a2.value]
  {
    hide VisibleLog, RebuildInternal, Step;
    ProceededCall(x, w, id, call);
    var next := Read(x, x.Seen(w.store.log, call.principal), call);
    ProceededCall(x, w, id, next);
    var cached := w.engine.cache[x.CacheKey(call.principal) := next.stage.done.snapshot];
    ProceededCall(x, w.(engine := w.engine.(cache := cached)), id, next);
  }

  /** An incremental read. */
  lemma UninterruptedIncremental(x: Setting, w: World, id: nat, p: Text)
    requires id !in w.calls
    ensures var v, key, started := x.Seen(w.store.log, p), x.CacheKey(p), Asked(x, w, id, p);
      var (e, s) := Incremental(x, w.store.log, w.engine, p);
      var applied := ReadAfter(v, if key in w.engine.cache then w.engine.cache[key].cursor else 0);
      Run(x, w, Alone(id, IncrementalRead, p)) == (started.(engine := e), [Answer(p, Result(s, applied), |v|)])
  {
    hide VisibleLog, ReadAfter, Run;
    RunAlone(x, w, id, IncrementalRead, p);
    ReadThenCached(x, Asked(x, w, id, p), id, Begin(x, w.engine, IncrementalRead, p));
  }

  /** A rebuild seeded from a snapshot. */
  lemma UninterruptedSnapshotRebuild(x: Setting, w: World, id: nat, p: Text)
    requires id !in w.calls
    ensures var v, started := x.Seen(w.store.log, p), Asked(x, w, id, p);
      var (e, s, applied) := RebuildWithSnapshot(x, w.store.log, w.engine, p);
      Run(x, w, Alone(id, SnapshotRebuild, p)) == (started.(engine := e), [Answer(p, Result(s, applied), |v|)])
  {
    hide VisibleLog, RebuildInternal, Run, Seed, EnvelopeOf;
    RunAlone(x, w, id, SnapshotRebuild, p);
    var started, start := Asked(x, w, id, p), Begin(x, w.engine, SnapshotRebuild, p);
    ProceededCall(x, started, id, start);
    var loaded := Loaded(x, Latest(x, w.engine, p), start).value;
    ProceededCall(x, started, id, loaded);
    var read := Read(x, x.Seen(w.store.log, p), loaded);
    ProceededCall(x, started, id, read);
    var (e, saved, _) := Proceeded(x, w.store.log, w.engine, read);
    ProceededCall(x, started.(engine := e), id, saved.value);
    OneAnswer(Answer(p, read.stage.result.value, started.asked[id]));
  }

  /** A compaction. */
  lemma UninterruptedCompaction(x: Setting, w: World, id: nat, p: Text)
    requires id !in w.calls
    ensures var started := Asked(x, w, id, p);
      Run(x, w, Alone(id, Compaction, p)) == (started.(engine := CompactSnapshots(x, w.engine, p).0), [])
  {
    hide VisibleLog, Run, Compacted;
    RunAlone(x, w, id, Compaction, p);
    var started, start := Asked(x, w, id, p), Begin(x, w.engine, Compaction, p);
    ProceededCall(x, started, id, start);
    var loaded := Loaded(x, Latest(x, w.engine, p), start);
    if loaded.Some? {
      ProceededCall(x, started, id, loaded.value);
      ProceededCall(x, started.(engine := CompactSnapshots(x, w.engine, p).0), id, start);
    }
  }
}
