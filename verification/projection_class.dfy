/** The projection engine and the in-memory snapshot store it is seeded from: calls that others, and
    the engine's own other calls, run into at every await. */
module Projection {
  import opened Texts
  import opened EventLog
  import opened StoreSpec
  import opened Stores
  import opened Visibility
  import opened Arrivals
  import opened ProjectionSpec
  import opened ProjectionRuns

  /** The snapshot store after one save. */
  function Saved(byScope: map<Text, Envelope>, envelope: Envelope): map<Text, Envelope> {
    if envelope.snapshotVersion != SNAPSHOT_VERSION_V1 then byScope
    else byScope[SnapshotKey(envelope.graphSpaceId, envelope.principalId) := envelope]
  }

  function SavedAll(byScope: map<Text, Envelope>, saves: seq<Envelope>): map<Text, Envelope> {
    if saves == [] then byScope else Saved(SavedAll(byScope, saves[..|saves| - 1]), saves[|saves| - 1])
  }

  predicate SavedFor(envelope: Envelope, space: Text, principal: Text) {
    envelope.snapshotVersion == SNAPSHOT_VERSION_V1 && envelope.graphSpaceId == space
      && envelope.principalId == principal
  }

  /** Two graph spaces whose keys can never meet. */
  predicate Separate(a: Text, b: Text) {
    !(a + SCOPE_SEPARATOR <= b + SCOPE_SEPARATOR) && !(b + SCOPE_SEPARATOR <= a + SCOPE_SEPARATOR)
  }

  lemma {:induction false} SavedUnder(saves: seq<Envelope>, space: Text, principal: Text)
    requires forall i | 0 <= i < |saves| :: saves[i].graphSpaceId == space || Separate(saves[i].graphSpaceId, space)
    ensures var stored, key := SavedAll(map[], saves), SnapshotKey(space, principal);
      && (key in stored <==> exists i | 0 <= i < |saves| :: SavedFor(saves[i], space, principal))
      && (key in stored ==> exists i | 0 <= i < |saves| ::
            && stored[key] == saves[i] && SavedFor(saves[i], space, principal)
            && forall j | i < j < |saves| :: !SavedFor(saves[j], space, principal))
  {
    hide SCOPE_SEPARATOR, Separate, SnapshotKey, Lit;
    if saves != [] {
      var n := |saves| - 1;
      SavedUnder(saves[..n], space, principal);
      KeysAgreeIff(saves[n].graphSpaceId, saves[n].principalId, space, principal);
      var stored, key := SavedAll(map[], saves), SnapshotKey(space, principal);
      if SavedFor(saves[n], space, principal) {
        assert stored[key] == saves[n];
      } else {
        assert key in stored <==> key in SavedAll(map[], saves[..n]);
        if key in stored {
          var i :| 0 <= i < n && stored[key] == saves[..n][i] && SavedFor(saves[..n][i], space, principal)
            && forall j | i < j < n :: !SavedFor(saves[..n][j], space, principal);
          assert saves[..n][i] == saves[i];
          forall j | i < j < |saves| ensures !SavedFor(saves[j], space, principal) {
            assert j < n ==> saves[..n][j] == saves[j];
          }
        }
      }
    }
  }

  lemma KeysAgreeIff(a: Text, p: Text, b: Text, q: Text)
    requires a == b || Separate(a, b)
    ensures SnapshotKey(a, p) == SnapshotKey(b, q) <==> a == b && p == q
  {
    hide SCOPE_SEPARATOR;
    var left, right := a + SCOPE_SEPARATOR, b + SCOPE_SEPARATOR;
    assert SnapshotKey(a, p)[..|left|] == left && SnapshotKey(a, p)[|left|..] == p;
    assert SnapshotKey(b, q)[..|right|] == right && SnapshotKey(b, q)[|right|..] == q;
    if SnapshotKey(a, p) == SnapshotKey(b, q) && a != b {
      PrefixesNest(SnapshotKey(a, p), |left|, |right|);
    }
  }

  lemma PrefixesNest<T>(all: seq<T>, m: nat, n: nat)
    requires m <= |all| && n <= |all|
    ensures all[..m] <= all[..n] || all[..n] <= all[..m]
  {
  }

  /** Whatever a store saved before, loading a scope returns the last envelope of the supported version
      saved for that very graph space and principal, provided no other space's keys can meet it. */
  lemma LoadsLastSave(saves: seq<Envelope>, last: nat, space: Text, principal: Text)
    requires forall i | 0 <= i < |saves| :: saves[i].graphSpaceId == space || Separate(saves[i].graphSpaceId, space)
    requires last < |saves| && SavedFor(saves[last], space, principal)
    requires forall j | last < j < |saves| :: !SavedFor(saves[j], space, principal)
    ensures SnapshotKey(space, principal) in SavedAll(map[], saves)
    ensures SavedAll(map[], saves)[SnapshotKey(space, principal)] == saves[last]
  {
    hide SCOPE_SEPARATOR, Separate, SnapshotKey, SavedAll;
    SavedUnder(saves, space, principal);
  }

  /** A load for one space that returns what was saved for another. */
  predicate LoadsForeign(saved: Envelope, a: Text, b: Text, q: Text) {
    && SavedFor(saved, a, saved.principalId)
    && SnapshotKey(b, q) in SavedAll(map[], [saved]) && SavedAll(map[], [saved])[SnapshotKey(b, q)] == saved
  }

  lemma SavedOne(saved: Envelope)
    requires saved.snapshotVersion == SNAPSHOT_VERSION_V1
    ensures SavedAll(map[], [saved]) == map[SnapshotKey(saved.graphSpaceId, saved.principalId) := saved]
  {
    hide SnapshotKey;
    assert [saved][..0] == [];
    assert SavedAll(map[], []) == map[];
  }

  /** A space can load what was saved for another exactly when one's name and the separator begin the
      other's. */
  lemma LoadsForeignIff(a: Text, b: Text)
    requires a != b
    ensures (exists saved, q :: LoadsForeign(saved, a, b, q)) <==> !Separate(a, b)
  {
    hide SCOPE_SEPARATOR;
    var left, right := a + SCOPE_SEPARATOR, b + SCOPE_SEPARATOR;
    if !Separate(a, b) {
      var p, q := if left <= right then right[|left|..] else [], if left <= right then [] else left[|right|..];
      assert SnapshotKey(a, p) == SnapshotKey(b, q);
      var saved := Envelope([], SNAPSHOT_VERSION_V1, a, p, 0, Snapshot(p, 0, 0, [], None));
      SavedOne(saved);
      assert LoadsForeign(saved, a, b, q);
    } else if saved, q :| LoadsForeign(saved, a, b, q) {
      SavedOne(saved);
      KeysAgreeIff(a, saved.principalId, b, q);
    }
  }

  /** Two such spaces: what the engine of space `x` saves for the principal `y::p` spoils the seeded
      rebuild of space `x::y` for the principal `p`, which starts beyond an empty log. */
  lemma ForeignSnapshotSpoilsRebuild(b: TxBundle)
    ensures var x, y := Setting(Lit("x"), DefaultPolicy), Setting(Lit("x::y"), DefaultPolicy);
      var saved := RebuildWithSnapshot(x, [b], ProjectionSpec.Engine(map[], map[]), Lit("y::p")).0.snapshots;
      var e := ProjectionSpec.Engine(map[], saved);
      && Latest(y, e, Lit("p")).Some?
      && var spoiled := RebuildWithSnapshot(y, [], e, Lit("p")).1;
         spoiled.cursor == 1 && spoiled.nodeCount == 0 && FullRebuild([], Lit("p")).cursor == 0
  {
    var x, y := Setting(Lit("x"), DefaultPolicy), Setting(Lit("x::y"), DefaultPolicy);
    assert x.ScopeKey(Lit("y::p")) == Lit("x::y::p") == y.ScopeKey(Lit("p"));
    OneSeen(x, b, Lit("y::p"));
    var e := RebuildWithSnapshot(x, [b], ProjectionSpec.Engine(map[], map[]), Lit("y::p")).0;
    assert e.snapshots[x.ScopeKey(Lit("y::p"))].cursorAt == 1;
    assert ReadAfter([], 1) == 0 == ReadAfter([], 0);
  }

  lemma OneSeen(x: Setting, b: TxBundle, p: Text)
    requires x.policy == DefaultPolicy
    ensures ReadAfter(x.Seen([b], p), 0) == 1
  {
    assert [b][..0] == [];
    assert x.Seen([], p) == [];
  }

  class InMemorySnapshotStore {
    var byScope: map<Text, Envelope>

    /** Every envelope is of the current version and under its own scope. */
    predicate Valid()
      reads this
    {
      forall k | k in byScope ::
        && byScope[k].snapshotVersion == SNAPSHOT_VERSION_V1
        && k == SnapshotKey(byScope[k].graphSpaceId, byScope[k].principalId)
    }

    constructor ()
      ensures Valid() && byScope == map[]
    {
      byScope := map[];
    }

    /** False where the source throws: an envelope of another version is not stored. */
    method SaveSnapshot(envelope: Envelope) returns (ok: bool)
      requires Valid()
      modifies this
      ensures Valid() && ok == (envelope.snapshotVersion == SNAPSHOT_VERSION_V1)
      ensures byScope == Saved(old(byScope), envelope)
    {
      if envelope.snapshotVersion != SNAPSHOT_VERSION_V1 { return false; }
      byScope := byScope[SnapshotKey(envelope.graphSpaceId, envelope.principalId) := envelope];
      return true;
    }

    method LoadLatestSnapshot(space: Text, principal: Text) returns (latest: Option<Envelope>)
      ensures latest ==
        if SnapshotKey(space, principal) in byScope then Some(byScope[SnapshotKey(space, principal)]) else None
    {
      if SnapshotKey(space, principal) in byScope { return Some(byScope[SnapshotKey(space, principal)]); }
      return None;
    }
  }

  /** The actions of others leave a handle alone. */
  predicate LeavesAlone(actions: seq<Action>, id: nat) {
    forall a | a in actions :: match a
      case StartCall(other, _, _) => other != id
      case Proceed(other) => other != id
      case _ => true
  }

  lemma {:induction false} LeftAlone(x: Setting, w: World, actions: seq<Action>, id: nat)
    requires id in w.calls && LeavesAlone(actions, id)
    ensures id in Run(x, w, actions).0.calls && Run(x, w, actions).0.calls[id] == w.calls[id]
  {
    hide Step;
    if actions != [] {
      var init, last := actions[..|actions| - 1], actions[|actions| - 1];
      assert last in actions && forall a | a in init :: a in actions;
      LeftAlone(x, w, init, id);
      StepLeavesAlone(x, Run(x, w, init).0, last, id);
    }
  }

  lemma StepLeavesAlone(x: Setting, w: World, a: Action, id: nat)
    requires id in w.calls && LeavesAlone([a], id)
    ensures id in Step(x, w, a).0.calls && Step(x, w, a).0.calls[id] == w.calls[id]
  {
    hide Proceeded, Begin, Arrive, VisibleLog;
    assert a in [a];
  }

  /** A whole call: its start, and before each of its further steps what happens while it awaits. */
  function Amid(id: nat, op: Operation, principal: Text, others: seq<seq<Action>>): seq<Action> {
    if others == [] then [StartCall(id, op, principal)]
    else Amid(id, op, principal, others[..|others| - 1]) + others[|others| - 1] + [Proceed(id)]
  }

  /** The answer of the last step of a run. */
  function LastAnswer(x: Setting, w: ProjectionRuns.World, actions: seq<Action>): Option<Answer> {
    if actions == [] then None else Step(x, Run(x, w, actions[..|actions| - 1]).0, actions[|actions| - 1]).1
  }

  class PrincipalProjectionEngine {
    const eventStore: InMemoryLocalEventStore
    const snapshotStore: InMemorySnapshotStore
    const setting: Setting
    var cache: map<Text, Snapshot>
    var calls: map<nat, Call>          // calls awaiting something
    ghost var asked: map<nat, nat>     // how much the principal of a call saw when it was made

    constructor (eventStore: InMemoryLocalEventStore, snapshotStore: InMemorySnapshotStore, setting: Setting)
      ensures this.eventStore == eventStore && this.snapshotStore == snapshotStore && this.setting == setting
      ensures cache == map[] && calls == map[] && asked == map[]
    {
      this.eventStore, this.snapshotStore, this.setting := eventStore, snapshotStore, setting;
      cache, calls, asked := map[], map[], map[];
    }

    /** What is about to be saved goes under its own scope. */
    ghost predicate Ready()
      reads this, eventStore, snapshotStore
    {
      && eventStore.Valid() && UniqueIds(eventStore.log) && snapshotStore.Valid()
      && forall id | id in calls :: Savable(calls[id])
    }

    predicate Savable(call: Call) {
      call.stage.Saving? ==>
        && call.stage.envelope.snapshotVersion == SNAPSHOT_VERSION_V1
        && SnapshotKey(call.stage.envelope.graphSpaceId, call.stage.envelope.principalId) ==
          setting.ScopeKey(call.principal)
    }

    ghost function World(): ProjectionRuns.World
      reads this, eventStore, snapshotStore
    {
      ProjectionRuns.World(eventStore.Abs(), ProjectionSpec.Engine(cache, snapshotStore.byScope), calls, asked)
    }

    // ---------------------------------------------------------------- from one await to the next

    /** What a call does up to its first await. */
    method Start(id: nat, op: Operation, principal: Text)
      requires Ready() && id !in calls
      modifies this`calls, this`asked
      ensures Ready() && World() == Step(setting, old(World()), StartCall(id, op, principal)).0
      ensures id in calls && calls[id].principal == principal && calls[id].op == op
      ensures if op == PlainRebuild || op == IncrementalRead then calls[id].stage.Reading? else calls[id].stage.Loading?
    {
      hide VisibleLog, Events, Count, IndexOf, LastEntries, UniqueIds, Compute;
      asked := asked[id := |setting.Seen(eventStore.log, principal)|];
      match op {
        case PlainRebuild =>
          calls := calls[id := Call(op, principal, Reading(0, 0))];
        case IncrementalRead =>
          var key := setting.CacheKey(principal);
          var prior := if key in cache then cache[key] else Compute(principal, 0, 0);
          ComputeFields(principal, 0, 0);
          calls := calls[id := Call(op, principal, Reading(prior.cursor, prior.nodeCount))];
        case _ =>
          calls := calls[id := Call(op, principal, Loading)];
      }
    }

    /** The latest snapshot has come: a rebuild reads on from it if it can be reused, compaction saves
        it compacted or ends. */
    method Load(id: nat)
      requires Ready() && id in calls && calls[id].stage.Loading?
      modifies this`calls
      ensures Ready() && World() == Step(setting, old(World()), Proceed(id)).0
      ensures id in calls ==> calls[id].op == old(calls[id]).op && calls[id].principal == old(calls[id]).principal
      ensures if old(calls[id]).op != Compaction then id in calls && calls[id].stage.Reading?
              else id in calls ==> calls[id].stage.Saving? && calls[id].stage.result.None?
    {
      hide VisibleLog, Events, Count, IndexOf, LastEntries, UniqueIds, Compute, Reusable, Normalize, Compact,
        NeedsCompaction;
      var call := calls[id];
      var latest := snapshotStore.LoadLatestSnapshot(setting.graphSpaceId, call.principal);
      var reusable := latest.Some? && Reusable(setting, latest.value);
      if call.op != Compaction {
        var seedCursor, seedNodeCount := 0, 0;
        if reusable {
          var seed := Normalize(setting, latest.value.payload, latest.value.cursorAt, call.principal);
          seedCursor, seedNodeCount := latest.value.cursorAt, seed.nodeCount;
        }
        calls := calls[id := call.(stage := Reading(seedCursor, seedNodeCount))];
        return;
      }
      if !reusable {
        calls := calls - {id};
        return;
      }
      var found := latest.value;
      var compacted := Compact(setting, Normalize(setting, found.payload, found.cursorAt, call.principal));
      if !NeedsCompaction(found.payload, compacted) {
        calls := calls - {id};
        return;
      }
      var snapshotId := setting.SnapshotId(call.principal, found.cursorAt);
      calls := calls[id := call.(stage := Saving(found.(snapshotId := snapshotId, payload := compacted), None))];
    }

    /** The log is read from the seed on. */
    method ReadLog(id: nat)
      requires Ready() && id in calls && calls[id].stage.Reading?
      modifies this`calls
      ensures Ready() && World() == Step(setting, old(World()), Proceed(id)).0
      ensures id in calls && calls[id].op == old(calls[id]).op && calls[id].principal == old(calls[id]).principal
      ensures if calls[id].op == SnapshotRebuild then calls[id].stage.Saving? && calls[id].stage.result.Some?
              else calls[id].stage.Caching?
    {
      hide VisibleLog, PageOfShown, ShownPositions, Events, Count, IndexOf, LastEntries, UniqueIds,
        Compute, MAX_SAFE_INTEGER, Shows, Window;
      var call := calls[id];
      var viewer := Viewer(setting.policy, call.principal);
      EmptyShowsNothing(viewer, call.stage.from);
      var txs, cursor := eventStore.ReadPrincipalTxRange(call.stage.from, MAX_SAFE_INTEGER, viewer);
      var snapshot := Compute(call.principal, call.stage.nodeCount + |txs|, cursor);
      ComputeFields(call.principal, call.stage.nodeCount + |txs|, cursor);
      var result := Result(snapshot, |txs|);
      if call.op == SnapshotRebuild {
        var envelope := Envelope(setting.SnapshotId(call.principal, snapshot.cursor), SNAPSHOT_VERSION_V1,
          setting.graphSpaceId, call.principal, snapshot.cursor, Compact(setting, snapshot));
        calls := calls[id := call.(stage := Saving(envelope, Some(result)))];
      } else {
        calls := calls[id := call.(stage := Caching(result))];
      }
    }

    /** The snapshot is saved; a compaction ends there. */
    method Save(id: nat)
      requires Ready() && id in calls && calls[id].stage.Saving?
      modifies this`calls, snapshotStore
      ensures Ready() && World() == Step(setting, old(World()), Proceed(id)).0
      ensures id in calls <==> old(calls[id]).stage.result.Some?
      ensures id in calls ==> calls[id] == old(calls[id]).(stage := Caching(old(calls[id]).stage.result.value))
    {
      hide VisibleLog, Events, Count, IndexOf, LastEntries, UniqueIds;
      var call := calls[id];
      var _ := snapshotStore.SaveSnapshot(call.stage.envelope);
      if call.stage.result.Some? {
        calls := calls[id := call.(stage := Caching(call.stage.result.value))];
      } else {
        calls := calls - {id};
      }
    }

    /** The projection is cached and handed out. */
    method Finish(id: nat) returns (r: Result)
      requires Ready() && id in calls && calls[id].stage.Caching?
      modifies this`calls, this`cache
      ensures Ready() && World() == Step(setting, old(World()), Proceed(id)).0
      ensures var answer := Step(setting, old(World()), Proceed(id)).1;
        answer.Some? && answer.value.result == r && answer.value.principal == old(calls[id]).principal
    {
      hide VisibleLog, Events, Count, IndexOf, LastEntries, UniqueIds;
      var call := calls[id];
      r := call.stage.done;
      cache := cache[setting.CacheKey(call.principal) := r.snapshot];
      calls := calls - {id};
    }

    method Invalidate(space: Text)
      requires Ready()
      modifies this`cache
      ensures Ready() && World() == Step(setting, old(World()), Action.Invalidate(space)).0
    {
      if space == setting.graphSpaceId {
        cache := map[];
      }
    }

    // ---------------------------------------------------------------- what happens meanwhile

    /** Anything that can happen while a call awaits. */
    method Perform(action: Action)
      requires Ready()
      modifies this, eventStore, snapshotStore
      ensures Ready() && World() == Step(setting, old(World()), action).0
    {
      hide VisibleLog, PageOfShown, ShownPositions, UniqueIds, Events, Count, IndexOf, LastEntries,
        Proceeded, Begin, Arrive, Compute;
      match action
      case OtherAppends(b, ctx) => AppendArrival(eventStore, b, ctx);
      case StartCall(id, op, principal) =>
        if id !in calls {
          Start(id, op, principal);
        }
      case Proceed(id) =>
        if id in calls {
          match calls[id].stage {
            case Loading => Load(id);
            case Reading(_, _) => ReadLog(id);
            case Saving(_, _) => Save(id);
            case Caching(_) => var _ := Finish(id);
          }
        }
      case SaveUncompacted(principal, snapshotId, cursor) =>
        var seen := eventStore.GetPrincipalCursorHead(Viewer(setting.policy, principal));
        if cursor <= seen {
          var payload := Compute(principal, cursor, cursor);
          var saved := Envelope(snapshotId, SNAPSHOT_VERSION_V1, setting.graphSpaceId, principal, cursor, payload);
          var _ := snapshotStore.SaveSnapshot(saved);
        }
      case Invalidate(space) => Invalidate(space);
    }

    method PerformAll(actions: seq<Action>)
      requires Ready()
      modifies this, eventStore, snapshotStore
      ensures Ready() && World() == Run(setting, old(World()), actions).0
    {
      hide VisibleLog, UniqueIds, Events, Count, IndexOf, LastEntries, Step;
      for i := 0 to |actions|
        invariant Ready() && World() == Run(setting, old(World()), actions[..i]).0
      {
        RunSnoc(setting, old(World()), actions[..i], actions[i]);
        assert actions[..i + 1] == actions[..i] + [actions[i]];
        Perform(actions[i]);
      }
      assert actions[..|actions|] == actions;
    }

    /** A call awaits: `meanwhile` happens, which leaves the call as it is. */
    method Await(id: nat, meanwhile: seq<Action>, ghost start: ProjectionRuns.World, ghost soFar: seq<Action>)
      requires Ready() && id in calls && LeavesAlone(meanwhile, id)
      requires World() == Run(setting, start, soFar).0
      modifies this, eventStore, snapshotStore
      ensures Ready() && World() == Run(setting, start, soFar + meanwhile).0
      ensures id in calls && calls[id] == old(calls[id])
    {
      hide VisibleLog, UniqueIds, Events, Count, IndexOf, LastEntries, Run;
      LeftAlone(setting, World(), meanwhile, id);
      PerformAll(meanwhile);
      RunConcat(setting, start, soFar, meanwhile);
    }

    // ---------------------------------------------------------------- whole calls

    /** The last step of a run hands `s` to the principal. */
    ghost predicate HandsOut(start: ProjectionRuns.World, actions: seq<Action>, principal: Text, r: Result) {
      var answer := LastAnswer(setting, start, actions);
      answer.Some? && answer.value.principal == principal && answer.value.result == r
    }

    /** A read that awaits only the log: `rebuild` from nothing, `incremental` from what is cached. */
    method ReadAndCache(id: nat, op: Operation, principal: Text, others: seq<seq<Action>>) returns (r: Result)
      requires Ready() && id !in calls && (op == PlainRebuild || op == IncrementalRead)
      requires |others| == 2 && forall o | o in others :: LeavesAlone(o, id)
      modifies this, eventStore, snapshotStore
      ensures Ready() && World() == Run(setting, old(World()), Amid(id, op, principal, others)).0
      ensures HandsOut(old(World()), Amid(id, op, principal, others), principal, r)
    {
      hide VisibleLog, UniqueIds, Events, Count, IndexOf, LastEntries, Run, Step;
      ghost var w, run := World(), [StartCall(id, op, principal)];
      Started(setting, w, run[0]);
      AmidTwo(id, op, principal, others);
      Start(id, op, principal);
      Await(id, others[0], w, run);
      run := run + others[0];
      RunSnoc(setting, w, run, Proceed(id));
      ReadLog(id);
      run := run + [Proceed(id)];
      Await(id, others[1], w, run);
      run := run + others[1];
      RunSnoc(setting, w, run, Proceed(id));
      LastStep(setting, w, run, Proceed(id));
      r := Finish(id);
    }

    method Rebuild(id: nat, principal: Text, others: seq<seq<Action>>) returns (s: Snapshot)
      requires Ready() && id !in calls && |others| == 2 && forall o | o in others :: LeavesAlone(o, id)
      modifies this, eventStore, snapshotStore
      ensures Ready() && World() == Run(setting, old(World()), Amid(id, PlainRebuild, principal, others)).0
      ensures exists n :: HandsOut(old(World()), Amid(id, PlainRebuild, principal, others), principal, Result(s, n))
    {
      hide Run, Step, Amid, LeavesAlone;
      var r := ReadAndCache(id, PlainRebuild, principal, others);
      s := r.snapshot;
      assert r == Result(s, r.applied);
    }

    method Incremental(id: nat, principal: Text, others: seq<seq<Action>>) returns (s: Snapshot)
      requires Ready() && id !in calls && |others| == 2 && forall o | o in others :: LeavesAlone(o, id)
      modifies this, eventStore, snapshotStore
      ensures Ready() && World() == Run(setting, old(World()), Amid(id, IncrementalRead, principal, others)).0
      ensures exists n :: HandsOut(old(World()), Amid(id, IncrementalRead, principal, others), principal, Result(s, n))
    {
      hide Run, Step, Amid, LeavesAlone;
      var r := ReadAndCache(id, IncrementalRead, principal, others);
      s := r.snapshot;
      assert r == Result(s, r.applied);
    }

    method RebuildWithSnapshot(id: nat, principal: Text, others: seq<seq<Action>>) returns (r: Result)
      requires Ready() && id !in calls && |others| == 4 && forall o | o in others :: LeavesAlone(o, id)
      modifies this, eventStore, snapshotStore
      ensures Ready() && World() == Run(setting, old(World()), Amid(id, SnapshotRebuild, principal, others)).0
      ensures HandsOut(old(World()), Amid(id, SnapshotRebuild, principal, others), principal, r)
    {
      hide VisibleLog, UniqueIds, Events, Count, IndexOf, LastEntries, Run, Step;
      ghost var w, run := World(), [StartCall(id, SnapshotRebuild, principal)];
      Started(setting, w, run[0]);
      AmidFour(id, SnapshotRebuild, principal, others);
      Start(id, SnapshotRebuild, principal);
      Await(id, others[0], w, run);
      run := run + others[0];
      RunSnoc(setting, w, run, Proceed(id));
      Load(id);
      run := run + [Proceed(id)];
      Await(id, others[1], w, run);
      run := run + others[1];
      RunSnoc(setting, w, run, Proceed(id));
      ReadLog(id);
      run := run + [Proceed(id)];
      Await(id, others[2], w, run);
      run := run + others[2];
      RunSnoc(setting, w, run, Proceed(id));
      Save(id);
      run := run + [Proceed(id)];
      Await(id, others[3], w, run);
      run := run + others[3];
      RunSnoc(setting, w, run, Proceed(id));
      LastStep(setting, w, run, Proceed(id));
      r := Finish(id);
    }

    /** Ends after the load when there is nothing to compact, after the save otherwise. */
    method CompactSnapshots(id: nat, principal: Text, others: seq<seq<Action>>) returns (done: bool)
      requires Ready() && id !in calls && |others| == 2 && forall o | o in others :: LeavesAlone(o, id)
      modifies this, eventStore, snapshotStore
      ensures Ready()
      ensures var loaded := Run(setting, old(World()), Amid(id, Compaction, principal, others[..1])).0;
        && done == (id in loaded.calls)
        && World() == if done then Run(setting, old(World()), Amid(id, Compaction, principal, others)).0 else loaded
    {
      hide VisibleLog, UniqueIds, Events, Count, IndexOf, LastEntries, Run, Step;
      ghost var w, run := World(), [StartCall(id, Compaction, principal)];
      Started(setting, w, run[0]);
      AmidTwo(id, Compaction, principal, others);
      Start(id, Compaction, principal);
      Await(id, others[0], w, run);
      run := run + others[0];
      RunSnoc(setting, w, run, Proceed(id));
      Load(id);
      run := run + [Proceed(id)];
      if id !in calls { return false; }
      Await(id, others[1], w, run);
      run := run + others[1];
      RunSnoc(setting, w, run, Proceed(id));
      Save(id);
      return true;
    }
  }

  lemma Started(x: Setting, w: ProjectionRuns.World, a: Action)
    ensures Run(x, w, [a]).0 == Step(x, w, a).0
  {
    hide Step;
    RunNothing(x, w);
    RunSnoc(x, w, [], a);
    assert [] + [a] == [a];
  }

  lemma LastStep(x: Setting, w: ProjectionRuns.World, actions: seq<Action>, a: Action)
    ensures LastAnswer(x, w, actions + [a]) == Step(x, Run(x, w, actions).0, a).1
  {
    hide Step, Run;
    assert (actions + [a])[..|actions|] == actions;
  }

  lemma AmidTwo(id: nat, op: Operation, p: Text, others: seq<seq<Action>>)
    requires |others| == 2
    ensures Amid(id, op, p, others[..1]) == [StartCall(id, op, p)] + others[0] + [Proceed(id)]
    ensures Amid(id, op, p, others) ==
      [StartCall(id, op, p)] + others[0] + [Proceed(id)] + others[1] + [Proceed(id)]
  {
    assert others[..1][..0] == [];
    assert Amid(id, op, p, []) == [StartCall(id, op, p)];
  }

  lemma AmidFour(id: nat, op: Operation, p: Text, others: seq<seq<Action>>)
    requires |others| == 4
    ensures Amid(id, op, p, others) ==
      [StartCall(id, op, p)] + others[0] + [Proceed(id)] + others[1] + [Proceed(id)]
        + others[2] + [Proceed(id)] + others[3] + [Proceed(id)]
  {
    hide Amid;
    AmidTwo(id, op, p, others[..2]);
    assert others[..3][..2] == others[..2] && others[..2][0] == others[0] && others[..2][1] == others[1];
    AmidStep(id, op, p, others[..3]);
    AmidStep(id, op, p, others);
  }

  lemma AmidStep(id: nat, op: Operation, p: Text, others: seq<seq<Action>>)
    requires others != []
    ensures Amid(id, op, p, others) == Amid(id, op, p, others[..|others| - 1]) + others[|others| - 1] + [Proceed(id)]
  {
  }

  lemma EmptyShowsNothing(viewer: Viewer, from: nat)
    ensures Window(VisibleLog([], viewer), from, MAX_SAFE_INTEGER) == []
  {
  }
}
