/** Per-principal projections kept incrementally, rebuilt, and seeded from snapshots. */
module ProjectionSpec {
  import opened Texts
  import opened EventLog
  import opened StoreSpec
  import opened Visibility

  const MAX_SAFE_INTEGER: nat := 9007199254740991
  const SNAPSHOT_VERSION_V1: nat := 1
  const PLACEHOLDER: Text := Lit("placeholder")
  const POLICY_MARK: Text := Lit(":policy:")

  datatype Coverage = Coverage(coveredUpToCursor: nat, principalId: Text, visibilityScope: Text)

  datatype Snapshot = Snapshot(principalId: Text, cursor: nat, nodeCount: nat, txIds: seq<Text>,
      coverage: Option<Coverage>)

  datatype Envelope = Envelope(snapshotId: Text, snapshotVersion: nat, graphSpaceId: Text, principalId: Text,
      cursorAt: nat, payload: Snapshot)

  /** What the engine caches, and what the snapshot store holds. */
  datatype Engine = Engine(cache: map<Text, Snapshot>, snapshots: map<Text, Envelope>)

  const SCOPE_SEPARATOR: Text := Lit("::")

  /** Where the snapshot store keeps the latest snapshot of a principal's view of a space. */
  function SnapshotKey(space: Text, principal: Text): Text { space + SCOPE_SEPARATOR + principal }

  /** The engine's fixed surroundings. */
  datatype Setting = Setting(graphSpaceId: Text, policy: Policy) {
    predicate SecurityPolicyEnabled() { policy != DefaultPolicy }

    function VisibilityScope(): Text {
      match policy
      case AclPolicy => Lit("policy:acl")
      case EntitySecretPolicy => Lit("policy:entity-secret")
      case DefaultPolicy => Lit("policy:off")
    }

    function CacheKey(principal: Text): Text { principal + SCOPE_SEPARATOR + VisibilityScope() }

    function ScopeKey(principal: Text): Text { SnapshotKey(graphSpaceId, principal) }

    function SnapshotId(principal: Text, cursor: nat): Text {
      graphSpaceId + Lit(":") + principal + Lit(":") + Decimal(cursor) + Lit(":") + VisibilityScope()
    }

    function Seen(log: Log, principal: Text): Log { VisibleLog(log, Viewer(policy, principal)) }
  }

  predicate Includes(t: Text, part: Text) {
    exists i | 0 <= i <= |t| :: part <= t[i..]
  }

  function Compute(principal: Text, nodeCount: nat, cursor: nat): Snapshot {
    Snapshot(principal, cursor, nodeCount, seq(nodeCount, i requires 0 <= i < nodeCount => PLACEHOLDER), None)
  }

  /** How many transactions a read after `from` returns, and the cursor it returns. */
  function ReadAfter(v: Log, from: nat): nat {
    |Window(v, from, MAX_SAFE_INTEGER)|
  }

  /** The projection computed from nothing. */
  function FullRebuild(v: Log, principal: Text): Snapshot {
    Compute(principal, ReadAfter(v, 0), ReadAfter(v, 0))
  }

  function RebuildInternal(v: Log, principal: Text, from: nat, seedNodeCount: nat): (Snapshot, nat) {
    var n := ReadAfter(v, from);
    (Compute(principal, seedNodeCount + n, from + n), n)
  }

  function Rebuild(x: Setting, log: Log, e: Engine, principal: Text): (Engine, Snapshot) {
    var s := RebuildInternal(x.Seen(log, principal), principal, 0, 0).0;
    (e.(cache := e.cache[x.CacheKey(principal) := s]), s)
  }

  function Incremental(x: Setting, log: Log, e: Engine, principal: Text): (Engine, Snapshot) {
    var key := x.CacheKey(principal);
    var prior := if key in e.cache then e.cache[key] else Compute(principal, 0, 0);
    var n := ReadAfter(x.Seen(log, principal), prior.cursor);
    var merged := Compute(principal, prior.nodeCount + n, prior.cursor + n);
    (e.(cache := e.cache[key := merged]), merged)
  }

  function Latest(x: Setting, e: Engine, principal: Text): Option<Envelope> {
    if x.ScopeKey(principal) in e.snapshots then Some(e.snapshots[x.ScopeKey(principal)]) else None
  }

  predicate Reusable(x: Setting, snapshot: Envelope) {
    || !x.SecurityPolicyEnabled()
    || !Includes(snapshot.snapshotId, POLICY_MARK)
    || Includes(snapshot.snapshotId, Lit(":") + x.VisibilityScope())
  }

  function Normalize(x: Setting, payload: Snapshot, cursorAt: nat, principal: Text): Snapshot {
    var covered := payload.coverage == Some(Coverage(cursorAt, principal, x.VisibilityScope()));
    Compute(principal, if covered then payload.nodeCount else |payload.txIds|, cursorAt)
  }

  function Compact(x: Setting, s: Snapshot): Snapshot {
    s.(txIds := [], coverage := Some(Coverage(s.cursor, s.principalId, x.VisibilityScope())))
  }

  predicate NeedsCompaction(payload: Snapshot, compacted: Snapshot) {
    |payload.txIds| > 0 || payload.coverage.None? || payload.coverage != compacted.coverage
  }

  function EnvelopeOf(x: Setting, principal: Text, s: Snapshot): Envelope {
    Envelope(x.SnapshotId(principal, s.cursor), SNAPSHOT_VERSION_V1, x.graphSpaceId, principal, s.cursor, Compact(x, s))
  }

  /** Where a rebuild goes on from: the latest snapshot, if it can be reused, or nothing. */
  function Seed(x: Setting, latest: Option<Envelope>, principal: Text): (nat, nat) {
    if latest.Some? && Reusable(x, latest.value) then
      (latest.value.cursorAt, Normalize(x, latest.value.payload, latest.value.cursorAt, principal).nodeCount)
    else (0, 0)
  }

  /** Rebuilds from the seed and saves the result, compacted; also how many transactions it had to
      replay. */
  function RebuildWithSnapshot(x: Setting, log: Log, e: Engine, principal: Text): (Engine, Snapshot, nat) {
    var (seedCursor, seedNodeCount) := Seed(x, Latest(x, e, principal), principal);
    var (s, applied) := RebuildInternal(x.Seen(log, principal), principal, seedCursor, seedNodeCount);
    var saved := e.snapshots[x.ScopeKey(principal) := EnvelopeOf(x, principal, s)];
    (Engine(e.cache[x.CacheKey(principal) := s], saved), s, applied)
  }

  /** What compaction saves in place of the latest snapshot, if anything. */
  function Compacted(x: Setting, latest: Option<Envelope>, principal: Text): Option<Envelope> {
    if latest.None? || !Reusable(x, latest.value) then None
    else
      var found := latest.value;
      var compacted := Compact(x, Normalize(x, found.payload, found.cursorAt, principal));
      if !NeedsCompaction(found.payload, compacted) then None
      else Some(found.(snapshotId := x.SnapshotId(principal, found.cursorAt), payload := compacted))
  }

  function CompactSnapshots(x: Setting, e: Engine, principal: Text): (Engine, bool) {
    var saved := Compacted(x, Latest(x, e, principal), principal);
    if saved.None? then (e, false) else (e.(snapshots := e.snapshots[x.ScopeKey(principal) := saved.value]), true)
  }

  // ---------------------------------------------------------------- the invariant

  /** A cached projection is the full one of some earlier visible log. */
  ghost predicate CachedRight(x: Setting, log: Log, e: Engine, principal: Text) {
    var key := x.CacheKey(principal);
    key in e.cache ==>
      && e.cache[key].cursor <= |x.Seen(log, principal)|
      && e.cache[key] == Compute(principal, e.cache[key].cursor, e.cache[key].cursor)
  }

  /** A stored snapshot, compacted or not, stands for a prefix of the visible log. */
  ghost predicate StoredRight(x: Setting, log: Log, e: Engine, principal: Text) {
    var latest := Latest(x, e, principal);
    latest.Some? ==>
      && latest.value.cursorAt <= |x.Seen(log, principal)|
      && Normalize(x, latest.value.payload, latest.value.cursorAt, principal) ==
        Compute(principal, latest.value.cursorAt, latest.value.cursorAt)
  }

  ghost predicate Faithful(x: Setting, log: Log, e: Engine) {
    forall p :: CachedRight(x, log, e, p) && StoredRight(x, log, e, p)
  }

  /** Logs a JavaScript number can count. */
  predicate Countable(log: Log) { |log| <= MAX_SAFE_INTEGER }

  lemma {:induction false} SeenIsShorter(log: Log, viewer: Viewer)
    ensures |VisibleLog(log, viewer)| <= |log|
  {
    if log != [] {
      SeenIsShorter(log[..|log| - 1], viewer);
    }
  }

  lemma ReadsAll(x: Setting, log: Log, principal: Text, from: nat)
    requires Countable(log) && from <= |x.Seen(log, principal)|
    ensures from + ReadAfter(x.Seen(log, principal), from) == |x.Seen(log, principal)|
  {
    SeenIsShorter(log, Viewer(x.policy, principal));
  }

  lemma SuffixCancels(a: Text, b: Text, tail: Text)
    requires a + tail == b + tail
    ensures a == b
  {
    assert (a + tail)[..|a|] == a && (b + tail)[..|b|] == b;
  }

  lemma PrefixCancels(head: Text, a: Text, b: Text)
    requires head + a == head + b
    ensures a == b
  {
    assert (head + a)[|head|..] == a && (head + b)[|head|..] == b;
  }

  /** No two principals share a cache key or a snapshot key. */
  lemma CacheKeysDiffer(x: Setting, p: Text, q: Text)
    requires x.CacheKey(p) == x.CacheKey(q)
    ensures p == q
  {
    hide Lit;
    var tail := SCOPE_SEPARATOR + x.VisibilityScope();
    assert x.CacheKey(p) == p + tail && x.CacheKey(q) == q + tail;
    SuffixCancels(p, q, tail);
  }

  lemma ScopeKeysDiffer(x: Setting, p: Text, q: Text)
    requires x.ScopeKey(p) == x.ScopeKey(q)
    ensures p == q
  {
    PrefixCancels(x.graphSpaceId + SCOPE_SEPARATOR, p, q);
  }

  /** Caching one principal's current projection leaves everyone else's as it was. */
  lemma CachePut(x: Setting, log: Log, e: Engine, principal: Text, s: Snapshot)
    requires Faithful(x, log, e) && s == Compute(principal, s.cursor, s.cursor) && s.cursor <= |x.Seen(log, principal)|
    ensures Faithful(x, log, e.(cache := e.cache[x.CacheKey(principal) := s]))
  {
    hide Compute, Normalize;
    var e' := e.(cache := e.cache[x.CacheKey(principal) := s]);
    forall p ensures CachedRight(x, log, e', p) && StoredRight(x, log, e', p) {
      assert CachedRight(x, log, e, p) && StoredRight(x, log, e, p);
      if x.CacheKey(p) == x.CacheKey(principal) {
        CacheKeysDiffer(x, p, principal);
      }
    }
  }

  lemma StorePut(x: Setting, log: Log, e: Engine, principal: Text, saved: Envelope)
    requires Faithful(x, log, e) && saved.cursorAt <= |x.Seen(log, principal)|
    requires Normalize(x, saved.payload, saved.cursorAt, principal) ==
      Compute(principal, saved.cursorAt, saved.cursorAt)
    ensures Faithful(x, log, e.(snapshots := e.snapshots[x.ScopeKey(principal) := saved]))
  {
    hide Compute, Normalize;
    var e' := e.(snapshots := e.snapshots[x.ScopeKey(principal) := saved]);
    forall p ensures CachedRight(x, log, e', p) && StoredRight(x, log, e', p) {
      assert CachedRight(x, log, e, p) && StoredRight(x, log, e, p);
      if x.ScopeKey(p) == x.ScopeKey(principal) {
        ScopeKeysDiffer(x, p, principal);
      }
    }
  }

  lemma CompactNormalizes(x: Setting, principal: Text, n: nat)
    ensures Normalize(x, Compact(x, Compute(principal, n, n)), n, principal) == Compute(principal, n, n)
    ensures Normalize(x, Compute(principal, n, n), n, principal) == Compute(principal, n, n)
  {
  }

  // ---------------------------------------------------------------- each operation

  lemma RebuildIsFull(x: Setting, log: Log, e: Engine, principal: Text)
    requires Faithful(x, log, e) && Countable(log)
    ensures var (e', s) := Rebuild(x, log, e, principal);
      s == FullRebuild(x.Seen(log, principal), principal) && Faithful(x, log, e')
  {
    hide Faithful, ReadAfter;
    ReadsAll(x, log, principal, 0);
    CachePut(x, log, e, principal, Rebuild(x, log, e, principal).1);
  }

  lemma IncrementalIsFull(x: Setting, log: Log, e: Engine, principal: Text)
    requires Faithful(x, log, e) && Countable(log)
    ensures var (e', s) := Incremental(x, log, e, principal);
      s == FullRebuild(x.Seen(log, principal), principal) && Faithful(x, log, e')
  {
    hide ReadAfter;
    assert CachedRight(x, log, e, principal);
    ReadsAll(x, log, principal, 0);
    ReadsAll(x, log, principal, if x.CacheKey(principal) in e.cache then e.cache[x.CacheKey(principal)].cursor else 0);
    CachePut(x, log, e, principal, Incremental(x, log, e, principal).1);
  }

  /** A rebuild seeded from a snapshot is the full one, replaying only what came after it. */
  lemma SnapshotRebuildIsFull(x: Setting, log: Log, e: Engine, principal: Text)
    requires Faithful(x, log, e) && Countable(log)
    ensures var (e', s, applied) := RebuildWithSnapshot(x, log, e, principal);
      var latest := Latest(x, e, principal);
      && s == FullRebuild(x.Seen(log, principal), principal) && Faithful(x, log, e')
      && applied == |x.Seen(log, principal)|
                    - (if latest.Some? && Reusable(x, latest.value) then latest.value.cursorAt else 0)
  {
    hide ReadAfter, Reusable, Normalize, Compute, Compact;
    assert StoredRight(x, log, e, principal);
    var latest := Latest(x, e, principal);
    var from := if latest.Some? && Reusable(x, latest.value) then latest.value.cursorAt else 0;
    ReadsAll(x, log, principal, 0);
    ReadsAll(x, log, principal, from);
    ComputeFields(principal, from, from);
    var s := RebuildWithSnapshot(x, log, e, principal).1;
    ComputeFields(principal, s.cursor, s.cursor);
    ComputeFields(principal, from + ReadAfter(x.Seen(log, principal), from),
      from + ReadAfter(x.Seen(log, principal), from));
    CachePut(x, log, e, principal, s);
    CompactNormalizes(x, principal, s.cursor);
    StorePut(x, log, e.(cache := e.cache[x.CacheKey(principal) := s]), principal, EnvelopeOf(x, principal, s));
  }

  lemma ComputeFields(principal: Text, n: nat, c: nat)
    ensures Compute(principal, n, c).nodeCount == n && Compute(principal, n, c).cursor == c
  {
  }

  /** Compacting changes how a snapshot is stored, not what a rebuild makes of it. */
  lemma CompactionKeepsMeaning(x: Setting, log: Log, e: Engine, principal: Text)
    requires Faithful(x, log, e)
    ensures var e' := CompactSnapshots(x, e, principal).0;
      && Faithful(x, log, e')
      && RebuildWithSnapshot(x, log, e', principal).1 == RebuildWithSnapshot(x, log, e, principal).1
  {
    hide ReadAfter, Normalize, Compute, Compact, NeedsCompaction, Reusable;
    assert StoredRight(x, log, e, principal);
    var (e', done) := CompactSnapshots(x, e, principal);
    if done {
      var found := Latest(x, e, principal).value;
      CompactNormalizes(x, principal, found.cursorAt);
      StorePut(x, log, e, principal, Latest(x, e', principal).value);
      OwnSnapshotReusable(x, principal, found.cursorAt, Latest(x, e', principal).value);
    }
  }

  /** A stored snapshot is compacted exactly when it can be reused and still lists ids, says nothing of
      what it covers, or covers something other than its own cursor under this policy; it then lists no
      ids and covers just that, with the same count. */
  lemma CompactsIff(x: Setting, e: Engine, principal: Text)
    ensures var (e', done) := CompactSnapshots(x, e, principal);
      var latest := Latest(x, e, principal);
      && (done <==>
            && latest.Some? && Reusable(x, latest.value)
            && (|| latest.value.payload.txIds != []
                || latest.value.payload.coverage !=
                     Some(Coverage(latest.value.cursorAt, principal, x.VisibilityScope()))))
      && (done ==>
            && Latest(x, e', principal).Some?
            && var saved := Latest(x, e', principal).value;
               && saved.cursorAt == saved.payload.cursor == latest.value.cursorAt
               && saved.payload.txIds == []
               && saved.payload.coverage == Some(Coverage(latest.value.cursorAt, principal, x.VisibilityScope()))
               && saved.payload.nodeCount ==
                    Normalize(x, latest.value.payload, latest.value.cursorAt, principal).nodeCount)
  {
    hide Reusable;
  }

  lemma OwnSnapshotReusable(x: Setting, principal: Text, cursor: nat, saved: Envelope)
    requires saved.snapshotId == x.SnapshotId(principal, cursor)
    ensures Reusable(x, saved)
  {
    var head := x.graphSpaceId + Lit(":") + principal + Lit(":") + Decimal(cursor);
    var tail := Lit(":") + x.VisibilityScope();
    assert saved.snapshotId == head + tail;
    assert saved.snapshotId[|head|..] == tail;
  }

  const COLON: CodeUnit := 58

  predicate NoColon(t: Text) { forall u | u in t :: u != COLON }

  /** The policy names: `policy`, a colon, and a word of its own first letter. */
  lemma ScopeShape(x: Setting)
    ensures var t := x.VisibilityScope();
      && |t| > 7 && t[..7] == Lit("policy:") && NoColon(t[..6]) && NoColon(t[7..])
      && t[7] == (match x.policy case AclPolicy => 97 case EntitySecretPolicy => 101 case DefaultPolicy => 111)
  {
    var t := x.VisibilityScope();
    assert t[..7] == Lit("policy:");
  }

  lemma DigitsNoColon(n: nat)
    ensures NoColon(Decimal(n)) && 48 <= Decimal(n)[0] <= 57
  {
    assert Decimal(n)[0] in Decimal(n);
  }

  lemma PolicyText()
    ensures Lit("policy:")[6] == COLON && Lit("policy:")[0] == 112
  {
  }

  lemma PartShape(y: Setting, part: Text)
    requires part == [COLON] + y.VisibilityScope() && y.SecurityPolicyEnabled()
    ensures |part| > 8 && part[0] == part[7] == COLON && part[1] == 112
    ensures (forall k | 1 <= k < 7 :: part[k] != COLON) && part[8] == if y.policy == AclPolicy then 97 else 101
  {
    ScopeShape(y);
    PolicyText();
    var t := y.VisibilityScope();
    hide Lit;
    assert t[..7][6] == t[6] && t[..7][0] == t[0];
    forall k | 1 <= k < 7 ensures part[k] != COLON {
      assert part[k] == t[..6][k - 1] && t[..6][k - 1] in t[..6];
    }
  }

  lemma IdParts(space: Text, principal: Text, digits: Text, scope: Text)
    ensures var id := space + [COLON] + principal + [COLON] + digits + [COLON] + scope;
      var a := |space|;
      var b := a + 1 + |principal|;
      var c := b + 1 + |digits|;
      && |id| == c + 1 + |scope| && id[0..a] == space && id[a] == COLON && id[a + 1..b] == principal && id[b] == COLON
      && id[b + 1..c] == digits && id[c] == COLON && id[c + 1..] == scope
      && (digits != [] ==> id[b + 1] == digits[0])
  {
  }

  /** The colons of a snapshot id of texts without colons. */
  lemma IdColons(space: Text, principal: Text, digits: Text, scope: Text)
    requires NoColon(space) && NoColon(principal) && NoColon(digits) && digits != []
    requires |scope| > 7 && NoColon(scope[..6]) && scope[6] == COLON && NoColon(scope[7..])
    ensures var id := space + [COLON] + principal + [COLON] + digits + [COLON] + scope;
      var a := |space|;
      var b := a + 1 + |principal|;
      var c := b + 1 + |digits|;
      && |id| == c + 1 + |scope| && id[b] == id[c] == COLON && id[c + 1..] == scope
      && id[b + 1] == digits[0] && id[c + 8] == scope[7]
      && forall k | 0 <= k < |id| && id[k] == COLON :: k == a || k == b || k == c || k == c + 7
  {
    var id := space + [COLON] + principal + [COLON] + digits + [COLON] + scope;
    var a := |space|;
    var b := a + 1 + |principal|;
    var c := b + 1 + |digits|;
    hide NoColon;
    IdParts(space, principal, digits, scope);
    ColonsBetween(id, a, b, c);
  }

  lemma ColonsBetween(id: Text, a: nat, b: nat, c: nat)
    requires a < b < c && c + 8 < |id|
    requires NoColon(id[0..a]) && NoColon(id[a + 1..b]) && NoColon(id[b + 1..c])
    requires NoColon(id[c + 1..][..6]) && NoColon(id[c + 1..][7..])
    ensures forall k | 0 <= k < |id| && id[k] == COLON :: k == a || k == b || k == c || k == c + 7
    ensures id[c + 7] == id[c + 1..][6] && id[c + 8] == id[c + 1..][7]
  {
    hide NoColon;
    assert id[c + 1..c + 7] == id[c + 1..][..6] && id[c + 8..|id|] == id[c + 1..][7..];
    NoColonIn(id, 0, a);
    NoColonIn(id, a + 1, b);
    NoColonIn(id, b + 1, c);
    NoColonIn(id, c + 1, c + 7);
    NoColonIn(id, c + 8, |id|);
  }

  /** What a rebuild saves: under the current version, at its cursor, with an id that ends in the name of
      the policy; without a policy any snapshot is taken. */
  lemma SavedEnvelopeIs(x: Setting, principal: Text, s: Snapshot, any: Envelope)
    ensures var e := EnvelopeOf(x, principal, s);
      && e.snapshotVersion == 1 && e.graphSpaceId == x.graphSpaceId && e.principalId == principal
      && e.cursorAt == s.cursor && e.payload.txIds == [] && e.payload.nodeCount == s.nodeCount
      && e.snapshotId == x.graphSpaceId + Lit(":") + principal + Lit(":") + Decimal(s.cursor) + Lit(":")
           + (match x.policy
              case AclPolicy => Lit("policy:acl")
              case EntitySecretPolicy => Lit("policy:entity-secret")
              case DefaultPolicy => Lit("policy:off"))
      && (x.policy == DefaultPolicy ==> Reusable(x, any))
  {
  }

  /** A snapshot saved under one policy is never taken for one saved under another, whatever cursor it
      was saved at, when neither the space nor the principal has a colon in its name. */
  lemma OtherPolicyNotReused(x: Setting, y: Setting, principal: Text, cursor: nat, saved: Envelope)
    requires y.policy != DefaultPolicy && x.policy != y.policy && NoColon(x.graphSpaceId) && NoColon(principal)
    requires saved.snapshotId == x.SnapshotId(principal, cursor)
    ensures !Reusable(y, saved)
  {
    var id, part, scope := saved.snapshotId, [COLON] + y.VisibilityScope(), x.VisibilityScope();
    var a := |x.graphSpaceId|;
    var b := a + 1 + |principal|;
    var c := b + 1 + |Decimal(cursor)|;
    OneColon();
    ScopeShape(x);
    PolicyText();
    hide Lit;
    DigitsNoColon(cursor);
    PartShape(y, part);
    hide Decimal, NoColon;
    assert scope[..7][6] == scope[6];
    IdColons(x.graphSpaceId, principal, Decimal(cursor), scope);
    MarkIsThere(id, c, scope);
    forall i | 0 <= i <= |id| ensures !(part <= id[i..]) {
      NoMatch(id, a, b, c, part, i);
      if part <= id[i..] {
        PartAt(id, i, part);
      }
    }
  }

  /** Where the colons are tells the policies' names apart. */
  lemma NoMatch(id: Text, a: nat, b: nat, c: nat, part: Text, i: nat)
    requires a < b < c && c + 8 < |id| && id[b] == id[c] == COLON && |part| > 8
    requires forall k | 0 <= k < |id| && id[k] == COLON :: k == a || k == b || k == c || k == c + 7
    requires 48 <= id[b + 1] <= 57 && id[c + 8] != part[8] && id[c + 8] != 112
    requires part[0] == part[7] == COLON && part[1] == 112 && part[8] >= 97
    requires forall k | 1 <= k < 7 :: part[k] != COLON
    ensures exists k | 0 <= k < |part| :: i + k >= |id| || id[i + k] != part[k]
  {
    var k := if i == b || i == c + 7 then 1 else if i == c then 8
             else if i != a then 0 else if b < a + 7 then b - a else if b == a + 7 then 8 else 7;
    assert i + k >= |id| || id[i + k] != part[k];
  }

  lemma OneColon()
    ensures Lit(":") == [COLON]
  {
  }

  lemma NoColonIn(id: Text, from: nat, to: nat)
    requires from <= to <= |id| && NoColon(id[from..to])
    ensures forall i | from <= i < to :: id[i] != COLON
  {
    forall i | from <= i < to ensures id[i] != COLON {
      assert id[i] == id[from..to][i - from] && id[from..to][i - from] in id[from..to];
    }
  }

  lemma PartAt(id: Text, i: nat, part: Text)
    requires i <= |id| && part <= id[i..]
    ensures i + |part| <= |id| && forall k | 0 <= k < |part| :: id[i + k] == part[k]
  {
    assert forall k | 0 <= k < |part| :: id[i..][k] == part[k];
  }

  lemma MarkIsThere(id: Text, c: nat, scope: Text)
    requires c < |id| && id[c] == COLON && id[c + 1..] == scope && |scope| > 7 && scope[..7] == Lit("policy:")
    ensures Includes(id, POLICY_MARK)
  {
    assert POLICY_MARK == [COLON] + Lit("policy:");
    assert id[c..] == [COLON] + scope;
    assert POLICY_MARK <= id[c..];
  }

  /** Rebuilding again with nothing new replays nothing and changes nothing. */
  lemma RebuildAgainReplaysNothing(x: Setting, log: Log, e: Engine, principal: Text)
    requires Faithful(x, log, e) && Countable(log)
    ensures var (e1, s1, _) := RebuildWithSnapshot(x, log, e, principal);
      RebuildWithSnapshot(x, log, e1, principal) == (e1, s1, 0)
  {
    hide Faithful, FullRebuild, Reusable, RebuildInternal, Normalize, Compact, Compute;
    SnapshotRebuildIsFull(x, log, e, principal);
    var (e1, s1, _) := RebuildWithSnapshot(x, log, e, principal);
    SnapshotRebuildIsFull(x, log, e1, principal);
    FullRebuildCursor(x, log, principal);
    OwnSnapshotReusable(x, principal, s1.cursor, Latest(x, e1, principal).value);
    assert e1.cache[x.CacheKey(principal) := s1] == e1.cache;
    assert e1.snapshots[x.ScopeKey(principal) := EnvelopeOf(x, principal, s1)] == e1.snapshots;
  }

  /** The full projection counts exactly what its principal sees. */
  lemma FullRebuildCounts(x: Setting, log: Log, principal: Text)
    requires Countable(log)
    ensures var s, n := FullRebuild(x.Seen(log, principal), principal), |x.Seen(log, principal)|;
      && s.principalId == principal && s.cursor == s.nodeCount == |s.txIds| == n && s.coverage.None?
      && forall t | t in s.txIds :: t == Lit("placeholder")
  {
    hide VisibleLog;
    ReadsAll(x, log, principal, 0);
  }

  lemma FullRebuildCursor(x: Setting, log: Log, principal: Text)
    requires Countable(log)
    ensures FullRebuild(x.Seen(log, principal), principal).cursor == |x.Seen(log, principal)|
  {
    ReadsAll(x, log, principal, 0);
  }

  /** A compacted snapshot holds no transaction ids and is not compacted again. */
  lemma CompactionSettles(x: Setting, e: Engine, principal: Text)
    ensures var (e1, done) := CompactSnapshots(x, e, principal);
      && (done ==> Latest(x, e1, principal).Some? && Latest(x, e1, principal).value.payload.txIds == [])
      && CompactSnapshots(x, e1, principal) == (e1, false)
  {
    hide Reusable;
    var (e1, done) := CompactSnapshots(x, e, principal);
    if done {
      var found := Latest(x, e, principal).value;
      OwnSnapshotReusable(x, principal, found.cursorAt, Latest(x, e1, principal).value);
    }
  }

  lemma GrowthFaithful(x: Setting, log: Log, more: Log, e: Engine)
    requires Faithful(x, log, e) && log <= more
    ensures Faithful(x, more, e)
  {
    hide Normalize, Compute;
    forall p ensures CachedRight(x, more, e, p) && StoredRight(x, more, e, p) {
      assert CachedRight(x, log, e, p) && StoredRight(x, log, e, p);
      VisibleGrows(log, more, Viewer(x.policy, p));
    }
  }
}
